/** Two runs of the transition system without extra rules, in which single login and the cleanup fail. */
module LifecycleRuns {
  import opened Wrappers
  import opened Registry
  import opened Lifecycle
  import SingleLogin

  lemma {:induction false} RunAppend(rules: Rules, st: System, ls: seq<Label>, l: Label)
    requires Run(rules, st, ls).Some?
    ensures Run(rules, st, ls + [l]) == Next(rules, Run(rules, st, ls).value, l)
    decreases |ls|
  {
    hide Next;
    if ls == [] {
      assert Run(rules, st, [l]) == match Next(rules, st, l) case None => None case Some(next) => Run(rules, next, []);
    } else {
      assert (ls + [l])[0] == ls[0] && (ls + [l])[1..] == ls[1..] + [l];
      RunAppend(rules, Next(rules, st, ls[0]).value, ls[1..], l);
    }
  }

  /** One more step of a run that has reached `st`. */
  lemma Then(rules: Rules, ls: seq<Label>, st: System, l: Label) returns (more: seq<Label>, next: System)
    requires Run(rules, Init(), ls) == Some(st) && Next(rules, st, l).Some?
    ensures more == ls + [l] && Some(next) == Next(rules, st, l) && Run(rules, Init(), more) == Some(next)
  {
    RunAppend(rules, Init(), ls, l);
    more, next := ls + [l], Next(rules, st, l).value;
  }

  const IDLE := Session(CONNECTED, 0, true, true, Looping, Looping, None, 0)

  /** A connection is accepted while the server holds the given sessions. */
  lemma Connect(rules: Rules, ls: seq<Label>, st: System, s: Sid) returns (more: seq<Label>, next: System)
    requires Run(rules, Init(), ls) == Some(st)
    requires st.acceptor.Waiting? && st.count < MAX_CONNECTIONS && s !in st.sess
    ensures Run(rules, Init(), more) == Some(next)
    ensures next == st.(sess := st.sess[s := IDLE], all := st.all + [s], count := st.count + 1)
  {
    more, next := Then(rules, ls, st, Check);
    more, next := Then(rules, more, next, Add(s));
    more, next := Then(rules, more, next, Count);
    more, next := Then(rules, more, next, Launch);
    assert next.sess == st.sess[s := IDLE];
  }

  const LOGGED_IN_AS_7 := Session(LOGGED_IN, 7, true, true, Looping, Looping, None, 1)

  lemma TwoConnections(rules: Rules) returns (ls: seq<Label>, st: System)
    ensures Run(rules, Init(), ls) == Some(st)
    ensures st == System(map[0 := IDLE, 1 := IDLE], map[], [0, 1], 2, Waiting, {7, 8})
  {
    ls, st := [], Init();
    ls, st := Then(rules, ls, st, NewUser(7));
    ls, st := Then(rules, ls, st, NewUser(8));
    ls, st := Connect(rules, ls, st, 0);
    ls, st := Connect(rules, ls, st, 1);
    assert st.sess == map[0 := IDLE, 1 := IDLE];
  }

  /**
   Both sessions log in as user 7; both kick before either registers, so neither kicks the other:
   in the end both are live, and only one of them is registered.
   */
  lemma OverlappingLogins() returns (ls: seq<Label>, st: System)
    ensures Run(Rules(true, false), Init(), ls) == Some(st)
    ensures st.sess.Keys == {0, 1} && st.sess[0] == st.sess[1] == LOGGED_IN_AS_7
    ensures SingleLogin.Live(st.sess[0]) && SingleLogin.Live(st.sess[1])
    ensures st.sessions == map[7 := 1]
  {
    var rules := Rules(true, false);
    ls, st := TwoConnections(rules);
    ls, st := BothKick(ls, st);
    ls, st := Then(rules, ls, st, LoginStep(0));
    ls, st := Then(rules, ls, st, LoginStep(1));
    ls, st := Then(rules, ls, st, LoginStep(0));
    ls, st := Then(rules, ls, st, LoginStep(1));
    ls, st := Then(rules, ls, st, LoginStep(0));
    ls, st := Then(rules, ls, st, LoginStep(1));
    assert st.sess == map[0 := LOGGED_IN_AS_7, 1 := LOGGED_IN_AS_7];
  }

  const CLEARED := IDLE.(reader := LoggingIn(SetUser(7)))

  lemma BothKick(ls: seq<Label>, st: System) returns (more: seq<Label>, next: System)
    requires Run(Rules(true, false), Init(), ls) == Some(st)
    requires st == System(map[0 := IDLE, 1 := IDLE], map[], [0, 1], 2, Waiting, {7, 8})
    ensures Run(Rules(true, false), Init(), more) == Some(next)
    ensures next == st.(sess := map[0 := CLEARED, 1 := CLEARED])
  {
    var rules := Rules(true, false);
    more, next := Then(rules, ls, st, Authenticate(0, 7));
    more, next := Then(rules, more, next, Authenticate(1, 7));
    more, next := Then(rules, more, next, LoginStep(0));
    more, next := Then(rules, more, next, LoginStep(1));
    more, next := Then(rules, more, next, LoginStep(0));
    more, next := Then(rules, more, next, LoginStep(1));
    assert next.sess == map[0 := CLEARED, 1 := CLEARED];
  }

  /** The first half of a login of a user who is not registered: nobody is kicked. */
  lemma BeginLogIn(rules: Rules, ls: seq<Label>, st: System, s: Sid, u: Uid) returns (more: seq<Label>, next: System)
    requires !rules.serial && Run(rules, Init(), ls) == Some(st)
    requires s in st.sess && u in st.users && u !in st.sessions
    requires st.sess[s].reader.Looping? && !st.sess[s].state.LOGGED_IN?
    ensures Run(rules, Init(), more) == Some(next)
    ensures next == Put(st, s, st.sess[s].(reader := LoggingIn(SetUser(u))))
  {
    hide Run;
    more, next := Then(rules, ls, st, Authenticate(s, u));
    more, next := Then(rules, more, next, LoginStep(s));
    assert next.sessions == st.sessions;
    more, next := Then(rules, more, next, LoginStep(s));
    assert next.sess == st.sess[s := st.sess[s].(reader := LoggingIn(SetUser(u)))];
  }

  /** And the second half. */
  lemma EndLogIn(rules: Rules, ls: seq<Label>, st: System, s: Sid, u: Uid) returns (more: seq<Label>, next: System)
    requires !rules.loyal && Run(rules, Init(), ls) == Some(st)
    requires s in st.sess && s in st.all && st.sess[s].reader == LoggingIn(SetUser(u))
    ensures Run(rules, Init(), more) == Some(next)
    ensures next == Put(st, s, LoggedIn(st.sess[s], u)).(sessions := st.sessions[u := s])
  {
    hide Run;
    more, next := Then(rules, ls, st, LoginStep(s));
    more, next := Then(rules, more, next, LoginStep(s));
    more, next := Then(rules, more, next, LoginStep(s));
    assert next.sess == st.sess[s := LoggedIn(st.sess[s], u)];
  }

  function LoggedIn(x: Session, u: Uid): Session {
    x.(userId := u, state := LOGGED_IN, logins := x.logins + 1, reader := Looping)
  }

  /** A login, uninterrupted, of a user who is not registered. */
  lemma LogIn(rules: Rules, ls: seq<Label>, st: System, s: Sid, u: Uid) returns (more: seq<Label>, next: System)
    requires !rules.loyal && !rules.serial && Run(rules, Init(), ls) == Some(st)
    requires s in st.sess && s in st.all && u in st.users && u !in st.sessions
    requires st.sess[s].reader.Looping? && !st.sess[s].state.LOGGED_IN?
    ensures Run(rules, Init(), more) == Some(next)
    ensures next == Put(st, s, LoggedIn(st.sess[s], u)).(sessions := st.sessions[u := s])
  {
    hide Run;
    more, next := BeginLogIn(rules, ls, st, s, u);
    var begun := next;
    more, next := EndLogIn(rules, more, begun, s, u);
    assert next.sess == st.sess[s := LoggedIn(st.sess[s], u)];
  }

  const CLOSING_7 := Session(CLOSING, 7, false, true, Looping, ShuttingDown(CloseFd), Some(Writer), 1)

  lemma ClosingSession(rules: Rules) returns (ls: seq<Label>, st: System)
    requires !rules.loyal && !rules.serial
    ensures Run(rules, Init(), ls) == Some(st)
    ensures st == System(map[0 := CLOSING_7], map[7 := 0], [0], 1, Waiting, {7, 8})
  {
    ls, st := [], Init();
    ls, st := Then(rules, ls, st, NewUser(7));
    ls, st := Then(rules, ls, st, NewUser(8));
    ls, st := Connect(rules, ls, st, 0);
    ls, st := LogIn(rules, ls, st, 0, 7);
    ls, st := Then(rules, ls, st, LeaveLoop(0, Writer));
    ls, st := Then(rules, ls, st, ShutdownStep(0, Writer));
    ls, st := Then(rules, ls, st, ShutdownStep(0, Writer));
    assert st.sess == map[0 := CLOSING_7];
  }

  const RELOGGED := Session(LOGGED_IN, 8, false, true, Ended, ShuttingDown(CloseFd), Some(Writer), 2)

  lemma ReloggedSession(rules: Rules) returns (ls: seq<Label>, st: System)
    requires !rules.loyal && !rules.serial
    ensures Run(rules, Init(), ls) == Some(st)
    ensures st == System(map[0 := RELOGGED], map[7 := 0, 8 := 0], [0], 1, Waiting, {7, 8})
  {
    ls, st := ClosingSession(rules);
    ls, st := LogIn(rules, ls, st, 0, 8);
    ls, st := Then(rules, ls, st, LeaveLoop(0, Reader));
    ls, st := Then(rules, ls, st, ShutdownStep(0, Reader));
    assert st.sess == map[0 := RELOGGED] && st.sessions == map[7 := 0, 8 := 0];
  }

  const GONE := Session(LOGGED_IN, 8, false, false, Ended, Ended, Some(Writer), 2)

  /** The rest of the shutdown: the entry that goes is that of the last user. */
  lemma FinishShutdown(rules: Rules, ls: seq<Label>, st: System) returns (more: seq<Label>, next: System)
    requires Run(rules, Init(), ls) == Some(st)
    requires st == System(map[0 := RELOGGED], map[7 := 0, 8 := 0], [0], 1, Waiting, {7, 8})
    ensures Run(rules, Init(), more) == Some(next)
    ensures next.sess == map[0 := GONE] && next.sessions == map[7 := 0]
  {
    hide Run;
    more, next := Then(rules, ls, st, ShutdownStep(0, Writer));
    more, next := Then(rules, more, next, ShutdownStep(0, Writer));
    more, next := Then(rules, more, next, ShutdownStep(0, Writer));
    assert next.sessions == map[7 := 0];
    more, next := Then(rules, more, next, ShutdownStep(0, Writer));
    more, next := Then(rules, more, next, ShutdownStep(0, Writer));
    assert next.sess == map[0 := GONE];
  }

  /**
   The writer has begun the shutdown of a session of user 7 when its reader logs in as user 8: the
   guard looks for LOGGED_IN only, and the state is CLOSING. The shutdown then unregisters user 8,
   and the finished session stays registered as user 7.
   */
  lemma StaleEntry() returns (ls: seq<Label>, st: System)
    ensures Run(Rules(false, false), Init(), ls) == Some(st)
    ensures st.sess == map[0 := GONE] && Finished(st.sess[0])
    ensures st.sessions == map[7 := 0] && st.sess[st.sessions[7]].userId != 7
  {
    hide Run;
    ls, st := ReloggedSession(Rules(false, false));
    ls, st := FinishShutdown(Rules(false, false), ls, st);
  }
}
