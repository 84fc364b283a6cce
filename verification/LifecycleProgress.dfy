/**
 What the steps of the life of a session lead to: connections are served up to the limit, a login
 ends with the session registered, and a shutdown that has begun can be finished, whichever of the
 two threads began it.
 */
module LifecycleProgress {
  import opened Wrappers
  import opened Registry
  import opened Lifecycle
  import opened SingleLogin
  import opened SingleLoginExact
  import LifecycleSafety

  lemma RunStep(rules: Rules, st: System, ls: seq<Label>, mid: System, l: Label, next: System) returns (more: seq<Label>)
    requires Run(rules, st, ls) == Some(mid) && Next(rules, mid, l) == Some(next)
    ensures more == ls + [l] && Run(rules, st, more) == Some(next)
  {
    hide Next;
    RunThenRun(rules, st, ls, [l]);
    assert [l][1..] == [] && Run(rules, next, []) == Some(next);
    more := ls + [l];
  }

  // ----- accepting

  /** A session of which both threads run. */
  const SERVED := Session(CONNECTED, 0, true, true, Looping, Looping, None, 0)

  /** At the limit a connection is turned away, and below it is served: listed, counted, with both threads. */
  lemma ConnectionServed(rules: Rules, st: System, s: Sid)
    requires st.acceptor.Waiting? && s !in st.sess
    ensures st.count >= 256 ==> Next(rules, st, Check) == Some(st)
    ensures st.count < 256 ==>
              Run(rules, st, [Check, Add(s), Count, Launch])
              == Some(st.(sess := st.sess[s := SERVED], all := st.all + [s], count := st.count + 1))
  {
    if st.count < 256 {
      var one := st.(acceptor := Admitted);
      var two := Put(st, s, Newborn()).(all := st.all + [s], acceptor := Added(s));
      var three := two.(count := st.count + 1, acceptor := Counted(s));
      var four := st.(sess := st.sess[s := SERVED], all := st.all + [s], count := st.count + 1);
      assert Next(rules, st, Check) == Some(one) && Next(rules, one, Add(s)) == Some(two);
      assert Next(rules, two, Count) == Some(three);
      assert three.sess[s := SERVED] == four.sess;
      assert Next(rules, three, Launch) == Some(four);
      hide Next;
      var ls := RunStep(rules, st, [], st, Check, one);
      ls := RunStep(rules, st, ls, one, Add(s), two);
      ls := RunStep(rules, st, ls, two, Count, three);
      ls := RunStep(rules, st, ls, three, Launch, four);
      assert ls == [Check, Add(s), Count, Launch];
    }
  }

  // ----- logging in

  /** A login is under way exactly for a user, and for a session that is not LOGGED_IN and has nothing else to do. */
  lemma AuthenticateExactly(rules: Rules, st: System, s: Sid, u: Uid)
    ensures Next(rules, st, Authenticate(s, u)).Some?
            <==> s in st.sess && st.sess[s].reader.Looping? && !st.sess[s].state.LOGGED_IN? && u in st.users
    ensures Next(rules, st, Authenticate(s, u)).Some? ==>
              Next(rules, st, Authenticate(s, u)).value == Put(st, s, st.sess[s].(reader := LoggingIn(Kick(u))))
  {
  }

  /** The session that has the entry of the user is kicked. */
  predicate IsKicked(st: System, u: Uid, t: Sid) {
    u in st.sessions && st.sessions[u] == t
  }

  /** The state once the credentials were found good. */
  function Begun(st: System, s: Sid, u: Uid): System
    requires s in st.sess
  {
    Put(st, s, st.sess[s].(reader := LoggingIn(Kick(u))))
  }

  lemma LoginRuns(st: System, s: Sid, u: Uid) returns (ls: seq<Label>, end: System)
    requires Invariant(st) && s in st.sess && st.sess[s].reader.Looping? && !st.sess[s].state.LOGGED_IN? && u in st.users
    ensures Run(Rules(false, false), st, ls) == Some(end) && LoginDone(Kicked(Begun(st, s, u), s), s, end)
  {
    var rules := Rules(false, false);
    var begun, kicked := Begun(st, s, u), Kicked(Begun(st, s, u), s);
    AuthenticateExactly(rules, st, s, u);
    NextKeeps(rules, st, Authenticate(s, u));
    hide Invariant;
    assert Next(rules, begun, LoginStep(s)) == Some(kicked);
    NextKeeps(rules, begun, LoginStep(s));
    hide Next;
    hide LoginDone;
    hide Run;
    var rest;
    rest, end := FinishLogin(rules, kicked, s);
    ls := RunStep(rules, st, [], st, Authenticate(s, u), begun);
    ls := RunStep(rules, st, ls, begun, LoginStep(s), kicked);
    RunThenRun(rules, st, ls, rest);
    ls := ls + rest;
  }

  /**
   A login that is not interrupted ends with the session LOGGED_IN as that user and registered for
   him; the session that was registered before is closed; and nothing else changes.
   */
  lemma LoginCompletes(st: System, s: Sid, u: Uid) returns (ls: seq<Label>, end: System)
    requires Invariant(st) && s in st.sess && st.sess[s].reader.Looping? && !st.sess[s].state.LOGGED_IN? && u in st.users
    ensures Run(Rules(false, false), st, ls) == Some(end) && end.sess.Keys == st.sess.Keys
    ensures end.sessions == st.sessions[u := s]
    ensures var y := end.sess[s];
            y.userId == u && y.state.LOGGED_IN? && y.reader.Looping? && y.running == st.sess[s].running
            && y.open == (st.sess[s].open && !IsKicked(st, u, s))
    ensures forall t :: t in st.sess && t != s ==>
              end.sess[t] == if IsKicked(st, u, t) then st.sess[t].(open := false) else st.sess[t]
  {
    ls, end := LoginRuns(st, s, u);
    KickedTable(st, s, u);
    forall t | t in st.sess && t != s
      ensures end.sess[t] == if IsKicked(st, u, t) then st.sess[t].(open := false) else st.sess[t]
    {
      OthersAfterwards(st, s, u, t);
    }
    OwnAfterwards(st, s, u);
    hide Run;
    hide Invariant;
    hide Kicked;
    hide Afterwards;
  }

  lemma KickedTable(st: System, s: Sid, u: Uid)
    requires s in st.sess
    ensures var kicked := Kicked(Begun(st, s, u), s);
            && kicked.sess.Keys == st.sess.Keys && kicked.sess[s].reader == LoggingIn(CloseOld(u, Registrant(st, u)))
            && kicked.sessions[u := s] == st.sessions[u := s]
  {
  }

  lemma OthersAfterwards(st: System, s: Sid, u: Uid, t: Sid)
    requires s in st.sess && t in st.sess && t != s
    ensures Afterwards(Kicked(Begun(st, s, u), s), s, t) == if IsKicked(st, u, t) then st.sess[t].(open := false) else st.sess[t]
  {
  }

  lemma OwnAfterwards(st: System, s: Sid, u: Uid)
    requires s in st.sess
    ensures var y := Afterwards(Kicked(Begun(st, s, u), s), s, s);
            y.userId == u && y.state.LOGGED_IN? && y.reader.Looping? && y.running == st.sess[s].running
            && y.open == (st.sess[s].open && !IsKicked(st, u, s))
  {
  }

  // ----- shutting down

  /** What is left of a session. */
  function Dead(x: Session, role: Role): Session {
    x.(running := false, winner := Some(role), state := CLOSING, open := false, reader := Ended, writer := Ended)
  }

  /** The state in which the winner waits for the other thread. */
  function Closing(x: Session, role: Role): Session {
    WithPc(x.(running := false, winner := Some(role), state := CLOSING, open := false), role, ShuttingDown(Join))
  }

  /** The thread that leaves its loop first wins the compare-and-swap, marks the session and closes the socket. */
  lemma BeginShutdown(rules: Rules, st: System, s: Sid, role: Role) returns (ls: seq<Label>)
    requires s in st.sess && PcOf(st.sess[s], role).Looping? && st.sess[s].running
    ensures Run(rules, st, ls) == Some(Put(st, s, Closing(st.sess[s], role)))
  {
    var x := st.sess[s];
    var one := WithPc(x, role, ShuttingDown(Swap));
    var two := WithPc(x.(running := false, winner := Some(role)), role, ShuttingDown(Mark));
    var three := WithPc(two.(state := CLOSING), role, ShuttingDown(CloseFd));
    ls := RunStep(rules, st, [], st, LeaveLoop(s, role), Put(st, s, one));
    ls := ShutdownStepTo(rules, st, ls, s, role, one, two);
    ls := ShutdownStepTo(rules, st, ls, s, role, two, three);
    ls := ShutdownStepTo(rules, st, ls, s, role, three, Closing(x, role));
  }

  lemma ShutdownStepTo(rules: Rules, st: System, ls: seq<Label>, s: Sid, role: Role, x: Session, y: Session) returns (more: seq<Label>)
    requires s in st.sess && Run(rules, st, ls) == Some(Put(st, s, x))
    requires PcOf(x, role) in {ShuttingDown(Swap), ShuttingDown(Mark), ShuttingDown(CloseFd)} && y == Advance(x, role)
    ensures Run(rules, st, more) == Some(Put(st, s, y))
  {
    hide Advance;
    var mid := Put(st, s, x);
    assert mid.sess[s := y] == st.sess[s := y];
    assert Next(rules, mid, ShutdownStep(s, role)) == Some(Put(st, s, y));
    hide Next;
    more := RunStep(rules, st, ls, mid, ShutdownStep(s, role), Put(st, s, y));
  }

  /** The other thread, once the flag is down: the writer just ends, the reader loses the compare-and-swap and ends. */
  lemma OtherEnds(rules: Rules, st: System, s: Sid, role: Role) returns (ls: seq<Label>)
    requires s in st.sess && !st.sess[s].running && PcOf(st.sess[s], role).Looping?
    ensures Run(rules, st, ls) == Some(Put(st, s, WithPc(st.sess[s], role, Ended)))
  {
    var x := st.sess[s];
    var gone := Put(st, s, WithPc(x, role, Ended));
    if role.Writer? {
      assert Next(rules, st, QuitWriter(s)) == Some(gone);
      ls := RunStep(rules, st, [], st, QuitWriter(s), gone);
    } else {
      var leaving := WithPc(x, role, ShuttingDown(Swap));
      ls := RunStep(rules, st, [], st, LeaveLoop(s, role), Put(st, s, leaving));
      ls := ShutdownStepTo(rules, st, ls, s, role, leaving, WithPc(x, role, Ended));
    }
  }

  /** With the other thread joined, the winner unregisters, removes and uncounts the session. */
  lemma EndShutdown(rules: Rules, st: System, s: Sid, role: Role) returns (ls: seq<Label>)
    requires s in st.sess && PcOf(st.sess[s], role) == ShuttingDown(Join) && PcOf(st.sess[s], Other(role)).Ended?
    ensures Run(rules, st, ls)
            == Some(Put(st, s, WithPc(st.sess[s], role, Ended)).(sessions := Unregistered(st.sessions, st.sess[s].userId, s),
                                                                 all := Without(st.all, s), count := st.count - 1))
  {
    hide Unregistered;
    hide Without;
    var x := st.sess[s];
    var l := ShutdownStep(s, role);
    var joined := Put(st, s, WithPc(x, role, ShuttingDown(Unregister)));
    var unmapped := Put(st, s, WithPc(x, role, ShuttingDown(Remove))).(sessions := Unregistered(st.sessions, x.userId, s));
    var removed := Put(st, s, WithPc(x, role, ShuttingDown(Uncount))).(sessions := unmapped.sessions, all := Without(st.all, s));
    var done := Put(st, s, WithPc(x, role, Ended)).(sessions := unmapped.sessions, all := removed.all, count := st.count - 1);
    ls := RunStep(rules, st, [], st, l, joined);
    assert joined.sess[s := unmapped.sess[s]] == unmapped.sess;
    ls := RunStep(rules, st, ls, joined, l, unmapped);
    assert unmapped.sess[s := removed.sess[s]] == removed.sess;
    ls := RunStep(rules, st, ls, unmapped, l, removed);
    assert removed.sess[s := done.sess[s]] == done.sess;
    ls := RunStep(rules, st, ls, removed, l, done);
  }

  /**
   A shutdown can be finished: whichever thread begins it, in the end both threads have ended, the
   socket is closed, the state is CLOSING, the session is off the list and uncounted, and the entry
   of its user is gone if it was this session's.
   */
  lemma ShutdownCompletes(rules: Rules, st: System, s: Sid, role: Role) returns (ls: seq<Label>)
    requires s in st.sess && st.sess[s].running && st.sess[s].reader.Looping? && st.sess[s].writer.Looping?
    ensures Run(rules, st, ls)
            == Some(Put(st, s, Dead(st.sess[s], role)).(sessions := Unregistered(st.sessions, st.sess[s].userId, s),
                                                        all := Without(st.all, s), count := st.count - 1))
    ensures Finished(Dead(st.sess[s], role))
  {
    var x := st.sess[s];
    var one := Put(st, s, Closing(x, role));
    var first := BeginShutdown(rules, st, s, role);
    var second := OtherEnds(rules, one, s, Other(role));
    var y := WithPc(Closing(x, role), Other(role), Ended);
    var two := Put(one, s, y);
    assert two.sess == st.sess[s := y];
    var third := EndShutdown(rules, two, s, role);
    assert WithPc(y, role, Ended) == Dead(x, role);
    hide Run;
    hide Unregistered;
    hide Without;
    assert two.sess[s := Dead(x, role)] == st.sess[s := Dead(x, role)];
    RunThenRun(rules, st, first, second);
    RunThenRun(rules, st, first + second, third);
    ls := first + second + third;
  }
}
