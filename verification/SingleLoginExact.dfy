/** When single login holds: a login that kicks during another login of the same user breaks it, and nothing else does. */
module SingleLoginExact {
  import opened Registry
  import opened Wrappers
  import opened Lifecycle
  import opened SingleLogin
  import LifecycleSafety

  /** What a completed login makes of a session: its own, the one it has kicked, or another. */
  function Afterwards(st: System, t: Sid, s: Sid): Session
    requires s in st.sess && t in st.sess && PastKick(st.sess[t].reader)
  {
    var x := if AboutToClose(st.sess[t].reader, s) then st.sess[s].(open := false) else st.sess[s];
    if s != t then x
    else
      var early := x.reader.login.CloseOld? || x.reader.login.SetUser?;
      x.(userId := x.reader.login.uid, reader := Looping,
         state := if early then LOGGED_IN else x.state, logins := if early then x.logins + 1 else x.logins)
  }

  /** The state after the login of t, if nothing else happens. */
  ghost predicate LoginDone(st: System, t: Sid, end: System)
    requires t in st.sess && PastKick(st.sess[t].reader)
  {
    && end.sess.Keys == st.sess.Keys && end.sessions == st.sessions[st.sess[t].reader.login.uid := t]
    && forall s :: s in st.sess ==> end.sess[s] == Afterwards(st, t, s)
  }

  lemma LoggingInIsListed(st: System, t: Sid)
    requires Invariant(st) && t in st.sess && st.sess[t].reader.LoggingIn?
    ensures t in st.all
  {
  }

  lemma RegisterEnds(rules: Rules, st: System, t: Sid)
    requires t in st.sess && PastKick(st.sess[t].reader) && LifecycleSafety.IdentityOk(st.sess[t])
    requires st.sess[t].reader.login.Register?
    ensures Next(rules, st, LoginStep(t)).Some? && LoginDone(st, t, Next(rules, st, LoginStep(t)).value)
  {
  }

  /** `next` is one step nearer to the same end. */
  ghost predicate Nearer(st: System, next: System, t: Sid)
    requires t in st.sess && PastKick(st.sess[t].reader)
  {
    && next.sess.Keys == st.sess.Keys && next.sessions == st.sessions
    && PastKick(next.sess[t].reader) && LifecycleSafety.IdentityOk(next.sess[t])
    && SameWindow(st.sess[t].reader, next.sess[t].reader)
    && Remaining(next.sess[t].reader) < Remaining(st.sess[t].reader)
    && forall s :: s in st.sess ==> Afterwards(next, t, s) == Afterwards(st, t, s)
  }

  lemma CloseOldIsNearer(rules: Rules, st: System, t: Sid)
    requires t in st.sess && st.sess[t].reader.LoggingIn? && st.sess[t].reader.login.CloseOld?
    ensures NextLogin(rules, st, t).Some? && Nearer(st, NextLogin(rules, st, t).value, t)
  {
    var prior := st.sess[t].reader.login.prior;
    var closed := Closed(st, prior);
    assert closed.sess.Keys == st.sess.Keys;
    var next := NextLogin(rules, st, t).value;
    forall s | s in st.sess ensures Afterwards(next, t, s) == Afterwards(st, t, s) {
    }
  }

  lemma LaterIsNearer(rules: Rules, st: System, t: Sid)
    requires !rules.loyal && t in st.sess && st.sess[t].reader.LoggingIn? && LifecycleSafety.IdentityOk(st.sess[t])
    requires st.sess[t].reader.login.SetUser? || (st.sess[t].reader.login.GetSelf? && t in st.all)
    ensures NextLogin(rules, st, t).Some? && Nearer(st, NextLogin(rules, st, t).value, t)
  {
    var next := NextLogin(rules, st, t).value;
    assert next.sess.Keys == st.sess.Keys;
    forall s | s in st.sess ensures Afterwards(next, t, s) == Afterwards(st, t, s) {
    }
  }

  lemma NearerSameEnd(st: System, next: System, t: Sid, end: System)
    requires t in st.sess && PastKick(st.sess[t].reader) && Nearer(st, next, t)
    requires LoginDone(next, t, end)
    ensures LoginDone(st, t, end)
  {
    hide Afterwards;
  }

  lemma StepTowards(rules: Rules, st: System, t: Sid)
    requires !rules.loyal && Invariant(st) && t in st.sess && PastKick(st.sess[t].reader) && LifecycleSafety.IdentityOk(st.sess[t])
    requires !st.sess[t].reader.login.Register?
    ensures Next(rules, st, LoginStep(t)).Some? && Nearer(st, Next(rules, st, LoginStep(t)).value, t)
  {
    LoggingInIsListed(st, t);
    hide Invariant;
    hide Nearer;
    hide NextLogin;
    if st.sess[t].reader.login.CloseOld? {
      CloseOldIsNearer(rules, st, t);
    } else {
      LaterIsNearer(rules, st, t);
    }
  }

  function Remaining(pc: Pc): nat
    requires PastKick(pc)
  {
    match pc.login
    case CloseOld(_, _) => 3
    case SetUser(_) => 2
    case GetSelf(_) => 1
    case Register(_) => 0
  }

  /** A login that has kicked can always be completed. */
  lemma FinishLogin(rules: Rules, st: System, t: Sid) returns (ls: seq<Label>, end: System)
    requires !rules.loyal && Invariant(st) && t in st.sess && PastKick(st.sess[t].reader) && LifecycleSafety.IdentityOk(st.sess[t])
    ensures Run(rules, st, ls) == Some(end) && Invariant(end) && LoginDone(st, t, end)
    decreases Remaining(st.sess[t].reader)
  {
    hide Invariant;
    hide Next;
    hide LoginDone;
    hide LifecycleSafety.IdentityOk;
    var l := LoginStep(t);
    if st.sess[t].reader.login.Register? {
      RegisterEnds(rules, st, t);
      NextKeeps(rules, st, l);
      ls, end := [l], Next(rules, st, l).value;
      assert Run(rules, end, ls[1..]) == Some(end);
    } else {
      StepTowards(rules, st, t);
      NextKeeps(rules, st, l);
      var next := Next(rules, st, l).value;
      var more;
      more, end := FinishLogin(rules, next, t);
      NearerSameEnd(st, next, t, end);
      ls := [l] + more;
      assert ls[1..] == more;
    }
  }

  ghost predicate NobodyCloses(st: System, v: Sid) {
    forall s :: s in st.sess ==> !AboutToClose(st.sess[s].reader, v)
  }

  /** The victim is live, logged in and not registered: the session that finished last has the entry. */
  lemma Overtaken(st: System, v: Sid, w: Sid, mid: System, end: System)
    requires v in st.sess && w in st.sess && v != w && SameWindow(st.sess[v].reader, st.sess[w].reader)
    requires Able(st.sess[v]) && SoundLogin(st.sess[v]) && NobodyCloses(st, v)
    requires LoginDone(st, v, mid) && PastKick(mid.sess[w].reader) && LoginDone(mid, w, end)
    ensures !OneLivePerUser(end)
  {
    var u := st.sess[v].reader.login.uid;
    assert mid.sess[v] == Afterwards(st, v, v) && mid.sess[w] == Afterwards(st, v, w);
    assert end.sess[v] == Afterwards(mid, w, v) && end.sess[w] == Afterwards(mid, w, w);
    assert Live(end.sess[v]) && end.sess[v].userId == u && end.sess[v].reader.Looping?;
    assert end.sessions[u] == w;
    forall s | s in end.sess ensures !AboutToClose(end.sess[s].reader, v) {
      assert mid.sess[s] == Afterwards(st, v, s) && end.sess[s] == Afterwards(mid, w, s);
    }
    assert !Accounted(end, v);
  }

  lemma OvertakingRun(rules: Rules, st: System, v: Sid, w: Sid) returns (ls: seq<Label>, end: System)
    requires !rules.loyal && Invariant(st)
    requires v in st.sess && w in st.sess && v != w && SameWindow(st.sess[v].reader, st.sess[w].reader)
    requires Able(st.sess[v]) && SoundLogin(st.sess[v]) && SoundLogin(st.sess[w]) && NobodyCloses(st, v)
    ensures Run(rules, st, ls) == Some(end) && !OneLivePerUser(end)
  {
    hide Invariant;
    hide OneLivePerUser;
    hide Able;
    hide RunningOk;
    hide NobodyCloses;
    var first, mid := FinishLogin(rules, st, v);
    assert mid.sess[w] == Afterwards(st, v, w);
    var second;
    second, end := FinishLogin(rules, mid, w);
    hide LoginDone;
    hide SameWindow;
    Overtaken(st, v, w, mid, end);
    RunThenRun(rules, st, first, second);
    ls := first + second;
  }

  /** Neither of two overlapping sessions that is able has been registered before, nor kicked. */
  lemma NobodyClosesEither(st: System, t: Sid, s: Sid)
    requires Invariant(st) && Single(st) && AtKick(st, t) && s in st.sess && s != t
    requires InWindow(st.sess[s].reader, st.sess[t].reader.login.uid)
    ensures Able(st.sess[t]) ==> NobodyCloses(Kicked(st, t), t)
    ensures Able(st.sess[s]) ==> NobodyCloses(Kicked(st, t), s)
  {
    SessionIsOk(st, t);
    SessionIsOk(st, s);
    hide Invariant;
    hide OneLivePerUser;
    var u := st.sess[t].reader.login.uid;
    assert VacantFor(st, u);
    assert Able(st.sess[t]) ==> !Established(st.sess[t]);
    assert Able(st.sess[s]) ==> !Established(st.sess[s]);
    hide SessionOk;
    hide Established;
    hide Able;
    hide Vacant;
    hide Apart;
    hide SoundLogins;
    var next := Kicked(st, t);
    forall x | x in next.sess
      ensures Able(st.sess[t]) ==> !AboutToClose(next.sess[x].reader, t)
      ensures Able(st.sess[s]) ==> !AboutToClose(next.sess[x].reader, s)
    {
      assert PriorOk(st, st.sess[x].reader);
    }
  }

  /** After a kick during another login, single login fails in some continuation, without any further kick. */
  lemma OverlapBreaks(st: System, t: Sid, s: Sid) returns (ls: seq<Label>, end: System)
    requires Invariant(st) && Single(st) && AtKick(st, t) && s in st.sess && s != t
    requires InWindow(st.sess[s].reader, st.sess[t].reader.login.uid) && (Able(st.sess[s]) || Able(st.sess[t]))
    ensures Run(Rules(false, true), Kicked(st, t), ls) == Some(end) && !OneLivePerUser(end)
  {
    var rules := Rules(false, true);
    var next := Kicked(st, t);
    assert Next(Rules(false, false), st, LoginStep(t)) == Some(next);
    NextKeeps(Rules(false, false), st, LoginStep(t));
    NobodyClosesEither(st, t, s);
    KickKeepsEntries(st, t);
    assert SoundLogin(next.sess[t]) && SoundLogin(next.sess[s]);
    assert SameWindow(next.sess[t].reader, next.sess[s].reader);
    assert Able(next.sess[t]) == Able(st.sess[t]) && next.sess[s] == st.sess[s];
    hide Invariant;
    hide Single;
    hide OneLivePerUser;
    hide Next;
    hide Kicked;
    hide Able;
    hide SoundLogin;
    hide SoundLogins;
    hide EntriesOk;
    hide Vacant;
    hide NobodyCloses;
    if Able(st.sess[t]) {
      ls, end := OvertakingRun(rules, next, t, s);
    } else {
      ls, end := OvertakingRun(rules, next, s, t);
    }
  }

  ghost predicate AlwaysOneLive(rules: Rules, st: System) {
    forall more :: Run(rules, st, more).Some? ==> OneLivePerUser(Run(rules, st, more).value)
  }

  /**
   Single login, exactly: wherever a run without harmful overlaps has led, the next kick keeps
   single login for ever, as long as later kicks do not overlap, if and only if it does not itself
   overlap with another login of the same user one of whose two sessions can be live.
   */
  lemma SingleLoginExactly(ls: seq<Label>, t: Sid)
    requires Run(Rules(false, true), Init(), ls).Some? && AtKick(Run(Rules(false, true), Init(), ls).value, t)
    ensures var st := Run(Rules(false, true), Init(), ls).value;
            && Next(Rules(false, false), st, LoginStep(t)) == Some(Kicked(st, t))
            && (AlwaysOneLive(Rules(false, true), Kicked(st, t)) <==> NoOverlap(st, t, st.sess[t].reader.login.uid))
  {
    var rules := Rules(false, true);
    var st := Run(rules, Init(), ls).value;
    LifecycleSafety.InitIsOk();
    InitIsSingle();
    RunKeeps(rules, Init(), ls);
    RunKeepsSingle(rules, Init(), ls);
    hide Run;
    var next := Kicked(st, t);
    assert Next(Rules(false, false), st, LoginStep(t)) == Some(next);
    NextKeeps(Rules(false, false), st, LoginStep(t));
    hide Invariant;
    hide Next;
    hide OneLivePerUser;
    hide Orderly;
    if NoOverlap(st, t, st.sess[t].reader.login.uid) {
      KickExactly(st, t);
      forall more | Run(rules, next, more).Some? ensures OneLivePerUser(Run(rules, next, more).value) {
        RunKeepsSingle(rules, next, more);
      }
    } else {
      var s :| s in st.sess && s != t && InWindow(st.sess[s].reader, st.sess[t].reader.login.uid)
               && (Able(st.sess[s]) || Able(st.sess[t]));
      var more, end := OverlapBreaks(st, t, s);
      assert Run(rules, next, more).Some?;
    }
  }
}
