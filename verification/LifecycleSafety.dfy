/** What the transition system of `Lifecycle` guarantees in every reachable state, and under which rules. */
module LifecycleSafety {
  import opened Wrappers
  import opened Registry
  import opened Lifecycle

  // ----- whatever the rules

  /**
   The unlocked test and increment of the connection counter are safe: it is the length of the
   list corrected by one add not yet counted and the removals not yet uncounted, never negative,
   and neither exceeds the limit.
   */
  lemma ConnectionAccounting(rules: Rules, ls: seq<Label>)
    requires Run(rules, Init(), ls).Some?
    ensures var st := Run(rules, Init(), ls).value;
            && st.count == |st.all| + |UncountingSet(st)| - NotYetCounted(st.acceptor)
            && 0 <= st.count <= 256 && |st.all| <= 256
  {
    InitIsOk();
    RunKeeps(rules, Init(), ls);
    var st := Run(rules, Init(), ls).value;
    hide Run;
    if st.acceptor.Added? {
      assert st.acceptor.s in st.all;
    }
  }

  lemma InitIsOk()
    ensures Invariant(Init())
  {
    assert UncountingSet(Init()) == {};
  }

  /** Only the winner of the compare-and-swap does the work, and when both threads have ended one of them has won. */
  lemma ExactlyOneShutdown(rules: Rules, ls: seq<Label>, s: Sid)
    requires Run(rules, Init(), ls).Some? && s in Run(rules, Init(), ls).value.sess
    ensures var x := Run(rules, Init(), ls).value.sess[s];
            && (forall role :: PcOf(x, role).ShuttingDown? && !PcOf(x, role).at.Swap? ==> x.winner == Some(role))
            && (x.reader.Ended? && x.writer.Ended? ==> x.winner.Some?)
            && (x.winner.Some? <==> !x.running)
  {
    InitIsOk();
    RunKeeps(rules, Init(), ls);
    hide Run;
    SessionIsOk(Run(rules, Init(), ls).value, s);
  }

  lemma AdvanceKeepsWinner(x: Session, role: Role)
    requires SessionOk(x) && PcOf(x, role).ShuttingDown?
    requires PcOf(x, role).at.Join? ==> PcOf(x, Other(role)).Ended?
    ensures x.winner.Some? ==> Advance(x, role).winner == x.winner
    ensures !Finished(x)
  {
  }

  lemma AdvanceLoginKeepsWinner(x: Session, prior: Option<Sid>, listed: bool)
    requires SessionOk(x) && x.reader.LoggingIn?
    ensures AdvanceLogin(x, prior, listed).winner == x.winner && !Finished(x)
  {
  }

  lemma FinishedEnded(x: Session)
    requires SessionOk(x) && Finished(x)
    ensures x.reader.Ended? && x.writer.Ended?
  {
  }

  ghost predicate SameWinner(x: Session, y: Session) {
    y.winner == x.winner && (Finished(x) ==> Finished(y))
  }

  lemma LoginKeepsWinner(rules: Rules, st: System, t: Sid, s: Sid)
    requires Invariant(st) && t in st.sess && st.sess[t].reader.LoggingIn? && s in st.sess
    requires NextLogin(rules, st, t).Some?
    ensures var next := NextLogin(rules, st, t).value;
            s in next.sess && SameWinner(st.sess[s], next.sess[s])
  {
    var x := st.sess[t];
    SessionIsOk(st, t);
    hide Invariant;
    if x.reader.login.CloseOld? {
      ClosedSameWinner(st.sess[s]);
      ClosedSameWinner(x);
      ClosedOk(x);
      var closed := Closed(st, x.reader.login.prior);
      AdvanceLoginKeepsWinner(closed.sess[t], None, false);
      hide SessionOk;
      hide AdvanceLogin;
      hide Finished;
    } else {
      AdvanceLoginKeepsWinner(x, Registrant(st, x.reader.login.uid), t in st.all);
      hide SessionOk;
      hide AdvanceLogin;
      hide Finished;
    }
  }

  lemma ClosedSameWinner(x: Session)
    ensures SameWinner(x, x.(open := false))
  {
  }

  lemma OtherKeepsWinner(rules: Rules, st: System, l: Label, s: Sid)
    requires Invariant(st) && Next(rules, st, l).Some? && s in st.sess && st.sess[s].winner.Some?
    requires !l.LoginStep? && !l.ShutdownStep?
    ensures var next := Next(rules, st, l).value;
            s in next.sess && SameWinner(st.sess[s], next.sess[s])
  {
    var x := st.sess[s];
    SessionIsOk(st, s);
    hide Invariant;
    if Finished(x) {
      FinishedEnded(x);
    }
    assert x.reader.Unborn? ==> x.winner.None?;
    hide SessionOk;
  }

  /** A decided shutdown stays decided, and a finished one stays finished. */
  lemma NextKeepsWinner(rules: Rules, st: System, l: Label, s: Sid)
    requires Invariant(st) && Next(rules, st, l).Some? && s in st.sess && st.sess[s].winner.Some?
    ensures var next := Next(rules, st, l).value;
            s in next.sess && SameWinner(st.sess[s], next.sess[s])
  {
    if l.LoginStep? {
      LoginKeepsWinner(rules, st, l.s, s);
    } else if l.ShutdownStep? {
      if l.s == s {
        SessionIsOk(st, s);
        AdvanceKeepsWinner(st.sess[s], l.role);
      }
      hide Invariant;
      hide Advance;
      hide Finished;
    } else {
      OtherKeepsWinner(rules, st, l, s);
    }
  }

  lemma {:induction false} FinishedForever(rules: Rules, st: System, ls: seq<Label>, s: Sid)
    requires Invariant(st) && s in st.sess && Finished(st.sess[s])
    requires Run(rules, st, ls).Some?
    ensures var end := Run(rules, st, ls).value;
            Invariant(end) && s in end.sess && Finished(end.sess[s]) && s !in end.all
    decreases |ls|
  {
    hide Next;
    if ls == [] {
      FinishedIsUnlisted(st, s);
    } else {
      hide Invariant;
      hide Finished;
      assert st.sess[s].winner.Some? by { FinishedHasWinner(st.sess[s]); }
      NextKeeps(rules, st, ls[0]);
      NextKeepsWinner(rules, st, ls[0], s);
      FinishedForever(rules, Next(rules, st, ls[0]).value, ls[1..], s);
    }
  }

  lemma FinishedHasWinner(x: Session)
    requires Finished(x)
    ensures x.winner.Some? && Unmapped(x) && Unlisted(x)
  {
  }

  lemma FinishedIsUnlisted(st: System, s: Sid)
    requires Invariant(st) && s in st.sess && Finished(st.sess[s])
    ensures s !in st.all
  {
    FinishedHasWinner(st.sess[s]);
  }

  // ----- loyal logins: the user registry and the sessions agree

  /** Between `setLoggedIn` and `registerSession` the session already has its new user. */
  predicate IdentityOk(x: Session) {
    x.reader.LoggingIn? && (x.reader.login.GetSelf? || x.reader.login.Register?) ==> x.userId == x.reader.login.uid
  }

  /** Every entry is a session of that user which has not been unregistered by its shutdown. */
  ghost predicate Coherent(st: System) {
    && (forall s :: s in st.sess ==> IdentityOk(st.sess[s]))
    && (forall u :: u in st.sessions ==>
          && st.sessions[u] in st.sess
          && st.sess[st.sessions[u]].userId == u
          && !Unmapped(st.sess[st.sessions[u]]))
  }

  lemma PutKeepsCoherence(st: System, s: Sid, y: Session)
    requires Coherent(st) && s in st.sess && IdentityOk(y)
    requires y.userId == st.sess[s].userId && Unmapped(y) == Unmapped(st.sess[s])
    ensures Coherent(Put(st, s, y))
  {
    hide Unmapped;
    hide IdentityOk;
  }

  lemma AdvanceIdentity(x: Session, role: Role)
    requires SessionOk(x) && PcOf(x, role).ShuttingDown?
    ensures var y := Advance(x, role);
            && (IdentityOk(x) ==> IdentityOk(y)) && y.userId == x.userId
            && (Unmapped(y) <==> Unmapped(x) || PcOf(x, role).at.Unregister?)
  {
  }

  /** A session that is still logging in has not been unregistered: its shutdown waits for this thread. */
  lemma LoginIsMapped(x: Session)
    requires SessionOk(x) && x.reader.LoggingIn?
    ensures !Unmapped(x)
  {
  }

  lemma ShutdownKeepsCoherence(st: System, s: Sid, role: Role)
    requires Invariant(st) && Coherent(st) && s in st.sess && PcOf(st.sess[s], role).ShuttingDown?
    requires NextShutdown(st, s, role).Some?
    ensures Coherent(NextShutdown(st, s, role).value)
  {
    var x := st.sess[s];
    SessionIsOk(st, s);
    AdvanceIdentity(x, role);
    hide Advance;
    hide SessionOk;
    hide Unmapped;
    hide Invariant;
    hide IdentityOk;
    if !PcOf(x, role).at.Unregister? {
      PutKeepsCoherence(st, s, Advance(x, role));
    }
  }

  /** After `setLoggedIn` the registry is coherent exactly if the session was registered under no other user. */
  lemma SetUserCoherence(st: System, s: Sid, serial: bool)
    requires Invariant(st) && Coherent(st) && s in st.sess
    requires st.sess[s].reader.LoggingIn? && st.sess[s].reader.login.SetUser?
    ensures Coherent(NextLogin(Rules(false, serial), st, s).value)
            <==> RegisteredOnlyAs(st, s, st.sess[s].reader.login.uid)
  {
    SessionIsOk(st, s);
    LoginIsMapped(st.sess[s]);
    var next := NextLogin(Rules(false, serial), st, s).value;
    AdvanceLoginOk(st.sess[s], Registrant(st, st.sess[s].reader.login.uid), s in st.all);
    LoginIsMapped(next.sess[s]);
    hide Unmapped;
    hide Invariant;
    hide SessionOk;
  }

  lemma ClosedKeepsCoherence(st: System, s: Option<Sid>)
    requires Coherent(st)
    ensures Coherent(Closed(st, s))
  {
    if s.Some? && s.value in st.sess {
      var x := st.sess[s.value];
      assert Unmapped(x.(open := false)) == Unmapped(x) && IdentityOk(x);
      PutKeepsCoherence(st, s.value, x.(open := false));
    }
  }

  lemma AdvanceLoginIdentity(x: Session, prior: Option<Sid>, listed: bool)
    requires SessionOk(x) && IdentityOk(x) && x.reader.LoggingIn? && !x.reader.login.SetUser?
    ensures var y := AdvanceLogin(x, prior, listed);
            IdentityOk(y) && y.userId == x.userId && Unmapped(y) == Unmapped(x)
  {
  }

  lemma CloseOldKeepsCoherence(rules: Rules, st: System, s: Sid)
    requires Invariant(st) && Coherent(st) && s in st.sess
    requires st.sess[s].reader.LoggingIn? && st.sess[s].reader.login.CloseOld?
    ensures Coherent(NextLogin(rules, st, s).value)
  {
    var prior := st.sess[s].reader.login.prior;
    SessionIsOk(st, s);
    ClosedOk(st.sess[s]);
    ClosedKeepsCoherence(st, prior);
    var closed := Closed(st, prior);
    AdvanceLoginIdentity(closed.sess[s], None, false);
    PutKeepsCoherence(closed, s, AdvanceLogin(closed.sess[s], None, false));
  }

  lemma LoginKeepsCoherence(rules: Rules, st: System, s: Sid)
    requires rules.loyal && Invariant(st) && Coherent(st) && s in st.sess && st.sess[s].reader.LoggingIn?
    requires NextLogin(rules, st, s).Some?
    ensures Coherent(NextLogin(rules, st, s).value)
  {
    var x := st.sess[s];
    if x.reader.login.SetUser? {
      SetUserCoherence(st, s, rules.serial);
    } else if x.reader.login.CloseOld? {
      CloseOldKeepsCoherence(rules, st, s);
    } else {
      SessionIsOk(st, s);
      LoginIsMapped(x);
      var y := AdvanceLogin(x, Registrant(st, x.reader.login.uid), s in st.all);
      assert IdentityOk(x);
      AdvanceLoginIdentity(x, Registrant(st, x.reader.login.uid), s in st.all);
      PutKeepsCoherence(st, s, y);
      hide Unmapped;
      hide Invariant;
      hide SessionOk;
    }
  }

  lemma NextKeepsCoherence(rules: Rules, st: System, l: Label)
    requires rules.loyal && Invariant(st) && Coherent(st) && Next(rules, st, l).Some?
    ensures Coherent(Next(rules, st, l).value)
  {
    if l.LoginStep? {
      LoginKeepsCoherence(rules, st, l.s);
    } else if l.ShutdownStep? {
      ShutdownKeepsCoherence(st, l.s, l.role);
    } else if l.Add? || l.Launch? {
      AcceptKeepsCoherence(st, l);
    } else if l.Authenticate? || l.LeaveLoop? || l.QuitWriter? {
      LoopKeepsCoherence(rules, st, l);
    }
  }

  lemma LoopKeepsCoherence(rules: Rules, st: System, l: Label)
    requires l.Authenticate? || l.LeaveLoop? || l.QuitWriter?
    requires Invariant(st) && Coherent(st) && Next(rules, st, l).Some?
    ensures Coherent(Next(rules, st, l).value)
  {
    var x, y := st.sess[l.s], Next(rules, st, l).value.sess[l.s];
    SessionIsOk(st, l.s);
    assert IdentityOk(x);
    assert IdentityOk(y) && Unmapped(y) == Unmapped(x);
    PutKeepsCoherence(st, l.s, y);
  }

  lemma AcceptKeepsCoherence(st: System, l: Label)
    requires l.Add? || l.Launch?
    requires Invariant(st) && Coherent(st) && NextAccept(st, l).Some?
    ensures Coherent(NextAccept(st, l).value)
  {
    if l.Launch? {
      var s := st.acceptor.s;
      SessionIsOk(st, s);
      if s in st.all {
        PutKeepsCoherence(st, s, st.sess[s].(reader := Looping, writer := Looping));
      }
    } else {
      assert IdentityOk(Newborn());
    }
  }

  lemma {:induction false} RunKeepsCoherence(rules: Rules, st: System, ls: seq<Label>)
    requires rules.loyal && Invariant(st) && Coherent(st) && Run(rules, st, ls).Some?
    ensures Coherent(Run(rules, st, ls).value) && Invariant(Run(rules, st, ls).value)
    decreases |ls|
  {
    if ls != [] {
      hide Next;
      hide Invariant;
      hide Coherent;
      NextKeeps(rules, st, ls[0]);
      NextKeepsCoherence(rules, st, ls[0]);
      RunKeepsCoherence(rules, Next(rules, st, ls[0]).value, ls[1..]);
    }
  }

  /** Loyal runs keep the registry coherent: every entry is a session of that user, and a known user's. */
  lemma RegistryCoherence(rules: Rules, ls: seq<Label>)
    requires rules.loyal && Run(rules, Init(), ls).Some?
    ensures var st := Run(rules, Init(), ls).value;
            && Invariant(st) && Coherent(st)
            && (forall u :: u in st.sessions ==> st.sessions[u] in st.sess && st.sess[st.sessions[u]].userId == u && u in st.users)
  {
    InitIsOk();
    RunKeepsCoherence(rules, Init(), ls);
    hide Run;
    KeysAreKnown(Run(rules, Init(), ls).value);
  }

  ghost predicate RegisteredNowhere(st: System, s: Sid) {
    forall u :: u in st.sessions ==> st.sessions[u] != s
  }

  /**
   An entry leaves the registry or changes hands only through a login of that user, or through the
   shutdown of the very session it names: a late `unregisterSession` never evicts a newer login.
   */
  lemma NoForeignEviction(rules: Rules, st: System, l: Label, u: Uid)
    requires Next(rules, st, l).Some? && u in st.sessions
    ensures var next := Next(rules, st, l).value;
            || (u in next.sessions && next.sessions[u] == st.sessions[u])
            || (l.LoginStep? && st.sess[l.s].reader.login.uid == u
                && (st.sess[l.s].reader.login.Kick? || st.sess[l.s].reader.login.Register?))
            || (l.ShutdownStep? && l.s == st.sessions[u] && st.sess[l.s].userId == u
                && PcOf(st.sess[l.s], l.role) == ShuttingDown(Unregister))
  {
    hide Advance;
    hide AdvanceLogin;
  }

  // ----- one login per session is enough for loyalty

  predicate FreshOk(x: Session) {
    x.logins == 0 ==> !(x.reader.LoggingIn? && (x.reader.login.GetSelf? || x.reader.login.Register?))
  }

  /** A session that never logged in is registered nowhere, nor about to be. */
  ghost predicate FreshUnregistered(st: System) {
    && (forall s :: s in st.sess ==> FreshOk(st.sess[s]))
    && (forall u :: u in st.sessions ==> st.sessions[u] in st.sess && st.sess[st.sessions[u]].logins > 0)
  }

  ghost predicate LoginsAtMostOnce(st: System) {
    forall s :: s in st.sess ==> st.sess[s].logins <= 1
  }

  lemma PutKeepsFresh(st: System, s: Sid, y: Session)
    requires FreshUnregistered(st) && s in st.sess && FreshOk(y) && y.logins >= st.sess[s].logins
    ensures FreshUnregistered(Put(st, s, y))
    ensures LoginsAtMostOnce(Put(st, s, y)) ==> LoginsAtMostOnce(st)
  {
    hide FreshOk;
    if LoginsAtMostOnce(Put(st, s, y)) {
      forall t | t in st.sess ensures st.sess[t].logins <= 1 {
        assert Put(st, s, y).sess[t].logins <= 1;
      }
    }
  }

  lemma LoginKeepsFresh(rules: Rules, st: System, s: Sid)
    requires FreshUnregistered(st) && s in st.sess && st.sess[s].reader.LoggingIn?
    requires NextLogin(rules, st, s).Some?
    ensures FreshUnregistered(NextLogin(rules, st, s).value)
    ensures LoginsAtMostOnce(NextLogin(rules, st, s).value) ==> LoginsAtMostOnce(st)
  {
    var x := st.sess[s];
    assert FreshOk(x);
    if x.reader.login.CloseOld? {
      var prior := x.reader.login.prior;
      var closed := Closed(st, prior);
      if prior.Some? && prior.value in st.sess {
        assert FreshOk(st.sess[prior.value]);
        PutKeepsFresh(st, prior.value, st.sess[prior.value].(open := false));
      }
      PutKeepsFresh(closed, s, AdvanceLogin(closed.sess[s], None, false));
    } else {
      var y := AdvanceLogin(x, Registrant(st, x.reader.login.uid), s in st.all);
      PutKeepsFresh(st, s, y);
      assert LoginsAtMostOnce(NextLogin(rules, st, s).value) <==> LoginsAtMostOnce(Put(st, s, y));
    }
  }

  lemma AdvanceIsFresh(x: Session, role: Role)
    requires FreshOk(x) && PcOf(x, role).ShuttingDown?
    ensures FreshOk(Advance(x, role)) && Advance(x, role).logins == x.logins
  {
  }

  lemma ShutdownKeepsFresh(st: System, s: Sid, role: Role)
    requires FreshUnregistered(st) && s in st.sess && PcOf(st.sess[s], role).ShuttingDown?
    requires NextShutdown(st, s, role).Some?
    ensures FreshUnregistered(NextShutdown(st, s, role).value)
    ensures LoginsAtMostOnce(NextShutdown(st, s, role).value) ==> LoginsAtMostOnce(st)
  {
    var y := Advance(st.sess[s], role);
    AdvanceIsFresh(st.sess[s], role);
    PutKeepsFresh(st, s, y);
    hide Advance;
    hide FreshOk;
    assert LoginsAtMostOnce(NextShutdown(st, s, role).value) <==> LoginsAtMostOnce(Put(st, s, y));
  }

  lemma NextKeepsFresh(rules: Rules, st: System, l: Label)
    requires Invariant(st) && FreshUnregistered(st) && Next(rules, st, l).Some?
    ensures FreshUnregistered(Next(rules, st, l).value)
    ensures LoginsAtMostOnce(Next(rules, st, l).value) ==> LoginsAtMostOnce(st)
  {
    hide Invariant;
    var next := Next(rules, st, l).value;
    if l.LoginStep? {
      hide FreshUnregistered;
      hide LoginsAtMostOnce;
      LoginKeepsFresh(rules, st, l.s);
    } else if l.ShutdownStep? {
      hide FreshUnregistered;
      hide LoginsAtMostOnce;
      ShutdownKeepsFresh(st, l.s, l.role);
    } else if l.Authenticate? || l.LeaveLoop? || l.QuitWriter? {
      assert FreshOk(st.sess[l.s]);
      PutKeepsFresh(st, l.s, next.sess[l.s]);
    } else if l.Launch? && st.acceptor.s in st.all {
      var s := st.acceptor.s;
      PutKeepsFresh(st, s, st.sess[s].(reader := Looping, writer := Looping));
    } else if l.Add? {
      assert forall t :: t in st.sess ==> next.sess[t] == st.sess[t];
    }
  }

  lemma OnceIsLoyalStep(serial: bool, st: System, l: Label)
    requires Invariant(st) && FreshUnregistered(st) && Next(Rules(false, serial), st, l).Some?
    requires LoginsAtMostOnce(Next(Rules(false, serial), st, l).value)
    ensures Next(Rules(true, serial), st, l) == Next(Rules(false, serial), st, l)
  {
    hide Invariant;
    if l.LoginStep? && st.sess[l.s].reader.login.SetUser? {
      assert Next(Rules(false, serial), st, l).value.sess[l.s].logins == st.sess[l.s].logins + 1;
    }
  }

  /** A run in which every session logs in at most once is a loyal run. */
  lemma {:induction false} OnceIsLoyal(serial: bool, st: System, ls: seq<Label>)
    requires Invariant(st) && FreshUnregistered(st)
    requires Run(Rules(false, serial), st, ls).Some? && LoginsAtMostOnce(Run(Rules(false, serial), st, ls).value)
    ensures Run(Rules(true, serial), st, ls) == Run(Rules(false, serial), st, ls)
    ensures LoginsAtMostOnce(st)
    decreases |ls|
  {
    if ls != [] {
      hide Next;
      hide Invariant;
      hide FreshUnregistered;
      hide LoginsAtMostOnce;
      var rules := Rules(false, serial);
      var next := Next(rules, st, ls[0]).value;
      NextKeeps(rules, st, ls[0]);
      NextKeepsFresh(rules, st, ls[0]);
      OnceIsLoyal(serial, next, ls[1..]);
      OnceIsLoyalStep(serial, st, ls[0]);
    }
  }

  lemma {:induction false} RunKeepsFresh(rules: Rules, st: System, ls: seq<Label>)
    requires Invariant(st) && FreshUnregistered(st) && Run(rules, st, ls).Some?
    ensures FreshUnregistered(Run(rules, st, ls).value) && Invariant(Run(rules, st, ls).value)
    decreases |ls|
  {
    hide Next;
    hide Invariant;
    hide FreshUnregistered;
    hide LoginsAtMostOnce;
    if ls != [] {
      NextKeeps(rules, st, ls[0]);
      NextKeepsFresh(rules, st, ls[0]);
      RunKeepsFresh(rules, Next(rules, st, ls[0]).value, ls[1..]);
    }
  }

  lemma InitIsFresh()
    ensures FreshUnregistered(Init())
  {
  }
}
