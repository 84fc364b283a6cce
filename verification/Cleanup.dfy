/**
 Cleanup: when is a session that has shut down gone from the registries for good? `removeSession`
 always takes it off the list. `unregisterSession` looks at the entry of one user only, and that
 is enough exactly if the session was registered under no other.
 */
module Cleanup {
  import opened Lifecycle
  import opened LifecycleSafety
  import Registry
  import opened Wrappers

  predicate AtUnregister(st: System, s: Sid, role: Role) {
    s in st.sess && PcOf(st.sess[s], role) == ShuttingDown(Unregister)
  }

  /** The step leaves no entry of the session behind if and only if it had none under another user. */
  lemma UnregisterExactly(rules: Rules, st: System, s: Sid, role: Role)
    requires AtUnregister(st, s, role)
    ensures var next := Next(rules, st, ShutdownStep(s, role));
            next.Some? && (RegisteredNowhere(next.value, s) <==> RegisteredOnlyAs(st, s, st.sess[s].userId))
  {
    var next := Next(rules, st, ShutdownStep(s, role)).value;
    var u := st.sess[s].userId;
    assert next.sessions == Registry.Unregistered(st.sessions, u, s);
    if RegisteredOnlyAs(st, s, u) {
      assert forall v :: v in next.sessions ==> next.sessions[v] == st.sessions[v];
    } else {
      var v :| v in st.sessions && st.sessions[v] == s && v != u;
      assert v in next.sessions && next.sessions[v] == s;
    }
  }

  lemma UnregisterUnmaps(rules: Rules, st: System, s: Sid, role: Role)
    requires Invariant(st) && AtUnregister(st, s, role)
    ensures var next := Next(rules, st, ShutdownStep(s, role));
            next.Some? && s in next.value.sess && Unmapped(next.value.sess[s])
  {
    SessionIsOk(st, s);
  }

  lemma LoggingInIsMapped(st: System, s: Sid)
    requires Invariant(st) && s in st.sess && Unmapped(st.sess[s])
    ensures !st.sess[s].reader.LoggingIn?
  {
    SessionIsOk(st, s);
  }

  /** Only the session itself could register again, and its reader has ended. */
  lemma NoNewEntry(rules: Rules, st: System, l: Label, s: Sid)
    requires Next(rules, st, l).Some? && s in st.sess && !st.sess[s].reader.LoggingIn? && RegisteredNowhere(st, s)
    ensures RegisteredNowhere(Next(rules, st, l).value, s)
  {
    hide Advance;
    hide AdvanceLogin;
  }

  lemma StaysUnmapped(rules: Rules, st: System, l: Label, s: Sid)
    requires Invariant(st) && s in st.sess && Unmapped(st.sess[s]) && Next(rules, st, l).Some?
    ensures s in Next(rules, st, l).value.sess && Unmapped(Next(rules, st, l).value.sess[s])
  {
    SessionIsOk(st, s);
    LoggingInIsMapped(st, s);
    UnmappedHasWinner(st.sess[s]);
    if l.ShutdownStep? {
      if l.s == s {
        AdvanceIdentity(st.sess[s], l.role);
      }
      hide Invariant;
      hide Advance;
      hide Unmapped;
    } else if l.LoginStep? {
      ClosedStaysUnmapped(st.sess[s]);
      hide Invariant;
      hide AdvanceLogin;
      hide Unmapped;
    } else {
      OthersStayUnmapped(rules, st, l, s);
    }
  }

  lemma UnmappedHasWinner(x: Session)
    requires SessionOk(x) && Unmapped(x)
    ensures x.winner.Some? && !x.running && PcOf(x, Other(x.winner.value)).Ended?
    ensures x.reader.Ended? || (x.reader.ShuttingDown? && x.winner == Some(Reader))
    ensures x.writer.Ended? || (x.writer.ShuttingDown? && x.winner == Some(Writer))
  {
  }

  lemma ClosedStaysUnmapped(x: Session)
    ensures Unmapped(x.(open := false)) == Unmapped(x)
  {
  }

  lemma OthersStayUnmapped(rules: Rules, st: System, l: Label, s: Sid)
    requires Invariant(st) && s in st.sess && Unmapped(st.sess[s]) && Next(rules, st, l).Some?
    requires !l.ShutdownStep? && !l.LoginStep?
    ensures s in Next(rules, st, l).value.sess && Next(rules, st, l).value.sess[s] == st.sess[s]
  {
    SessionIsOk(st, s);
    UnmappedHasWinner(st.sess[s]);
    if st.acceptor.Counted? {
      LaunchIsUnborn(st);
    }
    hide Invariant;
    hide Unmapped;
    hide SessionOk;
  }

  lemma LaunchIsUnborn(st: System)
    requires Invariant(st) && st.acceptor.Counted?
    ensures st.acceptor.s in st.sess && st.sess[st.acceptor.s].reader.Unborn?
  {
  }

  /** Gone is gone, whatever anybody does. */
  lemma {:induction false} GoneForEver(rules: Rules, st: System, ls: seq<Label>, s: Sid)
    requires Invariant(st) && s in st.sess && Unmapped(st.sess[s]) && RegisteredNowhere(st, s)
    requires Run(rules, st, ls).Some?
    ensures RegisteredNowhere(Run(rules, st, ls).value, s)
    decreases |ls|
  {
    hide Next;
    hide Invariant;
    hide Unmapped;
    hide RegisteredNowhere;
    if ls != [] {
      LoggingInIsMapped(st, s);
      NextKeeps(rules, st, ls[0]);
      NoNewEntry(rules, st, ls[0], s);
      StaysUnmapped(rules, st, ls[0], s);
      GoneForEver(rules, Next(rules, st, ls[0]).value, ls[1..], s);
    }
  }

  ghost predicate NeverRegistered(rules: Rules, st: System, s: Sid) {
    forall more :: Run(rules, st, more).Some? ==> RegisteredNowhere(Run(rules, st, more).value, s)
  }

  /**
   Cleanup, exactly: in every run, from its `unregisterSession` on, no entry ever refers to the
   session again if and only if it was not registered under any user but its last one.
   */
  lemma CleanupExactly(rules: Rules, ls: seq<Label>, s: Sid, role: Role)
    requires Run(rules, Init(), ls).Some? && AtUnregister(Run(rules, Init(), ls).value, s, role)
    ensures var st := Run(rules, Init(), ls).value;
            var next := Next(rules, st, ShutdownStep(s, role));
            next.Some? && (NeverRegistered(rules, next.value, s) <==> RegisteredOnlyAs(st, s, st.sess[s].userId))
  {
    InitIsOk();
    RunKeeps(rules, Init(), ls);
    var st := Run(rules, Init(), ls).value;
    UnregisterExactly(rules, st, s, role);
    UnregisterUnmaps(rules, st, s, role);
    NextKeeps(rules, st, ShutdownStep(s, role));
    var next := Next(rules, st, ShutdownStep(s, role)).value;
    assert Run(rules, next, []) == Some(next);
    hide Run;
    hide Next;
    hide Invariant;
    hide Unmapped;
    hide RegisteredNowhere;
    if RegisteredNowhere(next, s) {
      forall more | Run(rules, next, more).Some? ensures RegisteredNowhere(Run(rules, next, more).value, s) {
        GoneForEver(rules, next, more, s);
      }
    }
  }

  // ----- every shutdown goes through that step

  /** A session becomes unmapped by its own unregistering only. */
  lemma OnlyUnregisterUnmaps(rules: Rules, st: System, l: Label, s: Sid)
    requires Invariant(st) && Next(rules, st, l).Some? && s in Next(rules, st, l).value.sess
    requires Unmapped(Next(rules, st, l).value.sess[s]) && (s !in st.sess || !Unmapped(st.sess[s]))
    ensures l.ShutdownStep? && l.s == s && AtUnregister(st, s, l.role)
  {
    if l.ShutdownStep? {
      SessionIsOk(st, l.s);
      AdvanceIdentity(st.sess[l.s], l.role);
      hide Invariant;
      hide Advance;
      hide Unmapped;
    } else {
      OthersDoNotUnmap(rules, st, l, s);
    }
  }

  lemma OthersDoNotUnmap(rules: Rules, st: System, l: Label, s: Sid)
    requires Invariant(st) && Next(rules, st, l).Some? && s in Next(rules, st, l).value.sess && !l.ShutdownStep?
    requires s !in st.sess || !Unmapped(st.sess[s])
    ensures !Unmapped(Next(rules, st, l).value.sess[s])
  {
    if s !in st.sess {
      hide Invariant;
      assert !Unmapped(Newborn());
      hide Unmapped;
    } else {
      SessionIsOk(st, s);
      if st.sess[s].winner.Some? {
        WinnerIsBusy(st.sess[s]);
      }
      hide Invariant;
      hide SessionOk;
      if l.LoginStep? {
        hide Unmapped;
        LoginDoesNotUnmap(rules, st, l.s, s);
      } else {
        hide NextLogin;
        hide NextShutdown;
        LoopsDoNotUnmap(rules, st, l, s);
      }
    }
  }

  lemma LoopsDoNotUnmap(rules: Rules, st: System, l: Label, s: Sid)
    requires Next(rules, st, l).Some? && s in st.sess && !l.ShutdownStep? && !l.LoginStep?
    requires !Unmapped(st.sess[s]) && (st.sess[s].winner.Some? ==> WinnerPc(st.sess[s]).Ended? || WinnerPc(st.sess[s]).ShuttingDown?)
    ensures s in Next(rules, st, l).value.sess && !Unmapped(Next(rules, st, l).value.sess[s])
  {
  }

  lemma WinnerIsBusy(x: Session)
    requires SessionOk(x) && x.winner.Some?
    ensures WinnerPc(x).Ended? || WinnerPc(x).ShuttingDown?
  {
  }

  lemma LoginDoesNotUnmap(rules: Rules, st: System, t: Sid, s: Sid)
    requires t in st.sess && st.sess[t].reader.LoggingIn? && NextLogin(rules, st, t).Some?
    requires s in st.sess && !Unmapped(st.sess[s])
    ensures s in NextLogin(rules, st, t).value.sess && !Unmapped(NextLogin(rules, st, t).value.sess[s])
  {
    var x := st.sess[t];
    var prior := if x.reader.login.CloseOld? then x.reader.login.prior else None;
    ClosedStaysUnmapped(st.sess[s]);
    ClosedStaysUnmapped(x);
    assert Closed(st, prior).sess[t] == x || Closed(st, prior).sess[t] == x.(open := false);
    LoginStepIsNoUnmapping(x, Registrant(st, x.reader.login.uid), t in st.all);
    LoginStepIsNoUnmapping(Closed(st, prior).sess[t], None, false);
    hide Unmapped;
    hide AdvanceLogin;
  }

  lemma LoginStepIsNoUnmapping(x: Session, prior: Option<Sid>, listed: bool)
    requires x.reader.LoggingIn?
    ensures Unmapped(AdvanceLogin(x, prior, listed)) ==> Unmapped(x)
  {
  }

  /** The step at which the session was unregistered. */
  lemma {:induction false} WasUnregistered(rules: Rules, st: System, ls: seq<Label>, s: Sid) returns (k: nat, role: Role)
    requires Invariant(st) && (s !in st.sess || !Unmapped(st.sess[s]))
    requires Run(rules, st, ls).Some? && s in Run(rules, st, ls).value.sess && Unmapped(Run(rules, st, ls).value.sess[s])
    ensures k < |ls| && ls[k] == ShutdownStep(s, role)
    ensures Run(rules, st, ls[..k]).Some? && AtUnregister(Run(rules, st, ls[..k]).value, s, role)
    decreases |ls|
  {
    hide Next;
    hide Invariant;
    hide Unmapped;
    var next := Next(rules, st, ls[0]).value;
    NextKeeps(rules, st, ls[0]);
    if s in next.sess && Unmapped(next.sess[s]) {
      OnlyUnregisterUnmaps(rules, st, ls[0], s);
      k, role := 0, ls[0].role;
      assert ls[..0] == [];
    } else {
      k, role := WasUnregistered(rules, next, ls[1..], s);
      k := k + 1;
      assert ls[..k][1..] == ls[1..][..k - 1];
    }
  }

  /** At its unregistering, the session was registered under its own user at most. */
  ghost predicate UnregisteredCleanly(rules: Rules, ls: seq<Label>, s: Sid) {
    forall k, role ::
      0 <= k < |ls| && ls[k] == ShutdownStep(s, role) && Run(rules, Init(), ls[..k]).Some?
      && AtUnregister(Run(rules, Init(), ls[..k]).value, s, role)
      ==> RegisteredOnlyAs(Run(rules, Init(), ls[..k]).value, s, Run(rules, Init(), ls[..k]).value.sess[s].userId)
  }

  /**
   In every run: once the shutdown of a session has finished, it is not listed, then and ever
   after; and if it was unregistered cleanly, no entry refers to it either.
   */
  lemma FinishedIsGone(rules: Rules, ls: seq<Label>, more: seq<Label>, s: Sid)
    requires Run(rules, Init(), ls).Some?
    requires Run(rules, Run(rules, Init(), ls).value, more).Some?
    requires var st := Run(rules, Init(), ls).value;
             s in st.sess && Finished(st.sess[s])
    ensures var end := Run(rules, Run(rules, Init(), ls).value, more).value;
            s !in end.all && (UnregisteredCleanly(rules, ls, s) ==> RegisteredNowhere(end, s))
  {
    InitIsOk();
    RunKeeps(rules, Init(), ls);
    var st := Run(rules, Init(), ls).value;
    FinishedForever(rules, st, more, s);
    FinishedHasWinner(st.sess[s]);
    var k, role := WasUnregistered(rules, Init(), ls, s);
    if UnregisteredCleanly(rules, ls, s) {
      CleanupExactly(rules, ls[..k], s, role);
      SplitRun(rules, ls, k, more);
    }
  }

  /** A run and its continuation, seen from after the k-th step. */
  lemma SplitRun(rules: Rules, ls: seq<Label>, k: nat, more: seq<Label>)
    requires k < |ls| && Run(rules, Init(), ls).Some? && Run(rules, Init(), ls[..k]).Some?
    ensures var next := Next(rules, Run(rules, Init(), ls[..k]).value, ls[k]);
            next.Some? && Run(rules, next.value, ls[k + 1..] + more) == Run(rules, Run(rules, Init(), ls).value, more)
  {
    hide Next;
    assert ls[..k] + ls[k..] == ls && ls[k..][1..] == ls[k + 1..];
    RunThenRun(rules, Init(), ls[..k], ls[k..]);
    var next := Next(rules, Run(rules, Init(), ls[..k]).value, ls[k]).value;
    RunThenRun(rules, next, ls[k + 1..], more);
  }

  // ----- two ways to meet the condition

  /** If no session changes its user while registered, every session is unregistered cleanly. */
  lemma LoyalCleanup(rules: Rules, ls: seq<Label>, more: seq<Label>, s: Sid)
    requires rules.loyal && Run(rules, Init(), ls).Some?
    requires Run(rules, Run(rules, Init(), ls).value, more).Some?
    requires var st := Run(rules, Init(), ls).value;
             s in st.sess && Finished(st.sess[s])
    ensures var end := Run(rules, Run(rules, Init(), ls).value, more).value;
            s !in end.all && RegisteredNowhere(end, s)
  {
    forall k, role | 0 <= k < |ls| && ls[k] == ShutdownStep(s, role) && Run(rules, Init(), ls[..k]).Some?
                     && AtUnregister(Run(rules, Init(), ls[..k]).value, s, role)
      ensures RegisteredOnlyAs(Run(rules, Init(), ls[..k]).value, s, Run(rules, Init(), ls[..k]).value.sess[s].userId)
    {
      RegistryCoherence(rules, ls[..k]);
    }
    hide Run;
    FinishedIsGone(rules, ls, more, s);
  }

  /** If every session logs in at most once, cleanup is complete. */
  lemma OneLoginCleanup(serial: bool, ls: seq<Label>, more: seq<Label>, s: Sid)
    requires Run(Rules(false, serial), Init(), ls).Some?
    requires var st := Run(Rules(false, serial), Init(), ls).value;
             && s in st.sess && Finished(st.sess[s])
             && Run(Rules(false, serial), st, more).Some? && LoginsAtMostOnce(Run(Rules(false, serial), st, more).value)
    ensures var end := Run(Rules(false, serial), Run(Rules(false, serial), Init(), ls).value, more).value;
            s !in end.all && RegisteredNowhere(end, s)
  {
    InitIsOk();
    InitIsFresh();
    RunKeepsFresh(Rules(false, serial), Init(), ls);
    var st := Run(Rules(false, serial), Init(), ls).value;
    hide Run;
    OnceIsLoyal(serial, st, more);
    OnceIsLoyal(serial, Init(), ls);
    LoyalCleanup(Rules(true, serial), ls, more, s);
  }
}
