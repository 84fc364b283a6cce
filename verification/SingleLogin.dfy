/**
 Single login per user: `kickExisting` and `registerSession` are separate critical sections, so
 the property holds as long as no two logins of one user are between them at the same time.
 `SingleLoginExact` shows that this is exactly what it takes.
 */
module SingleLogin {
  import opened Wrappers
  import opened Registry
  import opened Lifecycle
  import LifecycleSafety

  /** A session whose user can use it: not shutting down, not kicked, and logged in. */
  predicate Live(x: Session) {
    Able(x) && x.state.LOGGED_IN?
  }

  predicate PastKick(pc: Pc) {
    pc.LoggingIn? && !pc.login.Kick?
  }

  predicate SameWindow(a: Pc, b: Pc) {
    PastKick(a) && PastKick(b) && a.login.uid == b.login.uid
  }

  predicate PastSetUser(pc: Pc) {
    pc.LoggingIn? && (pc.login.GetSelf? || pc.login.Register?)
  }

  predicate AboutToClose(pc: Pc, s: Sid) {
    pc.LoggingIn? && pc.login.CloseOld? && pc.login.prior == Some(s)
  }

  /** A running session is logged in from `setLoggedIn` on. */
  predicate RunningOk(x: Session) {
    x.running && PastSetUser(x.reader) ==> x.state.LOGGED_IN?
  }

  /** A login of this session is complete, and while it runs there is no other. */
  predicate Established(x: Session) {
    x.running ==> x.state.LOGGED_IN? && !PastSetUser(x.reader)
  }

  predicate SoundLogin(x: Session) {
    LifecycleSafety.IdentityOk(x) && RunningOk(x)
  }

  /** Why a live session is no second login: it is registered, about to be, or about to be closed. */
  ghost predicate Accounted(st: System, s: Sid)
    requires s in st.sess
  {
    var u := st.sess[s].userId;
    || (u in st.sessions && st.sessions[u] == s)
    || PastSetUser(st.sess[s].reader)
    || exists t :: t in st.sess && AboutToClose(st.sess[t].reader, s) && st.sess[t].reader.login.uid == u
  }

  ghost predicate OneLive(st: System) {
    forall s, t :: s in st.sess && t in st.sess && SameLive(st.sess[s], st.sess[t]) ==> s == t
  }

  predicate SameLive(x: Session, y: Session) {
    Live(x) && Live(y) && x.userId == y.userId
  }

  ghost predicate AllAccounted(st: System) {
    forall s :: s in st.sess && Live(st.sess[s]) ==> Accounted(st, s)
  }

  /** Single login: no two live sessions have the same user, and every live session is accounted for. */
  ghost predicate OneLivePerUser(st: System) {
    OneLive(st) && AllAccounted(st)
  }

  predicate Clash(x: Session, y: Session) {
    SameWindow(x.reader, y.reader) && (Able(x) || Able(y))
  }

  /** Logins overlap only where neither session can be live any more. */
  ghost predicate Apart(st: System) {
    forall s, t :: s in st.sess && t in st.sess && s != t ==> !Clash(st.sess[s], st.sess[t])
  }

  ghost predicate SoundLogins(st: System) {
    forall s :: s in st.sess ==> SoundLogin(st.sess[s])
  }

  /** Entries, and sessions that have lost theirs and are about to be closed, have completed a login. */
  ghost predicate EntriesOk(st: System) {
    && (forall u :: u in st.sessions ==> st.sessions[u] in st.sess && Established(st.sess[st.sessions[u]]))
    && (forall s :: s in st.sess ==> PriorOk(st, st.sess[s].reader))
  }

  ghost predicate PriorOk(st: System, pc: Pc) {
    pc.LoggingIn? && pc.login.CloseOld? && pc.login.prior.Some? ==>
      pc.login.prior.value in st.sess && Established(st.sess[pc.login.prior.value])
  }

  /** While a login of the user is under way, no entry of his is that of a session in use. */
  ghost predicate Vacant(st: System) {
    forall s :: s in st.sess && PastKick(st.sess[s].reader) ==> VacantFor(st, st.sess[s].reader.login.uid)
  }

  ghost predicate VacantFor(st: System, u: Uid) {
    u in st.sessions ==> st.sessions[u] in st.sess && !Able(st.sess[st.sessions[u]])
  }

  ghost predicate Orderly(st: System) {
    SoundLogins(st) && Apart(st) && EntriesOk(st) && Vacant(st)
  }

  /** Single login and what makes it inductive. */
  ghost predicate Single(st: System) {
    OneLivePerUser(st) && Orderly(st)
  }

  // ----- changing one session

  /** A change after which the session is no more able than before, and opens no window. */
  predicate Calm(x: Session, y: Session) {
    && SoundLogin(y) && (Able(y) ==> Able(x)) && (Established(x) ==> Established(y))
    && (y.reader == x.reader || !PastKick(y.reader) || (SameWindow(x.reader, y.reader) && !y.reader.login.CloseOld?))
  }

  lemma PutKeepsOrder(st: System, s: Sid, y: Session)
    requires Orderly(st) && s in st.sess && Calm(st.sess[s], y)
    ensures Orderly(Put(st, s, y))
  {
    hide Able;
    hide SoundLogin;
    hide Established;
    var next := Put(st, s, y);
    assert Apart(next) by {
      hide EntriesOk;
      hide Vacant;
      hide SoundLogins;
      PutKeepsApart(st, s, y);
    }
    hide Apart;
    assert EntriesOk(next) by {
      hide Vacant;
      hide SoundLogins;
      hide SameWindow;
      forall t | t in next.sess ensures PriorOk(next, next.sess[t].reader) {
        assert PriorOk(st, st.sess[t].reader);
      }
    }
    hide EntriesOk;
    forall t | t in next.sess && PastKick(next.sess[t].reader) ensures VacantFor(next, next.sess[t].reader.login.uid) {
      assert VacantFor(st, st.sess[t].reader.login.uid);
    }
  }

  lemma PutKeepsApart(st: System, s: Sid, y: Session)
    requires Apart(st) && s in st.sess && Calm(st.sess[s], y)
    ensures Apart(Put(st, s, y))
  {
    hide Able;
    hide SoundLogin;
    hide Established;
    var next := Put(st, s, y);
    forall a, b | a in next.sess && b in next.sess && a != b ensures !Clash(next.sess[a], next.sess[b]) {
      assert !Clash(st.sess[a], st.sess[b]);
    }
  }

  lemma StaysAccounted(st: System, next: System, s: Sid)
    requires s in st.sess && s in next.sess && Accounted(st, s)
    requires next.sess[s].userId == st.sess[s].userId
    requires PastSetUser(st.sess[s].reader) ==> PastSetUser(next.sess[s].reader)
    requires var u := st.sess[s].userId;
             u in st.sessions && st.sessions[u] == s ==> u in next.sessions && next.sessions[u] == s
    requires forall t :: t in st.sess && AboutToClose(st.sess[t].reader, s) ==> t in next.sess && next.sess[t].reader == st.sess[t].reader
    ensures Accounted(next, s)
  {
  }

  /** A change that makes nothing live, does not move the user, and closes no waiting session's window. */
  lemma PutKeepsLive(st: System, s: Sid, y: Session)
    requires OneLivePerUser(st) && s in st.sess
    requires Live(y) ==> Live(st.sess[s]) && y.userId == st.sess[s].userId
                         && (PastSetUser(st.sess[s].reader) ==> PastSetUser(y.reader))
    requires y.reader == st.sess[s].reader || forall t :: t in st.sess && Live(st.sess[t]) ==> !AboutToClose(st.sess[s].reader, t)
    ensures OneLivePerUser(Put(st, s, y))
  {
    hide Live;
    var next := Put(st, s, y);
    forall t | t in next.sess && Live(next.sess[t]) ensures Accounted(next, t) {
      hide OneLive;
      assert Accounted(st, t);
      StaysAccounted(st, next, t);
    }
    hide AllAccounted;
    hide Accounted;
    forall a, b | a in next.sess && b in next.sess && SameLive(next.sess[a], next.sess[b]) ensures a == b {
      assert SameLive(st.sess[a], st.sess[b]);
    }
  }

  /** A step that leaves logins alone. */
  predicate Quiet(x: Session, y: Session) {
    && Calm(x, y) && y.userId == x.userId && (Live(y) ==> Live(x))
    && (y.reader == x.reader || (!PastKick(y.reader) && !PastKick(x.reader)))
  }

  lemma QuietKeeps(st: System, s: Sid, y: Session)
    requires Single(st) && s in st.sess && Quiet(st.sess[s], y)
    ensures Single(Put(st, s, y))
  {
    hide OneLivePerUser;
    hide Orderly;
    hide Live;
    hide Calm;
    PutKeepsOrder(st, s, y);
    PutKeepsLive(st, s, y);
  }

  lemma FewerEntriesKeep(st: System, s: Sid)
    requires Single(st) && s in st.sess && !Live(st.sess[s])
    ensures Single(st.(sessions := Unregistered(st.sessions, st.sess[s].userId, s)))
  {
    hide Live;
    hide Able;
    hide SoundLogin;
    hide Established;
    hide Clash;
    var next := st.(sessions := Unregistered(st.sessions, st.sess[s].userId, s));
    forall t | t in next.sess && Live(next.sess[t]) ensures Accounted(next, t) {
      hide Orderly;
      assert Accounted(st, t);
      StaysAccounted(st, next, t);
    }
    hide AllAccounted;
    hide Accounted;
    forall t | t in next.sess ensures PriorOk(next, next.sess[t].reader) {
      assert PriorOk(st, st.sess[t].reader);
    }
    forall t | t in next.sess && PastKick(next.sess[t].reader) ensures VacantFor(next, next.sess[t].reader.login.uid) {
      assert VacantFor(st, st.sess[t].reader.login.uid);
    }
    assert AllAccounted(next) by {
      assert forall t :: t in next.sess && Live(next.sess[t]) ==> Accounted(next, t);
    }
  }

  lemma SameLogins(st: System, next: System)
    requires Single(st) && next.sess == st.sess && next.sessions == st.sessions
    ensures Single(next)
  {
    var same := st.(all := next.all, count := next.count, acceptor := next.acceptor, users := next.users);
    assert same == next;
    hide Live;
    hide Able;
    hide SoundLogin;
    hide Established;
    hide Clash;
    forall t | t in next.sess && Live(next.sess[t]) ensures Accounted(next, t) {
      hide Orderly;
      assert Accounted(st, t);
      StaysAccounted(st, next, t);
    }
    assert AllAccounted(next);
    hide AllAccounted;
    hide Accounted;
    forall t | t in next.sess ensures PriorOk(next, next.sess[t].reader) {
      assert PriorOk(st, st.sess[t].reader);
    }
    forall t | t in next.sess && PastKick(next.sess[t].reader) ensures VacantFor(next, next.sess[t].reader.login.uid) {
      assert VacantFor(st, st.sess[t].reader.login.uid);
    }
  }

  lemma AddKeeps(st: System, s: Sid)
    requires Single(st) && s !in st.sess
    ensures Single(Put(st, s, Newborn()))
  {
    assert SoundLogin(Newborn()) && !Live(Newborn()) && !Newborn().reader.LoggingIn?;
    hide Newborn;
    hide Live;
    hide Able;
    hide SoundLogin;
    hide Established;
    var next := Put(st, s, Newborn());
    forall t | t in next.sess && Live(next.sess[t]) ensures Accounted(next, t) {
      hide Orderly;
      assert Accounted(st, t);
      StaysAccounted(st, next, t);
    }
    assert AllAccounted(next);
    hide AllAccounted;
    hide Accounted;
    forall a, b | a in next.sess && b in next.sess && SameLive(next.sess[a], next.sess[b]) ensures a == b {
      assert SameLive(st.sess[a], st.sess[b]);
    }
    assert OneLive(next);
    hide OneLive;
    forall a, b | a in next.sess && b in next.sess && a != b ensures !Clash(next.sess[a], next.sess[b]) {
      assert a != s && b != s ==> !Clash(st.sess[a], st.sess[b]);
    }
    assert Apart(next);
    hide Apart;
    hide Clash;
    forall t | t in next.sess ensures PriorOk(next, next.sess[t].reader) {
      assert t != s ==> PriorOk(st, st.sess[t].reader);
    }
    forall t | t in next.sess && PastKick(next.sess[t].reader) ensures VacantFor(next, next.sess[t].reader.login.uid) {
      assert VacantFor(st, st.sess[t].reader.login.uid);
    }
  }

  // ----- the login

  /** The state after the kick: the entry is gone, and its session known to the login. */
  function Kicked(st: System, s: Sid): System
    requires s in st.sess && st.sess[s].reader.LoggingIn?
  {
    var u := st.sess[s].reader.login.uid;
    Put(st, s, st.sess[s].(reader := LoggingIn(CloseOld(u, Registrant(st, u))))).(sessions := st.sessions - {u})
  }

  predicate AtKick(st: System, s: Sid) {
    s in st.sess && st.sess[s].reader.LoggingIn? && st.sess[s].reader.login.Kick?
  }

  /** Whoever had the entry is about to be closed. */
  lemma KickKeepsLive(st: System, s: Sid)
    requires OneLivePerUser(st) && AtKick(st, s) && !Live(st.sess[s])
    ensures OneLivePerUser(Kicked(st, s))
  {
    var u := st.sess[s].reader.login.uid;
    var next := Kicked(st, s);
    assert !Live(next.sess[s]);
    hide Live;
    forall t | t in next.sess && Live(next.sess[t]) ensures Accounted(next, t) {
      assert Accounted(st, t) && t != s;
      if u in st.sessions && st.sessions[u] == t && st.sess[t].userId == u {
        assert AboutToClose(next.sess[s].reader, t);
      } else {
        StaysAccounted(st, next, t);
      }
    }
    hide Accounted;
    hide AllAccounted;
    forall a, b | a in next.sess && b in next.sess && SameLive(next.sess[a], next.sess[b]) ensures a == b {
      assert SameLive(st.sess[a], st.sess[b]);
    }
    assert AllAccounted(next) by {
      assert forall t :: t in next.sess && Live(next.sess[t]) ==> Accounted(next, t);
    }
  }

  /** The logins stay apart if and only if none overlaps with this one. */
  lemma KickKeepsApart(st: System, s: Sid)
    requires Apart(st) && AtKick(st, s)
    ensures Apart(Kicked(st, s)) <==> NoOverlap(st, s, st.sess[s].reader.login.uid)
  {
    var u := st.sess[s].reader.login.uid;
    var next := Kicked(st, s);
    assert Able(next.sess[s]) == Able(st.sess[s]);
    hide Able;
    forall t | t in st.sess && t != s ensures Clash(next.sess[s], next.sess[t]) <==> InWindow(st.sess[t].reader, u) && (Able(st.sess[t]) || Able(st.sess[s])) {
    }
    if NoOverlap(st, s, u) {
      forall a, b | a in next.sess && b in next.sess && a != b ensures !Clash(next.sess[a], next.sess[b]) {
        assert !Clash(st.sess[a], st.sess[b]);
        assert a == s ==> !Clash(next.sess[s], next.sess[b]);
        assert b == s ==> !Clash(next.sess[s], next.sess[a]);
      }
    }
  }

  lemma KickKeepsEntries(st: System, s: Sid)
    requires Orderly(st) && AtKick(st, s)
    ensures SoundLogins(Kicked(st, s)) && EntriesOk(Kicked(st, s)) && Vacant(Kicked(st, s))
  {
    hide Apart;
    var next := Kicked(st, s);
    assert SoundLogin(st.sess[s]);
    assert SoundLogin(next.sess[s]) && Able(next.sess[s]) == Able(st.sess[s]) && Established(next.sess[s]) == Established(st.sess[s]);
    hide Able;
    hide SoundLogin;
    hide Established;
    forall t | t in next.sess ensures PriorOk(next, next.sess[t].reader) {
      assert PriorOk(st, st.sess[t].reader);
    }
    forall t | t in next.sess && PastKick(next.sess[t].reader) ensures VacantFor(next, next.sess[t].reader.login.uid) {
      assert t != s ==> VacantFor(st, st.sess[t].reader.login.uid);
    }
  }

  /** The kick keeps the invariant if and only if no login of the same user overlaps. */
  lemma KickExactly(st: System, s: Sid)
    requires Invariant(st) && Single(st) && AtKick(st, s)
    ensures Single(Kicked(st, s)) <==> NoOverlap(st, s, st.sess[s].reader.login.uid)
  {
    SessionIsOk(st, s);
    assert !Live(st.sess[s]);
    hide Invariant;
    hide SessionOk;
    hide Live;
    hide OneLivePerUser;
    hide SoundLogins;
    hide EntriesOk;
    hide Vacant;
    hide Apart;
    KickKeepsLive(st, s);
    KickKeepsApart(st, s);
    KickKeepsEntries(st, s);
  }

  /** At `setLoggedIn` no other session of the user is live. */
  lemma NobodyElseLive(st: System, s: Sid, t: Sid)
    requires Single(st) && s in st.sess && t in st.sess && t != s && Able(st.sess[s])
    requires st.sess[s].reader.LoggingIn? && st.sess[s].reader.login.SetUser?
    requires st.sess[t].userId == st.sess[s].reader.login.uid
    ensures !Live(st.sess[t])
  {
    hide EntriesOk;
    hide OneLive;
    var u := st.sess[s].reader.login.uid;
    var x := st.sess[t];
    assert VacantFor(st, u) && SoundLogin(x);
    hide Vacant;
    hide SoundLogins;
    if Live(x) {
      assert Accounted(st, t) && !Clash(st.sess[s], x);
      assert !PastSetUser(x.reader);
      assert !(u in st.sessions && st.sessions[u] == t);
      forall w | w in st.sess && w != s ensures !(AboutToClose(st.sess[w].reader, t) && st.sess[w].reader.login.uid == u) {
        assert !Clash(st.sess[s], st.sess[w]);
      }
    }
  }

  lemma SetUserKeepsLive(st: System, s: Sid, y: Session)
    requires Single(st) && s in st.sess && !Live(st.sess[s])
    requires st.sess[s].reader.LoggingIn? && st.sess[s].reader.login.SetUser?
    requires y.reader == LoggingIn(GetSelf(st.sess[s].reader.login.uid)) && y.userId == st.sess[s].reader.login.uid
    requires Live(y) ==> Able(st.sess[s])
    ensures OneLivePerUser(Put(st, s, y))
  {
    var next := Put(st, s, y);
    forall t | t in st.sess && t != s && Live(y) && st.sess[t].userId == y.userId ensures !Live(st.sess[t]) {
      NobodyElseLive(st, s, t);
    }
    hide Orderly;
    hide Live;
    forall t | t in next.sess && Live(next.sess[t]) ensures Accounted(next, t) {
      if t != s {
        assert Accounted(st, t);
        StaysAccounted(st, next, t);
      }
    }
    hide Accounted;
    hide AllAccounted;
    forall a, b | a in next.sess && b in next.sess && SameLive(next.sess[a], next.sess[b]) ensures a == b {
      assert a != s && b != s ==> SameLive(st.sess[a], st.sess[b]);
    }
    assert AllAccounted(next) by {
      assert forall t :: t in next.sess && Live(next.sess[t]) ==> Accounted(next, t);
    }
  }

  /** The end of the window: the entry becomes this session's, and no live session had it. */
  lemma RegisterKeeps(st: System, s: Sid)
    requires Single(st) && s in st.sess
    requires st.sess[s].reader.LoggingIn? && st.sess[s].reader.login.Register?
    ensures Single(Put(st.(sessions := st.sessions[st.sess[s].reader.login.uid := s]), s, st.sess[s].(reader := Looping)))
  {
    var x := st.sess[s];
    var u := x.reader.login.uid;
    var y := x.(reader := Looping);
    assert SoundLogin(x);
    assert Calm(x, y) && Established(y) && y.userId == u && Live(y) == Live(x) && Able(y) == Able(x);
    assert VacantFor(st, u);
    forall t | t in st.sess && t != s && InWindow(st.sess[t].reader, u) ensures !Able(x) {
      assert !Clash(x, st.sess[t]);
    }
    RegisterKeepsLive(st, s);
    PutKeepsOrder(st, s, y);
    hide Single;
    hide Live;
    hide Able;
    hide SoundLogin;
    hide Established;
    hide Calm;
    hide OneLivePerUser;
    EntryKeepsOrder(Put(st, s, y), u, s);
  }

  lemma RegisterKeepsLive(st: System, s: Sid)
    requires OneLivePerUser(st) && s in st.sess
    requires st.sess[s].reader.LoggingIn? && st.sess[s].reader.login.Register?
    requires st.sess[s].userId == st.sess[s].reader.login.uid && VacantFor(st, st.sess[s].userId)
    ensures OneLivePerUser(Put(st.(sessions := st.sessions[st.sess[s].reader.login.uid := s]), s, st.sess[s].(reader := Looping)))
  {
    var x := st.sess[s];
    var u := x.reader.login.uid;
    var y := x.(reader := Looping);
    var next := Put(st.(sessions := st.sessions[u := s]), s, y);
    assert Live(y) == Live(x);
    assert u in st.sessions ==> !Live(st.sess[st.sessions[u]]);
    hide Live;
    forall t | t in next.sess && Live(next.sess[t]) ensures Accounted(next, t) {
      if t != s {
        assert Accounted(st, t);
        StaysAccounted(st, next, t);
      }
    }
    hide Accounted;
    hide AllAccounted;
    forall a, b | a in next.sess && b in next.sess && SameLive(next.sess[a], next.sess[b]) ensures a == b {
      assert SameLive(st.sess[a], st.sess[b]);
    }
    assert AllAccounted(next) by {
      assert forall t :: t in next.sess && Live(next.sess[t]) ==> Accounted(next, t);
    }
  }

  lemma EntryKeepsOrder(st: System, u: Uid, s: Sid)
    requires Orderly(st) && s in st.sess && Established(st.sess[s])
    requires forall t :: t in st.sess && InWindow(st.sess[t].reader, u) ==> !Able(st.sess[s])
    ensures Orderly(st.(sessions := st.sessions[u := s]))
  {
    hide Able;
    hide SoundLogin;
    hide Established;
    hide Clash;
    var next := st.(sessions := st.sessions[u := s]);
    forall t | t in next.sess ensures PriorOk(next, next.sess[t].reader) {
      assert PriorOk(st, st.sess[t].reader);
    }
    forall t | t in next.sess && PastKick(next.sess[t].reader) ensures VacantFor(next, next.sess[t].reader.login.uid) {
      assert VacantFor(st, st.sess[t].reader.login.uid);
    }
  }

  lemma CloseOldKeeps(rules: Rules, st: System, s: Sid)
    requires Invariant(st) && Single(st) && s in st.sess
    requires st.sess[s].reader.LoggingIn? && st.sess[s].reader.login.CloseOld?
    ensures Single(NextLogin(rules, st, s).value)
  {
    var prior := st.sess[s].reader.login.prior;
    var closed := Closed(st, prior);
    SessionIsOk(st, s);
    ClosedKeepsSingle(st, prior);
    PriorIsClosed(st, s);
    ClosedOk(st.sess[s]);
    CloseOldSession(closed.sess[s]);
    hide Invariant;
    hide SessionOk;
    hide Live;
    hide Calm;
    hide OneLivePerUser;
    hide Orderly;
    hide Closed;
    hide AdvanceLogin;
    var y := AdvanceLogin(closed.sess[s], None, false);
    PutKeepsOrder(closed, s, y);
    PutKeepsLive(closed, s, y);
  }

  lemma PriorIsClosed(st: System, s: Sid)
    requires s in st.sess && st.sess[s].reader.LoggingIn? && st.sess[s].reader.login.CloseOld?
    ensures var closed := Closed(st, st.sess[s].reader.login.prior);
            && s in closed.sess && closed.sess[s].(open := true) == st.sess[s].(open := true)
            && forall t :: t in closed.sess && Live(closed.sess[t]) ==> !AboutToClose(closed.sess[s].reader, t)
  {
  }

  lemma ClosedKeepsSingle(st: System, prior: Option<Sid>)
    requires Single(st)
    ensures Single(Closed(st, prior))
  {
    if prior.Some? && prior.value in st.sess {
      var x := st.sess[prior.value];
      assert SoundLogin(x);
      assert Quiet(x, x.(open := false));
      hide Single;
      hide Quiet;
      QuietKeeps(st, prior.value, x.(open := false));
    }
  }

  lemma CloseOldSession(x: Session)
    requires SessionOk(x) && x.reader.LoggingIn? && x.reader.login.CloseOld?
    ensures Calm(x, AdvanceLogin(x, None, false)) && !Live(AdvanceLogin(x, None, false))
  {
  }

  lemma RunningIsListed(st: System, s: Sid)
    requires Invariant(st) && s in st.sess && st.sess[s].running
    ensures s in st.all
  {
  }

  lemma SetUserSession(x: Session, prior: Option<Sid>, listed: bool)
    requires SessionOk(x) && SoundLogin(x) && x.reader.LoggingIn? && x.reader.login.SetUser?
    ensures var y := AdvanceLogin(x, prior, listed);
            && Calm(x, y) && !Live(x) && (Live(y) ==> Able(x))
            && y.reader == LoggingIn(GetSelf(x.reader.login.uid)) && y.userId == x.reader.login.uid
  {
  }

  lemma GetSelfSession(x: Session, prior: Option<Sid>, listed: bool)
    requires SessionOk(x) && SoundLogin(x) && x.reader.LoggingIn? && x.reader.login.GetSelf? && (x.running ==> listed)
    ensures var y := AdvanceLogin(x, prior, listed);
            && Calm(x, y) && (Live(y) ==> Live(x) && y.userId == x.userId && PastSetUser(y.reader))
  {
  }

  lemma LoginKeeps(rules: Rules, st: System, s: Sid)
    requires rules.serial && Invariant(st) && Single(st) && s in st.sess && st.sess[s].reader.LoggingIn?
    requires NextLogin(rules, st, s).Some?
    ensures Single(NextLogin(rules, st, s).value)
  {
    var x := st.sess[s];
    if x.reader.login.Kick? {
      hide Single;
      KickExactly(st, s);
    } else if x.reader.login.CloseOld? {
      hide Single;
      CloseOldKeeps(rules, st, s);
    } else if x.reader.login.Register? {
      hide Single;
      RegisterKeeps(st, s);
    } else {
      MiddleKeeps(st, s);
    }
  }

  lemma MiddleKeeps(st: System, s: Sid)
    requires Invariant(st) && Single(st) && s in st.sess && st.sess[s].reader.LoggingIn?
    requires st.sess[s].reader.login.SetUser? || st.sess[s].reader.login.GetSelf?
    ensures Single(Put(st, s, AdvanceLogin(st.sess[s], Registrant(st, st.sess[s].reader.login.uid), s in st.all)))
  {
    var x := st.sess[s];
    var prior := Registrant(st, x.reader.login.uid);
    var y := AdvanceLogin(x, prior, s in st.all);
    SessionIsOk(st, s);
    assert SoundLogin(x);
    if x.running {
      RunningIsListed(st, s);
    }
    hide Invariant;
    hide Orderly;
    if x.reader.login.SetUser? {
      SetUserSession(x, prior, s in st.all);
      hide SessionOk;
      hide SoundLogin;
      hide Calm;
      hide Live;
      hide AdvanceLogin;
      SetUserKeepsLive(st, s, y);
      PutKeepsOrder(st, s, y);
    } else {
      GetSelfSession(x, prior, s in st.all);
      hide SessionOk;
      hide SoundLogin;
      hide Calm;
      hide Live;
      hide AdvanceLogin;
      PutKeepsLive(st, s, y);
      PutKeepsOrder(st, s, y);
    }
  }

  // ----- the other steps

  lemma AdvanceIsQuiet(x: Session, role: Role)
    requires SessionOk(x) && SoundLogin(x) && PcOf(x, role).ShuttingDown?
    ensures Quiet(x, Advance(x, role)) && (PcOf(x, role).at.Unregister? ==> !Live(Advance(x, role)))
  {
  }

  lemma ShutdownKeeps(st: System, s: Sid, role: Role)
    requires Invariant(st) && Single(st) && s in st.sess && PcOf(st.sess[s], role).ShuttingDown?
    requires NextShutdown(st, s, role).Some?
    ensures Single(NextShutdown(st, s, role).value)
  {
    var x := st.sess[s];
    SessionIsOk(st, s);
    assert SoundLogin(x);
    var y := Advance(x, role);
    AdvanceIsQuiet(x, role);
    hide Invariant;
    hide Single;
    hide SessionOk;
    hide Quiet;
    hide Live;
    hide Advance;
    QuietKeeps(st, s, y);
    if PcOf(x, role).at.Unregister? {
      assert y.userId == x.userId by { UserStays(x, role); }
      FewerEntriesKeep(Put(st, s, y), s);
    } else if PcOf(x, role).at.Remove? || PcOf(x, role).at.Uncount? {
      SameLogins(Put(st, s, y), NextShutdown(st, s, role).value);
    }
  }

  lemma UserStays(x: Session, role: Role)
    requires PcOf(x, role).ShuttingDown?
    ensures Advance(x, role).userId == x.userId
  {
  }

  lemma AuthenticateIsQuiet(x: Session, u: Uid)
    requires SessionOk(x) && SoundLogin(x) && x.reader.Looping? && !x.state.LOGGED_IN?
    ensures Quiet(x, x.(reader := LoggingIn(Kick(u))))
  {
  }

  lemma LeaveLoopIsQuiet(x: Session, role: Role)
    requires SoundLogin(x) && PcOf(x, role).Looping?
    ensures Quiet(x, WithPc(x, role, ShuttingDown(Swap)))
  {
  }

  lemma QuitIsQuiet(x: Session)
    requires SoundLogin(x)
    ensures Quiet(x, x.(writer := Ended))
    ensures x.reader.Unborn? ==> Quiet(x, x.(reader := Looping, writer := Looping))
  {
  }

  lemma LoopKeeps(rules: Rules, st: System, l: Label)
    requires l.Authenticate? || l.LeaveLoop? || l.QuitWriter?
    requires Invariant(st) && Single(st) && Next(rules, st, l).Some?
    ensures Single(Next(rules, st, l).value)
  {
    var x, y := st.sess[l.s], Next(rules, st, l).value.sess[l.s];
    SessionIsOk(st, l.s);
    assert SoundLogin(x);
    hide Invariant;
    hide Single;
    hide SoundLogin;
    hide Quiet;
    match l
    case Authenticate(s, u) => AuthenticateIsQuiet(x, u);
      QuietKeeps(st, l.s, y);
    case LeaveLoop(s, role) => LeaveLoopIsQuiet(x, role);
      QuietKeeps(st, l.s, y);
    case QuitWriter(s) => QuitIsQuiet(x);
      QuietKeeps(st, l.s, y);
  }

  lemma LaunchKeeps(st: System, s: Sid)
    requires Invariant(st) && Single(st) && st.acceptor == Counted(s)
    ensures s in st.sess && Single(Put(st, s, st.sess[s].(reader := Looping, writer := Looping)))
  {
    var x := st.sess[s];
    assert SoundLogin(x) && x.reader.Unborn?;
    hide Invariant;
    hide Single;
    QuitIsQuiet(x);
    QuietKeeps(st, s, x.(reader := Looping, writer := Looping));
  }

  lemma AcceptKeepsSingle(rules: Rules, st: System, l: Label)
    requires l.Check? || l.Add? || l.Count? || l.Launch? || l.NewUser?
    requires Invariant(st) && Single(st) && Next(rules, st, l).Some?
    ensures Single(Next(rules, st, l).value)
  {
    hide Single;
    var next := Next(rules, st, l).value;
    if l.Launch? && st.acceptor.s in st.all {
      var s := st.acceptor.s;
      LaunchKeeps(st, s);
      SameLogins(Put(st, s, st.sess[s].(reader := Looping, writer := Looping)), next);
    } else if l.Add? {
      AddKeeps(st, l.s);
      SameLogins(Put(st, l.s, Newborn()), next);
    } else {
      SameLogins(st, next);
    }
  }

  lemma NextKeepsSingle(rules: Rules, st: System, l: Label)
    requires rules.serial && Invariant(st) && Single(st) && Next(rules, st, l).Some?
    ensures Single(Next(rules, st, l).value)
  {
    hide Single;
    hide Invariant;
    if l.LoginStep? {
      LoginKeeps(rules, st, l.s);
    } else if l.ShutdownStep? {
      ShutdownKeeps(st, l.s, l.role);
    } else if l.Authenticate? || l.LeaveLoop? || l.QuitWriter? {
      LoopKeeps(rules, st, l);
    } else {
      AcceptKeepsSingle(rules, st, l);
    }
  }

  lemma {:induction false} RunKeepsSingle(rules: Rules, st: System, ls: seq<Label>)
    requires rules.serial && Invariant(st) && Single(st) && Run(rules, st, ls).Some?
    ensures Single(Run(rules, st, ls).value)
    decreases |ls|
  {
    hide Next;
    hide Invariant;
    hide Single;
    if ls != [] {
      NextKeeps(rules, st, ls[0]);
      NextKeepsSingle(rules, st, ls[0]);
      RunKeepsSingle(rules, Next(rules, st, ls[0]).value, ls[1..]);
    }
  }

  lemma InitIsSingle()
    ensures Single(Init())
  {
  }

  /**
   Single login, for every interleaving in which the logins of one user do not overlap: two live
   sessions never belong to the same user, and a live session is the one registered for its user
   unless a login of that user is just under way.
   */
  lemma SingleLoginPerUser(rules: Rules, ls: seq<Label>, s: Sid, t: Sid)
    requires rules.serial && Run(rules, Init(), ls).Some?
    requires var st := Run(rules, Init(), ls).value;
             s in st.sess && t in st.sess && Live(st.sess[s]) && Live(st.sess[t])
             && st.sess[s].userId == st.sess[t].userId
    ensures s == t
    ensures var st := Run(rules, Init(), ls).value;
            var u := st.sess[s].userId;
            (forall a :: a in st.sess ==> !InWindow(st.sess[a].reader, u)) ==> u in st.sessions && st.sessions[u] == s
  {
    LifecycleSafety.InitIsOk();
    InitIsSingle();
    RunKeepsSingle(rules, Init(), ls);
    hide Run;
    var st := Run(rules, Init(), ls).value;
    assert SameLive(st.sess[s], st.sess[t]);
    assert Accounted(st, s) && SoundLogin(st.sess[s]);
  }
}
