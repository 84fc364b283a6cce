/**
 The life of all sessions together: the acceptor, one reader and one writer thread per session,
 and the two registries, as a transition system whose steps are the mutex blocks and atomic
 operations of the code. Thread interleaving is the order of the labels.
 */
module Lifecycle {
  import opened Wrappers
  import opened Registry

  type Sid = nat
  type Uid = int

  datatype Role = Reader | Writer

  /** Where `handleAuthLogin` is, after the credentials were found good. */
  datatype Login =
    | Kick(uid: Uid)
    | CloseOld(uid: Uid, prior: Option<Sid>)
    | SetUser(uid: Uid)
    | GetSelf(uid: Uid)
    | Register(uid: Uid)

  /** Where `shutdown` is: `Swap` is the compare-and-swap, the rest is its winner's work. */
  datatype Closing = Swap | Mark | CloseFd | Join | Unregister | Remove | Uncount

  datatype Pc = Unborn | Looping | LoggingIn(login: Login) | ShuttingDown(at: Closing) | Ended

  /** History: `winner`, the thread whose compare-and-swap succeeded; `logins`, how often `setLoggedIn` ran. */
  datatype Session = Session(
    state: SessionState, userId: Uid, running: bool, open: bool,
    reader: Pc, writer: Pc, winner: Option<Role>, logins: nat)

  /** `Added` and `Counted` lie between `addSession`, the increment and `start`. */
  datatype Acceptor = Waiting | Admitted | Added(s: Sid) | Counted(s: Sid)

  datatype System = System(
    sess: map<Sid, Session>, sessions: map<Uid, Sid>, all: seq<Sid>,
    count: int, acceptor: Acceptor, users: set<Uid>)

  datatype Label =
    | Check                          // the connection limit is tested
    | Add(s: Sid)                    // addSession
    | Count                          // fetch_add
    | Launch                         // start
    | NewUser(u: Uid)                // somebody registers
    | Authenticate(s: Sid, u: Uid)   // a login passes the guard and the password
    | LoginStep(s: Sid)              // the next critical section of that login
    | LeaveLoop(s: Sid, role: Role)  // a thread leaves its loop and calls shutdown
    | QuitWriter(s: Sid)             // the writer sees the flag down and just ends
    | ShutdownStep(s: Sid, role: Role)

  /**
   Restrictions on the steps, for the properties the code does not have without them.
   `loyal`: a session that is still registered under one user does not become another user.
   `serial`: a login does not kick while another login of the same user is between its kick and
   its registration, unless neither of the two sessions can be live any more.
   */
  datatype Rules = Rules(loyal: bool, serial: bool)

  function Init(): System {
    System(map[], map[], [], 0, Waiting, {})
  }

  function PcOf(x: Session, role: Role): Pc {
    if role.Reader? then x.reader else x.writer
  }

  function WithPc(x: Session, role: Role, pc: Pc): Session {
    if role.Reader? then x.(reader := pc) else x.(writer := pc)
  }

  function Other(role: Role): Role {
    if role.Reader? then Writer else Reader
  }

  function Put(st: System, s: Sid, x: Session): System {
    st.(sess := st.sess[s := x])
  }

  function Newborn(): Session {
    Session(CONNECTED, 0, true, true, Unborn, Unborn, None, 0)
  }

  /** A login of this user that has kicked and not yet registered. */
  predicate InWindow(pc: Pc, u: Uid) {
    pc.LoggingIn? && !pc.login.Kick? && pc.login.uid == u
  }

  predicate RegisteredOnlyAs(st: System, s: Sid, u: Uid) {
    forall v :: v in st.sessions && st.sessions[v] == s ==> v == u
  }

  /** The session is not shutting down, and nobody has closed its socket. */
  predicate Able(x: Session) {
    x.running && x.open
  }

  /** No login of this user overlaps with the one of this session in a way that matters. */
  predicate NoOverlap(st: System, s: Sid, u: Uid)
    requires s in st.sess
  {
    forall t :: t in st.sess && t != s && InWindow(st.sess[t].reader, u) ==> !Able(st.sess[t]) && !Able(st.sess[s])
  }

  function NextAccept(st: System, l: Label): Option<System>
    requires l.Check? || l.Add? || l.Count? || l.Launch?
  {
    match l
    case Check =>
      if !st.acceptor.Waiting? then None
      else Some(if st.count >= MAX_CONNECTIONS then st else st.(acceptor := Admitted))
    case Add(s) =>
      if !st.acceptor.Admitted? || s in st.sess then None
      else Some(Put(st, s, Newborn()).(all := st.all + [s], acceptor := Added(s)))
    case Count =>
      if !st.acceptor.Added? then None
      else Some(st.(count := st.count + 1, acceptor := Counted(st.acceptor.s)))
    case Launch =>
      if !st.acceptor.Counted? || st.acceptor.s !in st.sess then None
      else
        var s := st.acceptor.s;
        var idle := st.(acceptor := Waiting);
        Some(if s in st.all then Put(idle, s, st.sess[s].(reader := Looping, writer := Looping)) else idle)
  }

  /** What a login step does to its own session. */
  function AdvanceLogin(x: Session, prior: Option<Sid>, listed: bool): Session
    requires x.reader.LoggingIn?
  {
    match x.reader.login
    case Kick(u) => x.(reader := LoggingIn(CloseOld(u, prior)))
    case CloseOld(u, _) => x.(reader := LoggingIn(SetUser(u)))
    case SetUser(u) => x.(userId := u, state := LOGGED_IN, logins := x.logins + 1, reader := LoggingIn(GetSelf(u)))
    case GetSelf(u) => x.(reader := if listed then LoggingIn(Register(u)) else Looping)
    case Register(u) => x.(reader := Looping)
  }

  function Registrant(st: System, u: Uid): Option<Sid> {
    if u in st.sessions then Some(st.sessions[u]) else None
  }

  function Closed(st: System, s: Option<Sid>): System {
    if s.Some? && s.value in st.sess then Put(st, s.value, st.sess[s.value].(open := false)) else st
  }

  function NextLogin(rules: Rules, st: System, s: Sid): Option<System>
    requires s in st.sess && st.sess[s].reader.LoggingIn?
  {
    var x := st.sess[s];
    var u := x.reader.login.uid;
    var moved := Put(st, s, AdvanceLogin(x, Registrant(st, u), s in st.all));
    match x.reader.login
    case Kick(_) =>
      if rules.serial && !NoOverlap(st, s, u) then None
      else Some(moved.(sessions := st.sessions - {u}))
    case CloseOld(_, prior) =>
      var closed := Closed(st, prior);
      Some(Put(closed, s, AdvanceLogin(closed.sess[s], None, false)))
    case SetUser(_) => if rules.loyal && !RegisteredOnlyAs(st, s, u) then None else Some(moved)
    case GetSelf(_) => Some(moved)
    case Register(_) => Some(moved.(sessions := st.sessions[u := s]))
  }

  /** What a shutdown step does to its own session. */
  function Advance(x: Session, role: Role): Session
    requires PcOf(x, role).ShuttingDown?
  {
    match PcOf(x, role).at
    case Swap =>
      if x.running then WithPc(x.(running := false, winner := Some(role)), role, ShuttingDown(Mark))
      else WithPc(x, role, Ended)
    case Mark => WithPc(x.(state := CLOSING), role, ShuttingDown(CloseFd))
    case CloseFd => WithPc(x.(open := false), role, ShuttingDown(Join))
    case Join => WithPc(x, role, ShuttingDown(Unregister))
    case Unregister => WithPc(x, role, ShuttingDown(Remove))
    case Remove => WithPc(x, role, ShuttingDown(Uncount))
    case Uncount => WithPc(x, role, Ended)
  }

  function NextShutdown(st: System, s: Sid, role: Role): Option<System>
    requires s in st.sess && PcOf(st.sess[s], role).ShuttingDown?
  {
    var x := st.sess[s];
    var moved := Put(st, s, Advance(x, role));
    match PcOf(x, role).at
    case Join => if PcOf(x, Other(role)).Ended? then Some(moved) else None
    case Unregister => Some(moved.(sessions := Unregistered(st.sessions, x.userId, s)))
    case Remove => Some(moved.(all := Without(st.all, s)))
    case Uncount => Some(moved.(count := st.count - 1))
    case _ => Some(moved)
  }

  /** None when the step cannot happen. */
  function Next(rules: Rules, st: System, l: Label): Option<System> {
    match l
    case NewUser(u) => Some(st.(users := st.users + {u}))
    case Authenticate(s, u) =>
      if s !in st.sess || !st.sess[s].reader.Looping? || st.sess[s].state.LOGGED_IN? || u !in st.users then None
      else Some(Put(st, s, st.sess[s].(reader := LoggingIn(Kick(u)))))
    case LoginStep(s) =>
      if s !in st.sess || !st.sess[s].reader.LoggingIn? then None else NextLogin(rules, st, s)
    case LeaveLoop(s, role) =>
      if s !in st.sess || !PcOf(st.sess[s], role).Looping? || (role.Writer? && !st.sess[s].running) then None
      else Some(Put(st, s, WithPc(st.sess[s], role, ShuttingDown(Swap))))
    case QuitWriter(s) =>
      if s !in st.sess || !st.sess[s].writer.Looping? || st.sess[s].running then None
      else Some(Put(st, s, st.sess[s].(writer := Ended)))
    case ShutdownStep(s, role) =>
      if s !in st.sess || !PcOf(st.sess[s], role).ShuttingDown? then None else NextShutdown(st, s, role)
    case _ => NextAccept(st, l)
  }

  function Run(rules: Rules, st: System, ls: seq<Label>): Option<System>
    decreases |ls|
  {
    if ls == [] then Some(st)
    else
      match Next(rules, st, ls[0])
      case None => None
      case Some(next) => Run(rules, next, ls[1..])
  }

  lemma {:induction false} RunThenRun(rules: Rules, st: System, ls: seq<Label>, more: seq<Label>)
    requires Run(rules, st, ls).Some?
    ensures Run(rules, st, ls + more) == Run(rules, Run(rules, st, ls).value, more)
    decreases |ls|
  {
    hide Next;
    if ls == [] {
      assert ls + more == more;
    } else {
      assert (ls + more)[1..] == ls[1..] + more;
      RunThenRun(rules, Next(rules, st, ls[0]).value, ls[1..], more);
    }
  }

  // ----- what every step keeps, whatever the rules

  /** Where the winner of the compare-and-swap is. */
  function WinnerPc(x: Session): Pc
    requires x.winner.Some?
  {
    PcOf(x, x.winner.value)
  }

  /** The winner has joined the other thread. */
  predicate Joined(x: Session) {
    x.winner.Some? && match WinnerPc(x)
                      case Ended => true
                      case ShuttingDown(at) => at.Unregister? || at.Remove? || at.Uncount?
                      case _ => false
  }

  predicate Unmapped(x: Session) {
    Joined(x) && WinnerPc(x) != ShuttingDown(Unregister)
  }

  predicate Unlisted(x: Session) {
    Unmapped(x) && WinnerPc(x) != ShuttingDown(Remove)
  }

  predicate Uncounting(x: Session) {
    x.winner.Some? && WinnerPc(x) == ShuttingDown(Uncount)
  }

  /** The shutdown of the session is complete. */
  predicate Finished(x: Session) {
    x.winner.Some? && WinnerPc(x).Ended?
  }

  predicate ThreadOk(x: Session, role: Role) {
    var pc := PcOf(x, role);
    && (pc.ShuttingDown? && pc.at != Swap ==> x.winner == Some(role))
    && (x.winner == Some(role) ==> pc.Ended? || (pc.ShuttingDown? && pc.at != Swap))
    && (x.winner == Some(role) && Joined(x) ==> PcOf(x, Other(role)).Ended?)
    && (pc.Ended? ==> !x.running)
    && (pc.Unborn? ==> x.(open := true) == Newborn())
  }

  predicate SessionOk(x: Session) {
    && (x.running <==> x.winner.None?)
    && ThreadOk(x, Reader) && ThreadOk(x, Writer)
    && !x.writer.LoggingIn?
    && (x.reader.LoggingIn? && (x.reader.login.Kick? || x.reader.login.CloseOld? || x.reader.login.SetUser?)
        ==> !x.state.LOGGED_IN?)
  }

  /** Every session is in order, and a session is listed until its shutdown has removed it. */
  ghost predicate SessionsOk(st: System) {
    && (forall s :: s in st.sess ==> SessionOk(st.sess[s]))
    && (forall s :: s in st.sess && st.sess[s].reader.LoggingIn? ==> st.sess[s].reader.login.uid in st.users)
    && (forall s :: s in st.sess ==> (st.sess[s].reader.Unborn? <==> st.acceptor == Added(s) || st.acceptor == Counted(s)))
    && (st.acceptor.Added? || st.acceptor.Counted? ==> st.acceptor.s in st.sess)
    && NoDuplicates(st.all)
    && (forall s :: s in st.all <==> s in st.sess && !Unlisted(st.sess[s]))
    && (forall u :: u in st.sessions ==> st.sessions[u] in st.sess && u in st.users)
  }

  ghost function UncountingSet(st: System): set<Sid> {
    set s | s in st.sess && Uncounting(st.sess[s])
  }

  function NotYetCounted(a: Acceptor): nat {
    if a.Added? then 1 else 0
  }

  /** The counter against the list: one add not yet counted, removals not yet uncounted. */
  ghost predicate CountOk(st: System) {
    && st.count == |st.all| + |UncountingSet(st)| - NotYetCounted(st.acceptor)
    && st.count <= MAX_CONNECTIONS
    && (st.acceptor.Admitted? || st.acceptor.Added? ==> st.count < MAX_CONNECTIONS)
  }

  ghost predicate Invariant(st: System) {
    SessionsOk(st) && CountOk(st)
  }

  lemma AcceptKeeps(st: System, l: Label)
    requires l.Check? || l.Add? || l.Count? || l.Launch?
    requires Invariant(st) && NextAccept(st, l).Some?
    ensures Invariant(NextAccept(st, l).value)
  {
    var next := NextAccept(st, l).value;
    if l.Add? {
      AddKeeps(st, l.s);
    } else if l.Launch? {
      LaunchKeeps(st);
    } else {
      assert UncountingSet(next) == UncountingSet(st);
    }
  }

  lemma AddKeeps(st: System, s: Sid)
    requires Invariant(st) && NextAccept(st, Add(s)).Some?
    ensures Invariant(NextAccept(st, Add(s)).value)
  {
    var next := NextAccept(st, Add(s)).value;
    assert SessionOk(Newborn()) && !Unlisted(Newborn()) && !Uncounting(Newborn()) && Newborn().reader.Unborn?;
    hide SessionOk;
    hide Unlisted;
    hide Uncounting;
    hide Newborn;
    assert s !in st.all;
    assert SessionsOk(next) by {
      hide CountOk;
    }
    hide SessionsOk;
    assert UncountingSet(next) == UncountingSet(st);
  }

  lemma LaunchKeeps(st: System)
    requires Invariant(st) && NextAccept(st, Launch).Some?
    ensures Invariant(NextAccept(st, Launch).value)
  {
    var next := NextAccept(st, Launch).value;
    var x := st.sess[st.acceptor.s];
    var y := x.(reader := Looping, writer := Looping);
    LaunchedOk(x);
    hide SessionOk;
    hide Unlisted;
    hide Uncounting;
    assert SessionsOk(next) by {
      hide CountOk;
    }
    hide SessionsOk;
    assert UncountingSet(next) == UncountingSet(st);
  }

  lemma LaunchedOk(x: Session)
    requires SessionOk(x) && x.reader.Unborn?
    ensures var y := x.(reader := Looping, writer := Looping);
            SessionOk(y) && !Unlisted(x) && !Unlisted(y) && !Uncounting(x) && !Uncounting(y)
  {
  }

  /** A step that changes one session, short of listing or uncounting it. */
  lemma PutKeeps(st: System, s: Sid, y: Session)
    requires Invariant(st) && s in st.sess && SessionOk(y)
    requires y.reader.Unborn? <==> st.sess[s].reader.Unborn?
    requires y.reader.LoggingIn? ==> y.reader == st.sess[s].reader || y.reader.login.uid in st.users
    requires Unlisted(y) == Unlisted(st.sess[s]) && Uncounting(y) == Uncounting(st.sess[s])
    ensures Invariant(Put(st, s, y))
  {
    hide SessionOk;
    hide Unlisted;
    hide Uncounting;
    assert UncountingSet(Put(st, s, y)) == UncountingSet(st);
  }

  lemma SessionIsOk(st: System, s: Sid)
    requires Invariant(st) && s in st.sess
    ensures SessionOk(st.sess[s])
    ensures st.sess[s].reader.LoggingIn? ==> st.sess[s].reader.login.uid in st.users
  {
  }

  /** Entries may leave the user registry, and known users may join it with a known session. */
  lemma SessionsChange(st: System, m: map<Uid, Sid>)
    requires Invariant(st)
    requires forall u :: u in m ==> u in st.users && m[u] in st.sess
    ensures Invariant(st.(sessions := m))
  {
    hide SessionOk;
    hide Unlisted;
    hide Uncounting;
    assert UncountingSet(st.(sessions := m)) == UncountingSet(st);
  }

  lemma LeaveLoopOk(x: Session, role: Role)
    requires SessionOk(x) && PcOf(x, role).Looping?
    ensures var y := WithPc(x, role, ShuttingDown(Swap));
            SessionOk(y) && !y.reader.Unborn? && (y.reader.LoggingIn? ==> y.reader == x.reader)
            && !x.reader.Unborn? && Unlisted(y) == Unlisted(x) && Uncounting(y) == Uncounting(x)
  {
  }

  lemma QuitWriterOk(x: Session)
    requires SessionOk(x) && x.writer.Looping? && !x.running
    ensures var y := x.(writer := Ended);
            SessionOk(y) && Unlisted(y) == Unlisted(x) && Uncounting(y) == Uncounting(x)
  {
  }

  lemma AuthenticateOk(x: Session, u: Uid)
    requires SessionOk(x) && x.reader.Looping? && !x.state.LOGGED_IN?
    ensures var y := x.(reader := LoggingIn(Kick(u)));
            SessionOk(y) && Unlisted(y) == Unlisted(x) && Uncounting(y) == Uncounting(x)
  {
  }

  lemma LoopKeeps(rules: Rules, st: System, l: Label)
    requires l.Authenticate? || l.LeaveLoop? || l.QuitWriter?
    requires Invariant(st) && Next(rules, st, l).Some?
    ensures Invariant(Next(rules, st, l).value)
  {
    hide SessionOk;
    hide Unlisted;
    hide Uncounting;
    hide Invariant;
    var x := st.sess[l.s];
    SessionIsOk(st, l.s);
    match l
    case Authenticate(s, u) =>
      AuthenticateOk(x, u);
      PutKeeps(st, s, x.(reader := LoggingIn(Kick(u))));
    case LeaveLoop(s, role) =>
      LeaveLoopOk(x, role);
      PutKeeps(st, s, WithPc(x, role, ShuttingDown(Swap)));
    case QuitWriter(s) =>
      QuitWriterOk(x);
      PutKeeps(st, s, x.(writer := Ended));
  }

  lemma AdvanceLoginOk(x: Session, prior: Option<Sid>, listed: bool)
    requires SessionOk(x) && x.reader.LoggingIn?
    ensures var y := AdvanceLogin(x, prior, listed);
            && SessionOk(y) && !y.reader.Unborn?
            && (y.reader.LoggingIn? ==> y.reader.login.uid == x.reader.login.uid)
            && Unlisted(y) == Unlisted(x) && Uncounting(y) == Uncounting(x)
  {
  }

  lemma ClosedOk(x: Session)
    requires SessionOk(x)
    ensures SessionOk(x.(open := false))
    ensures Unlisted(x.(open := false)) == Unlisted(x) && Uncounting(x.(open := false)) == Uncounting(x)
  {
  }

  lemma ClosedKeeps(st: System, s: Option<Sid>)
    requires Invariant(st)
    ensures Invariant(Closed(st, s))
  {
    hide SessionOk;
    hide Unlisted;
    hide Uncounting;
    hide Invariant;
    if s.Some? && s.value in st.sess {
      SessionIsOk(st, s.value);
      ClosedOk(st.sess[s.value]);
      PutKeeps(st, s.value, st.sess[s.value].(open := false));
    }
  }

  lemma LoginKeeps(rules: Rules, st: System, s: Sid)
    requires Invariant(st) && s in st.sess && st.sess[s].reader.LoggingIn?
    requires NextLogin(rules, st, s).Some?
    ensures Invariant(NextLogin(rules, st, s).value)
  {
    hide SessionOk;
    hide Unlisted;
    hide Uncounting;
    hide Invariant;
    hide AdvanceLogin;
    var x := st.sess[s];
    var u := x.reader.login.uid;
    SessionIsOk(st, s);
    if x.reader.login.CloseOld? {
      var closed := Closed(st, x.reader.login.prior);
      ClosedKeeps(st, x.reader.login.prior);
      SessionIsOk(closed, s);
      AdvanceLoginOk(closed.sess[s], None, false);
      PutKeeps(closed, s, AdvanceLogin(closed.sess[s], None, false));
    } else {
      var y := AdvanceLogin(x, Registrant(st, u), s in st.all);
      AdvanceLoginOk(x, Registrant(st, u), s in st.all);
      PutKeeps(st, s, y);
      KeysAreKnown(st);
      if x.reader.login.Kick? {
        SessionsChange(Put(st, s, y), st.sessions - {u});
      } else if x.reader.login.Register? {
        SessionsChange(Put(st, s, y), st.sessions[u := s]);
      }
    }
  }

  lemma KeysAreKnown(st: System)
    requires Invariant(st)
    ensures forall u :: u in st.sessions ==> u in st.users && st.sessions[u] in st.sess
  {
  }

  lemma AdvanceOk(x: Session, role: Role)
    requires SessionOk(x) && PcOf(x, role).ShuttingDown?
    requires PcOf(x, role).at.Join? ==> PcOf(x, Other(role)).Ended?
    ensures var y, at := Advance(x, role), PcOf(x, role).at;
            && SessionOk(y)
            && !x.reader.Unborn? && !y.reader.Unborn?
            && (y.reader.LoggingIn? ==> y.reader == x.reader)
            && (Unlisted(y) <==> Unlisted(x) || at.Remove?)
            && (Uncounting(y) <==> at.Remove? || (Uncounting(x) && !at.Uncount?))
            && (at.Remove? ==> !Unlisted(x) && !Uncounting(x))
            && (at.Uncount? ==> Uncounting(x))
  {
  }

  lemma ShutdownKeeps(st: System, s: Sid, role: Role)
    requires Invariant(st) && s in st.sess && PcOf(st.sess[s], role).ShuttingDown?
    requires NextShutdown(st, s, role).Some?
    ensures Invariant(NextShutdown(st, s, role).value)
  {
    hide Advance;
    hide SessionOk;
    hide Unlisted;
    hide Uncounting;
    hide Invariant;
    var x := st.sess[s];
    SessionIsOk(st, s);
    AdvanceOk(x, role);
    var y := Advance(x, role);
    match PcOf(x, role).at
    case Remove => RemoveKeeps(st, s, y);
    case Uncount => UncountKeeps(st, s, y);
    case Unregister =>
      PutKeeps(st, s, y);
      KeysAreKnown(st);
      SessionsChange(Put(st, s, y), Unregistered(st.sessions, x.userId, s));
    case _ => PutKeeps(st, s, y);
  }

  lemma RemoveKeepsSessions(st: System, s: Sid, y: Session)
    requires SessionsOk(st) && s in st.sess && SessionOk(y)
    requires !st.sess[s].reader.Unborn? && !y.reader.Unborn?
    requires y.reader.LoggingIn? ==> y.reader == st.sess[s].reader
    requires Unlisted(y) && !Unlisted(st.sess[s])
    ensures SessionsOk(Put(st, s, y).(all := Without(st.all, s)))
    ensures |Without(st.all, s)| == |st.all| - 1
  {
    hide SessionOk;
    hide Unlisted;
    WithoutOne(st.all, s);
    WithoutKeepsOthers(st.all, s);
    hide Without;
    hide NoDuplicates;
  }

  lemma RemoveKeeps(st: System, s: Sid, y: Session)
    requires Invariant(st) && s in st.sess && SessionOk(y)
    requires !st.sess[s].reader.Unborn? && !y.reader.Unborn?
    requires y.reader.LoggingIn? ==> y.reader == st.sess[s].reader
    requires Unlisted(y) && Uncounting(y) && !Unlisted(st.sess[s]) && !Uncounting(st.sess[s])
    ensures Invariant(Put(st, s, y).(all := Without(st.all, s)))
  {
    RemoveKeepsSessions(st, s, y);
    hide SessionOk;
    hide SessionsOk;
    hide Unlisted;
    hide Uncounting;
    hide Without;
    var next := Put(st, s, y).(all := Without(st.all, s));
    assert s !in UncountingSet(st) && UncountingSet(next) == UncountingSet(st) + {s};
    hide UncountingSet;
  }

  lemma UncountKeeps(st: System, s: Sid, y: Session)
    requires Invariant(st) && s in st.sess && SessionOk(y)
    requires !st.sess[s].reader.Unborn? && !y.reader.Unborn?
    requires y.reader.LoggingIn? ==> y.reader == st.sess[s].reader
    requires Unlisted(y) == Unlisted(st.sess[s]) && Uncounting(st.sess[s]) && !Uncounting(y)
    ensures Invariant(Put(st, s, y).(count := st.count - 1))
  {
    hide SessionOk;
    hide Unlisted;
    hide Uncounting;
    assert UncountingSet(Put(st, s, y).(count := st.count - 1)) == UncountingSet(st) - {s};
    assert s in UncountingSet(st);
  }

  lemma NextKeeps(rules: Rules, st: System, l: Label)
    requires Invariant(st) && Next(rules, st, l).Some?
    ensures Invariant(Next(rules, st, l).value)
  {
    hide Invariant;
    hide NextLogin;
    hide NextShutdown;
    hide NextAccept;
    match l
    case NewUser(u) => NewUserKeeps(st, u);
    case Authenticate(s, u) => LoopKeeps(rules, st, l);
    case LoginStep(s) => LoginKeeps(rules, st, s);
    case LeaveLoop(s, role) => LoopKeeps(rules, st, l);
    case QuitWriter(s) => LoopKeeps(rules, st, l);
    case ShutdownStep(s, role) => ShutdownKeeps(st, s, role);
    case _ => AcceptKeeps(st, l);
  }

  lemma NewUserKeeps(st: System, u: Uid)
    requires Invariant(st)
    ensures Invariant(st.(users := st.users + {u}))
  {
    hide SessionOk;
    hide Unlisted;
    hide Uncounting;
    assert UncountingSet(st.(users := st.users + {u})) == UncountingSet(st);
  }

  lemma {:induction false} RunKeeps(rules: Rules, st: System, ls: seq<Label>)
    requires Invariant(st) && Run(rules, st, ls).Some?
    ensures Invariant(Run(rules, st, ls).value)
    decreases |ls|
  {
    if ls != [] {
      hide Next;
      hide Invariant;
      NextKeeps(rules, st, ls[0]);
      RunKeeps(rules, Next(rules, st, ls[0]).value, ls[1..]);
    }
  }
}
