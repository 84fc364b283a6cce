/** What users of the server may rely on about chat and group sends, over every run. */
module SendGuarantees {
  import opened Wrappers
  import opened Store
  import opened Handlers
  import opened HandlerSafety
  import Messages
  import Groups

  lemma InitHolds()
    ensures Invariant(Init())
  {
  }

  /** What every run of the server leads to. */
  ghost predicate Reachable(st: State) {
    exists ls :: Run(Init(), ls) == Some(st)
  }

  lemma ReachableHolds(st: State)
    requires Reachable(st)
    ensures Invariant(st)
  {
    var ls :| Run(Init(), ls) == Some(st);
    InitHolds();
    RunKeeps(Init(), ls);
  }

  // ----- group sends

  /** The stored row an ack or a push speaks of. */
  predicate RowOf(p: PostRow, g: int, number: int, sender: int) {
    p.group == g && p.number == number && p.sender == sender
  }

  /** Every ack names a stored message of its sender, and no two acks name the same. */
  lemma AcksNameRows(st: State, i: nat)
    requires Reachable(st) && i < |st.acks| && st.acks[i].GroupAck?
    ensures var a := st.acks[i];
            && Entry(a.origin, a.sender) in st.logins
            && (exists k :: 0 <= k < |st.db.posts| && RowOf(st.db.posts[k], a.group, a.number, a.sender))
            && 1 <= a.number <= |Groups.Posts(st.db.posts, a.group)|
            && forall j :: 0 <= j < |st.acks| && SameNumber(st.acks[j], a) ==> j == i
  {
    ReachableHolds(st);
    var a := st.acks[i];
    assert AckOk(st, a);
    NumberBound(st.db, a.group, a.number, a.sender);
    var k :| 0 <= k < |st.db.posts| && st.db.posts[k].group == a.group && st.db.posts[k].number == a.number && st.db.posts[k].sender == a.sender;
    assert RowOf(st.db.posts[k], a.group, a.number, a.sender);
    assert Groups.PostOk(st.db, k);
    forall j | 0 <= j < |st.acks| && SameNumber(st.acks[j], a) ensures j == i {
      assert i < j ==> !SameNumber(st.acks[i], st.acks[j]);
    }
  }

  /**
   A group push carries a stored message, was acknowledged to the sender, and goes to a session
   that has logged in as a member other than the sender.
   */
  lemma GroupPushesMatch(st: State, i: nat)
    requires Reachable(st) && i < |st.pushes| && st.pushes[i].GroupPush?
    ensures var p := st.pushes[i];
            && PostedAs(st.db, p.group, p.number, p.sender, p.content, p.msgType)
            && IsMember(st.db, p.group, p.sender) && IsMember(st.db, p.group, p.recipient)
            && Entry(p.target, p.recipient) in st.logins && p.recipient != p.sender
            && GroupAck(p.origin, p.sender, p.group, p.number) in st.acks
  {
    ReachableHolds(st);
    var p := st.pushes[i];
    assert PushOk(st, p);
    var k :| 0 <= k < |st.db.posts| && IsPost(st.db.posts[k], p.group, p.number, p.sender, p.content, p.msgType);
    assert st.db.posts[k] in st.db.posts;
  }

  /** The session has logged in as two members of the group. */
  predicate TwoMembers(st: State, target: Sid, g: int, u: int, v: int) {
    u != v && IsMember(st.db, g, u) && IsMember(st.db, g, v) && Entry(target, u) in st.logins && Entry(target, v) in st.logins
  }

  /**
   From one session to another the numbers within a group never fall, whoever the sessions belong
   to by then; and a message is pushed to a session twice only if that session has logged in as
   two members, one for each push. Different origins never push the same message.
   */
  lemma GroupPushesOrdered(st: State, i: nat, j: nat)
    requires Reachable(st) && i < j < |st.pushes|
    requires st.pushes[i].GroupPush? && st.pushes[j].GroupPush?
    requires st.pushes[i].group == st.pushes[j].group && st.pushes[i].target == st.pushes[j].target
    ensures var p, q := st.pushes[i], st.pushes[j];
            && (p.origin == q.origin ==> p.number <= q.number)
            && (p.number == q.number ==> p.origin == q.origin && TwoMembers(st, p.target, p.group, p.recipient, q.recipient))
  {
    ReachableHolds(st);
    var p, q := st.pushes[i], st.pushes[j];
    assert InOrder(p, q);
    GroupPushesMatch(st, i);
    GroupPushesMatch(st, j);
    if p.number == q.number {
      var a, b := GroupAck(p.origin, p.sender, p.group, p.number), GroupAck(q.origin, q.sender, q.group, q.number);
      var m :| 0 <= m < |st.acks| && st.acks[m] == a;
      var n :| 0 <= n < |st.acks| && st.acks[n] == b;
      AcksNameRows(st, m);
      assert SameNumber(b, a) ==> n == m;
    }
  }

  /** Every session has logged in as one user only. */
  predicate OneUserEach(st: State) {
    forall e, f :: e in st.logins && f in st.logins && e.s == f.s ==> e.u == f.u
  }

  /** If every session logs in as one user only, the numbers strictly rise and no message is pushed to a session twice. */
  lemma OneUserOrdered(st: State, i: nat, j: nat)
    requires Reachable(st) && OneUserEach(st) && i < j < |st.pushes|
    requires st.pushes[i].GroupPush? && st.pushes[j].GroupPush?
    requires st.pushes[i].group == st.pushes[j].group && st.pushes[i].target == st.pushes[j].target
    ensures st.pushes[i].number != st.pushes[j].number
    ensures st.pushes[i].origin == st.pushes[j].origin ==> st.pushes[i].number < st.pushes[j].number
    ensures st.pushes[i].target in st.user && st.user[st.pushes[i].target] == st.pushes[i].recipient
  {
    GroupPushesOrdered(st, i, j);
    GroupPushesMatch(st, i);
    OneUserIsCurrent(st, st.pushes[i].target, st.pushes[i].recipient);
  }

  lemma OneUserIsCurrent(st: State, s: Sid, u: int)
    requires Reachable(st) && OneUserEach(st) && Entry(s, u) in st.logins
    ensures s in st.user && st.user[s] == u
  {
    ReachableHolds(st);
    var ls :| Run(Init(), ls) == Some(st);
    LoginsHaveUsers(Init(), ls);
    assert Entry(s, st.user[s]) in st.logins;
  }

  ghost predicate LoginsKnown(st: State) {
    forall e :: e in st.logins ==> e.s in st.user
  }

  lemma {:induction false} LoginsHaveUsers(st: State, ls: seq<Label>)
    requires LoginsKnown(st) && Run(st, ls).Some?
    ensures LoginsKnown(Run(st, ls).value)
    decreases |ls|
  {
    if ls != [] {
      var next := Next(st, ls[0]).value;
      assert LoginsKnown(next) by {
        hide Apply;
        hide SaveMessage;
        hide SendGroupMessage;
        hide Groups.MemberIds;
        hide HasUser;
        hide IsMember;
      }
      hide Next;
      LoginsHaveUsers(next, ls[1..]);
    }
  }

  /** And a session can come to be registered under any two users: a second login during its shutdown is not refused. */
  lemma RegisteredTwice(st: State, t: Sid, u: int, v: int)
    requires t !in st.user && HasUser(st.db, u) && HasUser(st.db, v) && u != v
    ensures var end := Run(st, [Login(t, u), Close(t), Login(t, v)]);
            && end.Some? && end.value.db == st.db && end.value.pushes == st.pushes
            && u in end.value.registry && v in end.value.registry && end.value.registry[u] == end.value.registry[v] == t
  {
    var ls := [Login(t, u), Close(t), Login(t, v)];
    var one := Next(st, ls[0]).value;
    var two := Next(one, ls[1]).value;
    hide HasUser;
    assert At(two, t) && two.pcs[t].Idle? && t in two.closing;
    assert ls[1..] == [ls[1], ls[2]] && ls[1..][1..] == [ls[2]] && [ls[2]][1..] == [];
    var three := Next(two, ls[2]).value;
    assert Run(three, []) == Some(three);
    assert Run(two, [ls[2]]) == Some(three);
    assert Run(one, ls[1..]) == Some(three);
  }

  /** Check-then-act is sound: authors are members when their message is stored and ever after. */
  lemma AuthorsStayMembers(st: State, ls: seq<Label>, i: nat)
    requires Reachable(st) && Run(st, ls).Some? && i < |st.db.posts|
    ensures var later := Run(st, ls).value;
            && i < |later.db.posts| && later.db.posts[i] == st.db.posts[i]
            && IsMember(later.db, later.db.posts[i].group, later.db.posts[i].sender)
  {
    ReachableHolds(st);
    RunGrows(st, ls);
    var p := st.db.posts[i];
    assert p in st.db.posts;
    MembersStay(st.db, Run(st, ls).value.db);
  }

  lemma NextGrows(st: State, l: Label)
    requires Invariant(st) && Next(st, l).Some?
    ensures Grows(st.db, Next(st, l).value.db)
  {
    hide Grows;
    hide Apply;
    match l
    case Other(op) => ApplyGrows(st.db, op);
    case ChatSave(s, recipient, content, msgType, now) => SaveGrows(st.db, st.user[s], recipient, content, msgType, now);
    case GroupStore(s, now) => PostGrows(st.db, st.pcs[s].group, st.user[s], st.pcs[s].content, st.pcs[s].msgType, now);
    case _ => GrowsSame(st.db);
  }

  lemma SaveGrows(db: Db, sender: int, recipient: int, content: string, msgType: int, now: int)
    ensures Grows(db, SaveMessage(db, sender, recipient, content, msgType, now).db)
  {
    ApplyGrows(db, OpSave(sender, recipient, content, msgType, now));
  }

  lemma PostGrows(db: Db, g: int, sender: int, content: string, msgType: int, now: int)
    ensures Grows(db, SendGroupMessage(db, g, sender, content, msgType, now).db)
  {
    ApplyGrows(db, OpPost(g, sender, content, msgType, now));
  }

  lemma {:induction false} RunGrows(st: State, ls: seq<Label>)
    requires Invariant(st) && Run(st, ls).Some?
    ensures Grows(st.db, Run(st, ls).value.db)
    decreases |ls|
  {
    hide Invariant;
    hide Next;
    if ls == [] {
      GrowsSame(st.db);
    } else {
      var next := Next(st, ls[0]).value;
      NextKeeps(st, ls[0]);
      NextGrows(st, ls[0]);
      RunGrows(next, ls[1..]);
      GrowsTransitive(st.db, next.db, Run(st, ls).value.db);
    }
  }

  // ----- chat sends

  /**
   A chat push carries the id its sender was given, and goes to a session that has logged in as the
   recipient. If the recipient was a user when the message was saved, the id is that of a stored
   message with the same sender, recipient and type, and with the same content exactly if the
   content holds no NUL; otherwise the id is -1.
   */
  lemma ChatPushesMatch(st: State, i: nat)
    requires Reachable(st) && i < |st.pushes| && st.pushes[i].ChatPush?
    ensures var p := st.pushes[i];
            && ChatAck(p.origin, p.sender, p.id) in st.acks
            && Entry(p.target, p.recipient) in st.logins && Entry(p.origin, p.sender) in st.logins
            && (OneUserEach(st) ==> p.target in st.user && st.user[p.target] == p.recipient)
            && (p.known <==> p.id != -1)
            && (p.known ==>
                  && 1 <= p.id <= |st.db.messages|
                  && var r := st.db.messages[p.id - 1];
                     && r.id == p.id && r.sender == p.sender && r.recipient == p.recipient && r.msgType == p.msgType
                     && (r.content == p.content <==> NulFree(p.content)))
  {
    ReachableHolds(st);
    var p := st.pushes[i];
    assert PushOk(st, p);
    StoredWhole(p.content);
    if OneUserEach(st) {
      OneUserIsCurrent(st, p.target, p.recipient);
    }
  }

  /** Every save is followed at once by its notification: the handler as one step. */
  predicate Atomic(ls: seq<Label>) {
    forall i :: 0 <= i < |ls| && ls[i].ChatSave? ==> i + 1 < |ls| && ls[i + 1] == ChatNotify(ls[i].s)
  }

  predicate Settled(st: State) {
    && (forall s :: s in st.pcs ==> !st.pcs[s].ChatSaved?)
    && (forall p :: p in st.pushes && p.ChatPush? ==> p.known)
  }

  /** With the registry as it was at the save, a recipient who can be found is a user. */
  lemma AtOnce(st: State, l: Label)
    requires l.ChatSave? && Invariant(st) && Settled(st)
    requires Next(st, l).Some? && Next(Next(st, l).value, ChatNotify(l.s)).Some?
    ensures Settled(Next(Next(st, l).value, ChatNotify(l.s)).value)
  {
    var saved := Next(st, l).value;
    assert saved.registry == st.registry;
    assert l.recipient in st.registry ==> HasUser(st.db, l.recipient);
    hide Invariant;
    hide SaveMessage;
    hide HasUser;
  }

  lemma OthersSettle(st: State, l: Label)
    requires !l.ChatSave? && Settled(st) && Next(st, l).Some?
    ensures Settled(Next(st, l).value)
  {
    hide Apply;
    hide SendGroupMessage;
    hide Groups.MemberIds;
    hide HasUser;
    hide IsMember;
  }

  /** Where the first handler of an atomic run leads. */
  lemma HandlerAtOnce(st: State, ls: seq<Label>)
    requires Invariant(st) && Settled(st) && Atomic(ls) && ls != [] && ls[0].ChatSave? && Run(st, ls).Some?
    ensures |ls| >= 2 && Next(st, ls[0]).Some?
    ensures var next := Next(Next(st, ls[0]).value, ls[1]);
            next.Some? && Run(next.value, ls[2..]) == Run(st, ls) && Settled(next.value) && Invariant(next.value)
  {
    assert ls[1] == ChatNotify(ls[0].s);
    assert ls[1..] != [] && ls[1..][0] == ls[1] && ls[1..][1..] == ls[2..];
    hide Atomic;
    hide Invariant;
    hide Settled;
    hide Next;
    var saved := Next(st, ls[0]).value;
    NextKeeps(st, ls[0]);
    assert Run(saved, ls[1..]).Some?;
    NextKeeps(saved, ls[1]);
    AtOnce(st, ls[0]);
  }

  lemma {:induction false} AtomicSettles(st: State, ls: seq<Label>)
    requires Invariant(st) && Settled(st) && Atomic(ls) && Run(st, ls).Some?
    ensures Settled(Run(st, ls).value)
    decreases |ls|
  {
    hide Invariant;
    hide Settled;
    hide Next;
    if ls != [] {
      if ls[0].ChatSave? {
        HandlerAtOnce(st, ls);
        AtomicSettles(Next(Next(st, ls[0]).value, ls[1]).value, ls[2..]);
      } else {
        NextKeeps(st, ls[0]);
        OthersSettle(st, ls[0]);
        AtomicSettles(Next(st, ls[0]).value, ls[1..]);
      }
    }
  }

  /**
   Push matches store: if the chat handler runs as one step, every chat push carries the id of a
   stored message, because everyone the registry knows is a user and the foreign keys hold.
   */
  lemma AtomicPushesAreStored(ls: seq<Label>, i: nat)
    requires Atomic(ls) && Run(Init(), ls).Some?
    requires i < |Run(Init(), ls).value.pushes| && Run(Init(), ls).value.pushes[i].ChatPush?
    ensures var st := Run(Init(), ls).value;
            var p := st.pushes[i];
            && p.id != -1 && ChatAck(p.origin, p.sender, p.id) in st.acks
            && SavedAs(st.db, p.id, p.sender, p.recipient, p.content, p.msgType)
            && (NulFree(p.content) ==> st.db.messages[p.id - 1].content == p.content)
  {
    var st := Run(Init(), ls).value;
    InitHolds();
    AtomicSettles(Init(), ls);
    RunKeeps(Init(), ls);
    var p := st.pushes[i];
    assert p in st.pushes;
    assert PushOk(st, p);
    StoredWhole(p.content);
  }

  // ----- interleaved, the id can be -1

  /** The next user registers and logs in between the save and the lookup. */
  function Straggler(st: State, s: Sid, t: Sid, name: string, text: string): seq<Label> {
    var u := |st.db.users| + 1;
    [ChatSave(s, u, text, 1, 0), Other(OpRegister(name, name, true)), Login(t, u), ChatNotify(s)]
  }

  predicate NameFree(db: Db, name: string) {
    forall i :: 0 <= i < |db.users| ==> db.users[i].username != Stored(name)
  }

  /** Whoever registers next gets the next id, which nobody had. */
  lemma RegisterNext(db: Db, name: string)
    requires Messages.MessagesOk(db) && NameFree(db, name)
    ensures var later := Apply(db, OpRegister(name, name, true));
            && !HasUser(db, |db.users| + 1) && HasUser(later, |db.users| + 1) && later.messages == db.messages
  {
    var later := Apply(db, OpRegister(name, name, true));
    assert later.users[|db.users|].id == |db.users| + 1;
  }

  /**
   If the steps of two handlers interleave, a push can carry the id -1 of a message that was never
   stored: wherever a session can send, it takes only somebody new who registers and logs in
   between its save and its lookup.
   */
  lemma StragglerIsPushed(st: State, s: Sid, t: Sid, name: string, text: string) returns (end: State)
    requires Reachable(st) && At(st, s) && Ready(st, s) && t !in st.user && NameFree(st.db, name) && text != []
    ensures Run(st, Straggler(st, s, t, name, text)) == Some(end)
    ensures end.db.messages == st.db.messages && end.acks == st.acks + [ChatAck(s, st.user[s], -1)]
    ensures end.pushes == st.pushes + [ChatPush(s, t, |st.db.users| + 1, -1, st.user[s], text, 1, false)]
  {
    ReachableHolds(st);
    RegisterNext(st.db, name);
    assert !At(st, t);
    hide Invariant;
    hide Run;
    hide Reachable;
    end := StragglerRun(st, s, t, name, text);
  }

  lemma StragglerRun(st: State, s: Sid, t: Sid, name: string, text: string) returns (end: State)
    requires At(st, s) && Ready(st, s) && !At(st, t) && text != []
    requires var later := Apply(st.db, OpRegister(name, name, true));
             && !HasUser(st.db, |st.db.users| + 1) && HasUser(later, |st.db.users| + 1) && later.messages == st.db.messages
    ensures Run(st, Straggler(st, s, t, name, text)) == Some(end)
    ensures end.db.messages == st.db.messages && end.acks == st.acks + [ChatAck(s, st.user[s], -1)]
    ensures end.pushes == st.pushes + [ChatPush(s, t, |st.db.users| + 1, -1, st.user[s], text, 1, false)]
  {
    hide Run;
    hide HasUser;
    hide Apply;
    hide NextChat;
    hide NextGroup;
    var ls, u := Straggler(st, s, t, name, text), |st.db.users| + 1;
    var one := SaveToNobody(st, s, u, text);
    var two := one.(db := Apply(st.db, OpRegister(name, name, true)));
    assert Next(one, ls[1]) == Some(two);
    hide Next;
    var three;
    three, end := ArriveAndNotify(two, s, t, u);
    FourSteps(st, ls, one, two, three, end);
  }

  lemma FourSteps(st: State, ls: seq<Label>, one: State, two: State, three: State, four: State)
    requires |ls| == 4 && Next(st, ls[0]) == Some(one) && Next(one, ls[1]) == Some(two)
    requires Next(two, ls[2]) == Some(three) && Next(three, ls[3]) == Some(four)
    ensures Run(st, ls) == Some(four)
  {
    hide Next;
    Unroll(three, ls[3..], four);
    Unroll(two, ls[2..], three);
    Unroll(one, ls[1..], two);
    Unroll(st, ls, one);
  }

  lemma SaveToNobody(st: State, s: Sid, u: int, text: string) returns (one: State)
    requires At(st, s) && Ready(st, s) && !HasUser(st.db, u) && u != 0 && text != []
    ensures Next(st, ChatSave(s, u, text, 1, 0)) == Some(one)
    ensures one == WithPc(st, s, ChatSaved(u, -1, text, 1, false)).(acks := st.acks + [ChatAck(s, st.user[s], -1)])
  {
    hide HasUser;
    one := Next(st, ChatSave(s, u, text, 1, 0)).value;
  }

  lemma ArriveAndNotify(st: State, s: Sid, t: Sid, u: int) returns (three: State, four: State)
    requires At(st, s) && st.pcs[s].ChatSaved? && st.pcs[s].recipient == u && !At(st, t) && s != t && HasUser(st.db, u)
    ensures Next(st, Login(t, u)) == Some(three) && Next(three, ChatNotify(s)) == Some(four)
    ensures four.db == st.db && four.acks == st.acks
    ensures var pc := st.pcs[s];
            four.pushes == st.pushes + [ChatPush(s, t, u, pc.id, st.user[s], pc.content, pc.msgType, pc.known)]
  {
    hide HasUser;
    three := Next(st, Login(t, u)).value;
    assert three.registry[u] == t && three.pcs[s] == st.pcs[s] && three.user[s] == st.user[s];
    four := Next(three, ChatNotify(s)).value;
  }

  lemma Unroll(st: State, ls: seq<Label>, next: State)
    requires ls != [] && Next(st, ls[0]) == Some(next)
    ensures Run(st, ls) == Run(next, ls[1..])
  {
  }

  /** Such a state is two steps from the start: somebody registers and logs in. */
  lemma SomebodyCanSend(name: string)
    ensures var ls := [Other(OpRegister(name, name, true)), Login(0, 1)];
            var run := Run(Init(), ls);
            run.Some? && Reachable(run.value) && At(run.value, 0) && Ready(run.value, 0) && run.value.user.Keys == {0}
  {
    var ls := [Other(OpRegister(name, name, true)), Login(0, 1)];
    RegisterNext(Empty(), name);
    hide Apply;
    hide HasUser;
    var one := Next(Init(), ls[0]).value;
    var two := Next(one, ls[1]).value;
    assert ls[1..] == [ls[1]] && [ls[1]][1..] == [];
    Unroll(one, [ls[1]], two);
    Unroll(Init(), ls, one);
    assert Run(Init(), ls) == Some(two);
  }
}
