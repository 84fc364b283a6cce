/**
 The chat and group send handlers (wx-server/src/session.cpp) as steps over the database and the
 user registry: each database call and each registry lookup is one step, and the handlers of
 different sessions, other database calls, logins and disconnects interleave freely.
 */
module Handlers {
  import opened Wrappers
  import opened Store
  import Messages
  import Groups

  type Sid = nat

  /** Where the handler of a session is. `known` is history: the recipient was a user when the message was saved. */
  datatype Pc =
    | Idle
    | ChatSaved(recipient: int, id: int, content: string, msgType: int, known: bool)
    | GroupChecked(group: int, content: string, msgType: int)
    | GroupStored(group: int, number: int, content: string, msgType: int)
    | Pushing(group: int, number: int, content: string, msgType: int, members: seq<int>, next: nat)

  /** A notification enqueued for another session; `recipient` is the user it was looked up for. */
  datatype Push =
    | ChatPush(origin: Sid, target: Sid, recipient: int, id: int, sender: int, content: string, msgType: int, known: bool)
    | GroupPush(origin: Sid, target: Sid, recipient: int, group: int, number: int, sender: int, content: string, msgType: int)

  datatype Ack =
    | ChatAck(origin: Sid, sender: int, id: int)
    | GroupAck(origin: Sid, sender: int, group: int, number: int)

  /** A login that has happened. */
  datatype Entry = Entry(s: Sid, u: int)

  /**
   `user` gives every session that has logged in its current user, `closing` the sessions whose
   state is CLOSING. `logins`, `acks` and `pushes` are history, the last two in the order of the
   enqueuing.
   */
  datatype State = State(
    db: Db, user: map<Sid, int>, closing: set<Sid>, registry: map<int, Sid>, pcs: map<Sid, Pc>,
    logins: set<Entry>, acks: seq<Ack>, pushes: seq<Push>)

  datatype Label =
    | Login(s: Sid, u: int)                                                 // refused while LOGGED_IN
    | Close(s: Sid)                                                         // shutdown stores CLOSING
    | Unregister(u: int)
    | Other(op: Op)                                                         // any write but the two sends
    | ChatSave(s: Sid, recipient: int, content: string, msgType: int, now: int)
    | ChatNotify(s: Sid)                                                    // findSession and the push, if any
    | GroupCheck(s: Sid, group: int, content: string, msgType: int)         // isGroupMember said yes
    | GroupStore(s: Sid, now: int)                                          // sendGroupMessage and the ack
    | GroupFetch(s: Sid)                                                    // getGroupMembers
    | GroupNotify(s: Sid)                                                   // the next member of the list
    | GroupDone(s: Sid)

  function Init(): State {
    State(Empty(), map[], {}, map[], map[], {}, [], [])
  }

  function WithPc(st: State, s: Sid, pc: Pc): State {
    st.(pcs := st.pcs[s := pc])
  }

  predicate At(st: State, s: Sid) {
    s in st.pcs && s in st.user
  }

  /** A handler that needs a login can start: the state is LOGGED_IN, and the reader has nothing else to do. */
  predicate Ready(st: State, s: Sid)
    requires At(st, s)
  {
    st.pcs[s].Idle? && s !in st.closing
  }

  /** The notification for the session that was found. */
  function ChatPushTo(st: State, s: Sid, target: Sid): Push
    requires At(st, s) && st.pcs[s].ChatSaved?
  {
    var pc := st.pcs[s];
    ChatPush(s, target, pc.recipient, pc.id, st.user[s], pc.content, pc.msgType, pc.known)
  }

  /** The notification for a member who is online. */
  function GroupPushTo(st: State, s: Sid, m: int): Push
    requires At(st, s) && st.pcs[s].Pushing? && m in st.registry
  {
    var pc := st.pcs[s];
    GroupPush(s, st.registry[m], m, pc.group, pc.number, st.user[s], pc.content, pc.msgType)
  }

  function NextChat(st: State, l: Label): Option<State>
    requires l.ChatSave? || l.ChatNotify?
  {
    if !At(st, l.s) then None
    else
      match l
      case ChatSave(s, recipient, content, msgType, now) =>
        if !Ready(st, s) || recipient == 0 || content == [] then None
        else
          var done := SaveMessage(st.db, st.user[s], recipient, content, msgType, now);
          var pc := ChatSaved(recipient, done.result, content, msgType, HasUser(st.db, recipient));
          Some(WithPc(st, s, pc).(db := done.db, acks := st.acks + [ChatAck(s, st.user[s], done.result)]))
      case ChatNotify(s) =>
        if !st.pcs[s].ChatSaved? then None
        else
          var pc := st.pcs[s];
          var done := WithPc(st, s, Idle);
          if pc.recipient !in st.registry then Some(done)
          else
            Some(done.(pushes := st.pushes + [ChatPushTo(st, s, st.registry[pc.recipient])]))
  }

  function NextGroup(st: State, l: Label): Option<State>
    requires l.GroupCheck? || l.GroupStore? || l.GroupFetch? || l.GroupNotify? || l.GroupDone?
  {
    if !At(st, l.s) then None
    else
      match l
      case GroupCheck(s, g, content, msgType) =>
        if !Ready(st, s) || g == 0 || content == [] || !IsMember(st.db, g, st.user[s]) then None
        else Some(WithPc(st, s, GroupChecked(g, content, msgType)))
      case GroupStore(s, now) =>
        if !st.pcs[s].GroupChecked? then None
        else
          var pc := st.pcs[s];
          var done := SendGroupMessage(st.db, pc.group, st.user[s], pc.content, pc.msgType, now);
          Some(WithPc(st, s, GroupStored(pc.group, done.result, pc.content, pc.msgType))
               .(db := done.db, acks := st.acks + [GroupAck(s, st.user[s], pc.group, done.result)]))
      case GroupFetch(s) =>
        if !st.pcs[s].GroupStored? then None
        else
          var pc := st.pcs[s];
          Some(WithPc(st, s, Pushing(pc.group, pc.number, pc.content, pc.msgType, Groups.MemberIds(st.db.members, pc.group), 0)))
      case GroupNotify(s) =>
        if !st.pcs[s].Pushing? || st.pcs[s].next >= |st.pcs[s].members| then None
        else
          var pc := st.pcs[s];
          var m := pc.members[pc.next];
          var done := WithPc(st, s, pc.(next := pc.next + 1));
          if m == st.user[s] || m !in st.registry then Some(done)
          else
            Some(done.(pushes := st.pushes + [GroupPushTo(st, s, m)]))
      case GroupDone(s) =>
        if !st.pcs[s].Pushing? || st.pcs[s].next < |st.pcs[s].members| then None
        else Some(WithPc(st, s, Idle))
  }

  /** None when the step cannot happen. */
  function Next(st: State, l: Label): Option<State> {
    match l
    case Login(s, u) =>
      if !HasUser(st.db, u) || (At(st, s) && (s !in st.closing || !st.pcs[s].Idle?)) then None
      else
        Some(WithPc(st, s, Idle).(user := st.user[s := u], closing := st.closing - {s},
                                  registry := st.registry[u := s], logins := st.logins + {Entry(s, u)}))
    case Close(s) => Some(st.(closing := st.closing + {s}))
    case Unregister(u) => Some(st.(registry := st.registry - {u}))
    case Other(op) => if op.OpSave? || op.OpPost? then None else Some(st.(db := Apply(st.db, op)))
    case ChatSave(_, _, _, _, _) => NextChat(st, l)
    case ChatNotify(_) => NextChat(st, l)
    case _ => NextGroup(st, l)
  }

  function Run(st: State, ls: seq<Label>): Option<State>
    decreases |ls|
  {
    if ls == [] then Some(st)
    else
      match Next(st, ls[0])
      case None => None
      case Some(next) => Run(next, ls[1..])
  }

  // ----- the invariant

  /** The stored row of a chat message. */
  predicate SavedAs(db: Db, id: int, sender: int, recipient: int, content: string, msgType: int) {
    && 1 <= id <= |db.messages|
    && var r := db.messages[id - 1];
       r.id == id && r.sender == sender && r.recipient == recipient && r.content == Stored(content) && r.msgType == msgType
  }

  predicate IsPost(p: PostRow, g: int, number: int, sender: int, content: string, msgType: int) {
    p.group == g && p.number == number && p.sender == sender && p.content == Stored(content) && p.msgType == msgType
  }

  /** The stored row of a group message. */
  predicate PostedAs(db: Db, g: int, number: int, sender: int, content: string, msgType: int) {
    exists i :: 0 <= i < |db.posts| && IsPost(db.posts[i], g, number, sender, content, msgType)
  }

  predicate NumberUsed(db: Db, g: int, number: int, sender: int) {
    exists i :: 0 <= i < |db.posts| && db.posts[i].group == g && db.posts[i].number == number && db.posts[i].sender == sender
  }

  ghost predicate DbOk(db: Db) {
    && Messages.MessagesOk(db) && Groups.GroupsOk(db)
    && (forall p :: p in db.posts ==> IsMember(db, p.group, p.sender))
  }

  ghost predicate PcOk(st: State, s: Sid)
    requires At(st, s)
  {
    match st.pcs[s]
    case Idle => true
    case ChatSaved(recipient, id, content, msgType, known) =>
      && ChatAck(s, st.user[s], id) in st.acks
      && (known <==> id != -1) && (known ==> SavedAs(st.db, id, st.user[s], recipient, content, msgType))
    case GroupChecked(g, _, _) => IsMember(st.db, g, st.user[s])
    case GroupStored(g, number, content, msgType) =>
      PostedAs(st.db, g, number, st.user[s], content, msgType) && GroupAck(s, st.user[s], g, number) in st.acks
    case Pushing(g, number, content, msgType, members, next) =>
      && PostedAs(st.db, g, number, st.user[s], content, msgType) && GroupAck(s, st.user[s], g, number) in st.acks
      && NoDuplicates(members) && next <= |members|
      && (forall m :: m in members ==> IsMember(st.db, g, m))
  }

  ghost predicate AckOk(st: State, a: Ack) {
    && Entry(a.origin, a.sender) in st.logins
    && match a
       case ChatAck(_, _, _) => true
       case GroupAck(s, sender, g, number) => NumberUsed(st.db, g, number, sender)
  }

  ghost predicate PushOk(st: State, p: Push) {
    && Entry(p.origin, p.sender) in st.logins && Entry(p.target, p.recipient) in st.logins
    && match p
       case ChatPush(s, _, recipient, id, sender, content, msgType, known) =>
         && ChatAck(s, sender, id) in st.acks
         && (known <==> id != -1) && (known ==> SavedAs(st.db, id, sender, recipient, content, msgType))
       case GroupPush(s, _, recipient, g, number, sender, content, msgType) =>
         && GroupAck(s, sender, g, number) in st.acks
         && PostedAs(st.db, g, number, sender, content, msgType)
         && IsMember(st.db, g, recipient) && recipient != sender
  }

  predicate SameNumber(a: Ack, b: Ack) {
    a.GroupAck? && b.GroupAck? && a.group == b.group && a.number == b.number
  }

  /** Two pushes from one session within one group. */
  predicate SameSource(p: Push, q: Push) {
    p.GroupPush? && q.GroupPush? && p.origin == q.origin && p.group == q.group
  }

  /** Numbers from one session within one group never fall, and rise on the way to one recipient. */
  predicate InOrder(p: Push, q: Push) {
    SameSource(p, q) ==> p.number <= q.number && (p.recipient == q.recipient ==> p.number < q.number)
  }

  /** What a handler that is about to push has pushed before: older numbers, or this one to earlier members. */
  predicate Before(p: Push, s: Sid, pc: Pc) {
    p.GroupPush? && p.origin == s ==>
      match pc
      case GroupStored(g, number, _, _) => p.group == g ==> p.number < number
      case Pushing(g, number, _, _, members, next) =>
        p.group == g ==> p.number < number || (p.number == number && next <= |members| && p.recipient in members[..next])
      case _ => true
  }

  /** Whoever is registered is a user and has logged in, and so has every session that has a user. */
  ghost predicate LoginsOk(st: State) {
    && st.pcs.Keys == st.user.Keys
    && (forall s :: s in st.user ==> HasUser(st.db, st.user[s]) && Entry(s, st.user[s]) in st.logins)
    && (forall u :: u in st.registry ==> HasUser(st.db, u) && Entry(st.registry[u], u) in st.logins)
  }

  ghost predicate Invariant(st: State) {
    && DbOk(st.db) && LoginsOk(st)
    && (forall s :: At(st, s) ==> PcOk(st, s))
    && (forall a :: a in st.acks ==> AckOk(st, a))
    && (forall p :: p in st.pushes ==> PushOk(st, p))
    && (forall i, j :: 0 <= i < j < |st.acks| ==> !SameNumber(st.acks[i], st.acks[j]))
    && (forall i, j :: 0 <= i < j < |st.pushes| ==> InOrder(st.pushes[i], st.pushes[j]))
    && (forall p, s :: p in st.pushes && At(st, s) ==> Before(p, s, st.pcs[s]))
  }
}
