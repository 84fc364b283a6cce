/**
 The server's database as a value: the tables of wx-server/src/database.cpp with the constraints
 the schema enforces, and the effect of every `Database` method that writes.
 Each method runs under one mutex, so each effect is one atomic step.
 */
module Store {
  import opened Wrappers

  /** What SQLite keeps of a string bound with length -1: the part before the first NUL. */
  function Stored(text: string): string {
    if text == [] || text[0] == '\0' then [] else [text[0]] + Stored(text[1..])
  }

  predicate NulFree(text: string) {
    '\0' !in text
  }

  lemma {:induction false} StoredWhole(text: string)
    ensures Stored(text) == text <==> NulFree(text)
  {
    if text != [] {
      StoredWhole(text[1..]);
      assert text == [text[0]] + text[1..];
      assert |Stored(text[1..])| <= |text[1..]| by { StoredShorter(text[1..]); }
    }
  }

  lemma {:induction false} StoredShorter(text: string)
    ensures |Stored(text)| <= |text|
  {
    if text != [] {
      StoredShorter(text[1..]);
    }
  }

  /** What is stored is the longest part from the start without a NUL. */
  lemma {:induction false} StoredIsPrefix(text: string)
    ensures Stored(text) <= text && NulFree(Stored(text))
    ensures |Stored(text)| < |text| ==> text[|Stored(text)|] == '\0'
  {
    if text != [] && text[0] != '\0' {
      StoredIsPrefix(text[1..]);
      assert text == [text[0]] + text[1..];
    }
  }

  const PENDING := 0
  const ACCEPTED := 1
  const REJECTED := 2

  const PLAIN_MEMBER := 0
  const OWNER := 2

  datatype UserRow = UserRow(id: int, username: string, nickname: string)
  datatype MessageRow = MessageRow(id: int, sender: int, recipient: int, content: string, msgType: int, timestamp: int)
  datatype FriendRow = FriendRow(a: int, b: int)
  datatype RequestRow = RequestRow(id: int, sender: int, recipient: int, message: string, status: int)
  datatype GroupRow = GroupRow(id: int, name: string, owner: int)
  datatype MemberRow = MemberRow(group: int, user: int, role: int)
  datatype PostRow = PostRow(id: int, group: int, number: int, sender: int, content: string, msgType: int, timestamp: int)
  datatype ApplyRow = ApplyRow(id: int, group: int, sender: int, message: string, status: int)

  /**
   Rows are in insertion order. AUTOINCREMENT keys count the rows, since nothing is ever deleted
   and a failed insert leaves no trace.
   */
  datatype Db = Db(
    users: seq<UserRow>, messages: seq<MessageRow>,
    friends: seq<FriendRow>, requests: seq<RequestRow>,
    groups: seq<GroupRow>, members: seq<MemberRow>, posts: seq<PostRow>, applies: seq<ApplyRow>)

  /** A write and what the method returns. */
  datatype Done<T> = Done(db: Db, result: T)

  function Empty(): Db {
    Db([], [], [], [], [], [], [], [])
  }

  predicate HasUser(db: Db, u: int) {
    exists i :: 0 <= i < |db.users| && db.users[i].id == u
  }

  predicate HasGroup(db: Db, g: int) {
    exists i :: 0 <= i < |db.groups| && db.groups[i].id == g
  }

  predicate IsMember(db: Db, g: int, u: int) {
    exists i :: 0 <= i < |db.members| && db.members[i].group == g && db.members[i].user == u
  }

  predicate HasPending(db: Db, sender: int, recipient: int) {
    exists i :: 0 <= i < |db.requests| && db.requests[i].sender == sender
                && db.requests[i].recipient == recipient && db.requests[i].status == PENDING
  }

  predicate AreFriends(db: Db, a: int, b: int) {
    FriendRow(a, b) in db.friends
  }

  /** `hashed` says whether the password hash could be computed. */
  function RegisterUser(db: Db, username: string, nickname: string, hashed: bool): Done<int> {
    if !hashed || (exists i :: 0 <= i < |db.users| && db.users[i].username == Stored(username)) then Done(db, -1)
    else Done(db.(users := db.users + [UserRow(|db.users| + 1, Stored(username), Stored(nickname))]), |db.users| + 1)
  }

  /** Both users must exist: foreign keys are on. */
  function SaveMessage(db: Db, sender: int, recipient: int, content: string, msgType: int, now: int): Done<int> {
    if !HasUser(db, sender) || !HasUser(db, recipient) then Done(db, -1)
    else
      var row := MessageRow(|db.messages| + 1, sender, recipient, Stored(content), msgType, now);
      Done(db.(messages := db.messages + [row]), row.id)
  }

  /** The partial unique index admits one pending request per ordered pair. */
  function CreateFriendRequest(db: Db, sender: int, recipient: int, message: string): Done<int> {
    if !HasUser(db, sender) || !HasUser(db, recipient) || HasPending(db, sender, recipient) then Done(db, -1)
    else
      var row := RequestRow(|db.requests| + 1, sender, recipient, Stored(message), PENDING);
      Done(db.(requests := db.requests + [row]), row.id)
  }

  function Min(a: int, b: int): int {
    if b < a then b else a
  }

  function Max(a: int, b: int): int {
    if a < b then b else a
  }

  /** INSERT OR IGNORE into the friends table, smaller id first. */
  function Befriend(db: Db, x: int, y: int): Db {
    var row := FriendRow(Min(x, y), Max(x, y));
    if row in db.friends then db else db.(friends := db.friends + [row])
  }

  /** Where the last row that meets a condition is. */
  function Find<T>(rows: seq<T>, keep: T -> bool): (r: Option<nat>)
    ensures r.Some? ==> r.value < |rows| && keep(rows[r.value])
    ensures r.None? ==> forall i :: 0 <= i < |rows| ==> !keep(rows[i])
  {
    if rows == [] then None
    else if keep(rows[|rows| - 1]) then Some(|rows| - 1)
    else Find(rows[..|rows| - 1], keep)
  }

  function OpenRequest(id: int): RequestRow -> bool {
    (r: RequestRow) => r.id == id && r.status == PENDING
  }

  function OpenApply(id: int): ApplyRow -> bool {
    (r: ApplyRow) => r.id == id && r.status == PENDING
  }

  function HandleFriendRequest(db: Db, id: int, accept: bool): Done<bool> {
    match Find(db.requests, OpenRequest(id))
    case None => Done(db, false)
    case Some(i) =>
      var row := db.requests[i];
      var handled := db.(requests := db.requests[i := row.(status := if accept then ACCEPTED else REJECTED)]);
      Done(if accept then Befriend(handled, row.sender, row.recipient) else handled, true)
  }

  /** A new group and, in a second insert, its owner as a member with role 2. */
  function CreateGroup(db: Db, owner: int, name: string): Done<int> {
    if !HasUser(db, owner) then Done(db, -1)
    else
      var g := |db.groups| + 1;
      var created := db.(groups := db.groups + [GroupRow(g, Stored(name), owner)]);
      Done(if IsMember(created, g, owner) then created
           else created.(members := created.members + [MemberRow(g, owner, OWNER)]), g)
  }

  /** INSERT OR IGNORE: an existing membership is left as it is, role included. */
  function JoinGroup(db: Db, g: int, u: int): Done<bool> {
    if !HasGroup(db, g) then Done(db, false)
    else if IsMember(db, g, u) then Done(db, true)
    else if !HasUser(db, u) then Done(db, false)
    else Done(db.(members := db.members + [MemberRow(g, u, PLAIN_MEMBER)]), true)
  }

  /** COALESCE(MAX(msg_seq), 0) over one group. */
  function MaxNumber(posts: seq<PostRow>, g: int): int {
    if posts == [] then 0
    else
      var rest := MaxNumber(posts[..|posts| - 1], g);
      var last := posts[|posts| - 1];
      if last.group == g then Max(rest, last.number) else rest
  }

  /** A failed insert rolls the transaction back. */
  function SendGroupMessage(db: Db, g: int, sender: int, content: string, msgType: int, now: int): Done<int> {
    if !HasGroup(db, g) || !HasUser(db, sender) then Done(db, -1)
    else
      var n := MaxNumber(db.posts, g) + 1;
      Done(db.(posts := db.posts + [PostRow(|db.posts| + 1, g, n, sender, Stored(content), msgType, now)]), n)
  }

  function CreateGroupApply(db: Db, g: int, sender: int, message: string): Done<int> {
    if !HasGroup(db, g) || !HasUser(db, sender) then Done(db, -1)
    else
      var row := ApplyRow(|db.applies| + 1, g, sender, Stored(message), PENDING);
      Done(db.(applies := db.applies + [row]), row.id)
  }

  function HandleGroupApply(db: Db, id: int, accept: bool): Done<bool> {
    match Find(db.applies, OpenApply(id))
    case None => Done(db, false)
    case Some(i) =>
      var row := db.applies[i];
      var handled := db.(applies := db.applies[i := row.(status := if accept then ACCEPTED else REJECTED)]);
      Done(if accept then JoinGroup(handled, row.group, row.sender).db else handled, true)
  }

  /** Every write a handler can cause, as one call of a `Database` method. */
  datatype Op =
    | OpRegister(username: string, nickname: string, hashed: bool)
    | OpSave(sender: int, recipient: int, content: string, msgType: int, now: int)
    | OpRequest(sender: int, recipient: int, message: string)
    | OpHandle(id: int, accept: bool)
    | OpCreateGroup(owner: int, name: string)
    | OpJoin(group: int, user: int)
    | OpPost(group: int, sender: int, content: string, msgType: int, now: int)
    | OpApply(group: int, sender: int, message: string)
    | OpHandleApply(id: int, accept: bool)

  function Apply(db: Db, op: Op): Db {
    match op
    case OpRegister(username, nickname, hashed) => RegisterUser(db, username, nickname, hashed).db
    case OpSave(sender, recipient, content, msgType, now) => SaveMessage(db, sender, recipient, content, msgType, now).db
    case OpRequest(sender, recipient, message) => CreateFriendRequest(db, sender, recipient, message).db
    case OpHandle(id, accept) => HandleFriendRequest(db, id, accept).db
    case OpCreateGroup(owner, name) => CreateGroup(db, owner, name).db
    case OpJoin(g, u) => JoinGroup(db, g, u).db
    case OpPost(g, sender, content, msgType, now) => SendGroupMessage(db, g, sender, content, msgType, now).db
    case OpApply(g, sender, message) => CreateGroupApply(db, g, sender, message).db
    case OpHandleApply(id, accept) => HandleGroupApply(db, id, accept).db
  }

  function ApplyAll(db: Db, ops: seq<Op>): Db
    decreases |ops|
  {
    if ops == [] then db else ApplyAll(Apply(db, ops[0]), ops[1..])
  }

  lemma {:induction false} ApplyAllMore(db: Db, ops: seq<Op>, op: Op)
    ensures ApplyAll(db, ops + [op]) == Apply(ApplyAll(db, ops), op)
    decreases |ops|
  {
    hide Apply;
    if ops == [] {
      assert ApplyAll(db, [op]) == ApplyAll(Apply(db, op), []);
    } else {
      assert (ops + [op])[1..] == ops[1..] + [op];
      ApplyAllMore(Apply(db, ops[0]), ops[1..], op);
    }
  }

  /** A request keeps its parties for ever and its status once it is no longer pending. */
  predicate RequestKept(old_: RequestRow, new_: RequestRow) {
    && new_.id == old_.id && new_.sender == old_.sender && new_.recipient == old_.recipient && new_.message == old_.message
    && (old_.status != PENDING ==> new_.status == old_.status)
  }

  predicate ApplyKept(old_: ApplyRow, new_: ApplyRow) {
    && new_.id == old_.id && new_.group == old_.group && new_.sender == old_.sender && new_.message == old_.message
    && (old_.status != PENDING ==> new_.status == old_.status)
  }

  /** Nothing is ever lost: tables only grow, and requests leave the pending state at most once. */
  ghost predicate Grows(db: Db, later: Db) {
    && db.users <= later.users && db.messages <= later.messages && db.friends <= later.friends
    && db.groups <= later.groups && db.members <= later.members && db.posts <= later.posts
    && |db.requests| <= |later.requests|
    && (forall i :: 0 <= i < |db.requests| ==> RequestKept(db.requests[i], later.requests[i]))
    && |db.applies| <= |later.applies|
    && (forall i :: 0 <= i < |db.applies| ==> ApplyKept(db.applies[i], later.applies[i]))
  }

  lemma ApplyGrows(db: Db, op: Op)
    ensures Grows(db, Apply(db, op))
  {
    hide MaxNumber;
    hide Stored;
  }

  lemma GrowsSame(db: Db)
    ensures Grows(db, db)
  {
  }

  lemma GrowsTransitive(a: Db, b: Db, c: Db)
    requires Grows(a, b) && Grows(b, c)
    ensures Grows(a, c)
  {
    forall i | 0 <= i < |a.requests| ensures RequestKept(a.requests[i], c.requests[i]) {
      assert RequestKept(a.requests[i], b.requests[i]) && RequestKept(b.requests[i], c.requests[i]);
    }
    forall i | 0 <= i < |a.applies| ensures ApplyKept(a.applies[i], c.applies[i]) {
      assert ApplyKept(a.applies[i], b.applies[i]) && ApplyKept(b.applies[i], c.applies[i]);
    }
  }

  /** Over every run of writes nothing is lost and no request is decided twice. */
  lemma {:induction false} ApplyAllGrows(db: Db, ops: seq<Op>)
    ensures Grows(db, ApplyAll(db, ops))
    decreases |ops|
  {
    hide Apply;
    if ops != [] {
      ApplyGrows(db, ops[0]);
      ApplyAllGrows(Apply(db, ops[0]), ops[1..]);
      GrowsTransitive(db, Apply(db, ops[0]), ApplyAll(db, ops));
    }
  }

  /** What was there is still there. */
  lemma GrowsKeeps(db: Db, later: Db, u: int, g: int)
    requires Grows(db, later)
    ensures HasUser(db, u) ==> HasUser(later, u)
    ensures HasGroup(db, g) ==> HasGroup(later, g)
    ensures IsMember(db, g, u) ==> IsMember(later, g, u)
  {
    if HasUser(db, u) {
      var i :| 0 <= i < |db.users| && db.users[i].id == u;
      assert later.users[i] == db.users[i];
    }
    if HasGroup(db, g) {
      var i :| 0 <= i < |db.groups| && db.groups[i].id == g;
      assert later.groups[i] == db.groups[i];
    }
    if IsMember(db, g, u) {
      var i :| 0 <= i < |db.members| && db.members[i].group == g && db.members[i].user == u;
      assert later.members[i] == db.members[i];
    }
  }
}
