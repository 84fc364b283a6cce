/**
 The `Database` object (wx-server/src/database.cpp): the tables are updated in place, one method
 at a time. Each writing method is tied to its effect on the table values in `Store`, each
 reading method to what the rows mean.
 */
module DatabaseObject {
  import opened Wrappers
  import opened Store
  import opened Cursor
  import Messages
  import Conversations
  import Friends
  import Groups

  class Database {
    var users: seq<UserRow>
    var messages: seq<MessageRow>
    var friends: seq<FriendRow>
    var requests: seq<RequestRow>
    var groups: seq<GroupRow>
    var members: seq<MemberRow>
    var posts: seq<PostRow>
    var applies: seq<ApplyRow>

    function Model(): Db
      reads this
    {
      Db(users, messages, friends, requests, groups, members, posts, applies)
    }

    constructor ()
      ensures Model() == Empty()
    {
      users, messages, friends, requests := [], [], [], [];
      groups, members, posts, applies := [], [], [], [];
    }

    method RegisterUser(username: string, nickname: string, hashed: bool) returns (id: int)
      modifies this`users
      ensures Done(Model(), id) == Store.RegisterUser(old(Model()), username, nickname, hashed)
    {
      if !hashed {
        return -1;
      }
      var name := Stored(username);
      for i := 0 to |users|
        invariant forall k :: 0 <= k < i ==> users[k].username != name
      {
        if users[i].username == name {
          return -1;
        }
      }
      id := |users| + 1;
      users := users + [UserRow(id, name, Stored(nickname))];
    }

    method SaveMessage(sender: int, recipient: int, content: string, msgType: int, now: int) returns (id: int)
      modifies this`messages
      ensures Done(Model(), id) == Store.SaveMessage(old(Model()), sender, recipient, content, msgType, now)
    {
      if !HasUser(Model(), sender) || !HasUser(Model(), recipient) {
        return -1;
      }
      id := |messages| + 1;
      messages := messages + [MessageRow(id, sender, recipient, Stored(content), msgType, now)];
    }

    method GetHistory(a: int, b: int, before: int, limit: int) returns (rows: seq<MessageRow>)
      ensures rows == Messages.HistoryPage(messages, a, b, before, limit)
      ensures rows == Suffix(Filter(Messages.Conversation(messages, a, b), Messages.Earlier(before)), limit)
    {
      var found := Select(messages, Messages.Matching(a, b, before), limit);
      rows := Reverse(found);
      Messages.HistoryPageMeaning(messages, a, b, before, limit);
    }

    method GetConversations(uid: int) returns (rows: seq<Conversations.ConversationRow>)
      requires Messages.MessagesOk(Model())
      ensures forall p :: Messages.Conversation(messages, uid, p) != [] <==> Conversations.Listed(rows, p)
      ensures Conversations.DistinctPeers(rows) && Conversations.ByFallingTime(rows)
      ensures forall c :: c in rows ==> Conversations.RowAgrees(Model(), uid, c)
    {
      rows := Conversations.SelectConversations(Model(), uid);
    }

    method CreateFriendRequest(sender: int, recipient: int, message: string) returns (id: int)
      modifies this`requests
      ensures Done(Model(), id) == Store.CreateFriendRequest(old(Model()), sender, recipient, message)
    {
      if !HasUser(Model(), sender) || !HasUser(Model(), recipient) || HasPending(Model(), sender, recipient) {
        return -1;
      }
      id := |requests| + 1;
      requests := requests + [RequestRow(id, sender, recipient, Stored(message), PENDING)];
    }

    method HandleFriendRequest(id: int, accept: bool) returns (ok: bool)
      modifies this`requests, this`friends
      ensures Done(Model(), ok) == Store.HandleFriendRequest(old(Model()), id, accept)
    {
      var newStatus := if accept then ACCEPTED else REJECTED;
      var found := Find(requests, OpenRequest(id));
      if found.None? {
        return false;
      }
      var row := requests[found.value];
      requests := requests[found.value := row.(status := newStatus)];
      if newStatus == ACCEPTED {
        var a, b := Min(row.sender, row.recipient), Max(row.sender, row.recipient);
        if FriendRow(a, b) !in friends {
          friends := friends + [FriendRow(a, b)];
        }
      }
      return true;
    }

    method GetFriendList(uid: int) returns (rows: seq<Friends.FriendEntry>)
      ensures seq(|rows|, i requires 0 <= i < |rows| => rows[i].id) == Friends.FriendList(Model(), friends, uid)
      ensures forall r :: r in rows ==> Conversations.NicknameOf(users, r.id) == Some(r.nickname)
    {
      rows := [];
      for i := 0 to |friends|
        invariant seq(|rows|, k requires 0 <= k < |rows| => rows[k].id) == Friends.FriendList(Model(), friends[..i], uid)
        invariant forall r :: r in rows ==> Conversations.NicknameOf(users, r.id) == Some(r.nickname)
      {
        var f := friends[i];
        assert friends[..i + 1][..i] == friends[..i];
        if f.a == uid || f.b == uid {
          var nickname := Conversations.NicknameOf(users, Friends.Friend(f, uid));
          if nickname.Some? {
            rows := rows + [Friends.FriendEntry(Friends.Friend(f, uid), nickname.value)];
          }
        }
      }
      assert friends[..|friends|] == friends;
    }

    method CreateGroup(owner: int, name: string) returns (id: int)
      modifies this`groups, this`members
      ensures Done(Model(), id) == Store.CreateGroup(old(Model()), owner, name)
    {
      if !HasUser(Model(), owner) {
        return -1;
      }
      id := |groups| + 1;
      groups := groups + [GroupRow(id, Stored(name), owner)];
      if !IsMember(Model(), id, owner) {
        members := members + [MemberRow(id, owner, OWNER)];
      }
    }

    method JoinGroup(group: int, uid: int) returns (ok: bool)
      modifies this`members
      ensures Done(Model(), ok) == Store.JoinGroup(old(Model()), group, uid)
    {
      if !HasGroup(Model(), group) {
        return false;
      }
      if IsMember(Model(), group, uid) {
        return true;
      }
      if !HasUser(Model(), uid) {
        return false;
      }
      members := members + [MemberRow(group, uid, PLAIN_MEMBER)];
      return true;
    }

    method GetGroupMembers(group: int) returns (rows: seq<MemberRow>)
      ensures forall m :: m in rows <==> m in members && m.group == group
      ensures seq(|rows|, i requires 0 <= i < |rows| => rows[i].user) == Groups.MemberIds(members, group)
    {
      rows := [];
      for i := 0 to |members|
        invariant forall m :: m in rows <==> m in members[..i] && m.group == group
        invariant seq(|rows|, k requires 0 <= k < |rows| => rows[k].user) == Groups.MemberIds(members[..i], group)
      {
        assert members[..i + 1][..i] == members[..i];
        if members[i].group == group {
          rows := rows + [members[i]];
        }
      }
      assert members[..|members|] == members;
    }

    method IsGroupMember(group: int, uid: int) returns (b: bool)
      ensures b <==> uid in Groups.MemberIds(members, group)
    {
      Groups.MemberIdsMeaning(members, group);
      for i := 0 to |members|
        invariant forall k :: 0 <= k < i ==> !(members[k].group == group && members[k].user == uid)
      {
        if members[i].group == group && members[i].user == uid {
          return true;
        }
      }
      return false;
    }

    method SendGroupMessage(group: int, sender: int, content: string, msgType: int, now: int) returns (number: int)
      modifies this`posts
      ensures Done(Model(), number) == Store.SendGroupMessage(old(Model()), group, sender, content, msgType, now)
    {
      // BEGIN IMMEDIATE; a refused insert rolls back, so the table is as it was
      var next := MaxNumber(posts, group) + 1;
      if !HasGroup(Model(), group) || !HasUser(Model(), sender) {
        return -1;
      }
      posts := posts + [PostRow(|posts| + 1, group, next, sender, Stored(content), msgType, now)];
      return next;
    }

    method GetGroupHistory(group: int, before: int, limit: int) returns (rows: seq<PostRow>)
      ensures rows == Groups.GroupPage(Model(), group, before, limit)
      ensures Groups.GroupsOk(Model()) ==> rows == Suffix(Filter(Groups.Posts(posts, group), Groups.Below(before)), limit)
    {
      var found := Select(posts, Groups.PageOf(Model(), group, before), limit);
      rows := Reverse(found);
      if Groups.GroupsOk(Model()) {
        Groups.GroupPageMeaning(Model(), group, before, limit);
      }
    }

    method CreateGroupApply(group: int, sender: int, message: string) returns (id: int)
      modifies this`applies
      ensures Done(Model(), id) == Store.CreateGroupApply(old(Model()), group, sender, message)
    {
      if !HasGroup(Model(), group) || !HasUser(Model(), sender) {
        return -1;
      }
      id := |applies| + 1;
      applies := applies + [ApplyRow(id, group, sender, Stored(message), PENDING)];
    }

    method HandleGroupApply(id: int, accept: bool) returns (ok: bool)
      modifies this`applies, this`members
      ensures Done(Model(), ok) == Store.HandleGroupApply(old(Model()), id, accept)
    {
      var found := Find(applies, OpenApply(id));
      if found.None? {
        return false;
      }
      var row := applies[found.value];
      applies := applies[found.value := row.(status := if accept then ACCEPTED else REJECTED)];
      if accept {
        var joined := JoinGroup(row.group, row.sender);
      }
      return true;
    }

    /** The group of the one pending application with this id, or -1 exactly if there is none. */
    method GetGroupRequestGroupId(id: int) returns (group: int)
      ensures (forall r :: r in applies ==> !OpenApply(id)(r)) ==> group == -1
      ensures Groups.AppliesOk(Model()) && Groups.GroupsOk(Model()) ==>
                && (group < 0 ==> forall r :: r in applies ==> !OpenApply(id)(r))
                && (forall r :: r in applies && OpenApply(id)(r) ==> group == r.group && 1 <= group <= |groups|)
    {
      var found := Find(applies, OpenApply(id));
      if found.None? {
        return -1;
      }
      group := applies[found.value].group;
      if Groups.AppliesOk(Model()) && Groups.GroupsOk(Model()) {
        assert applies[found.value] in applies;
        Groups.KnownGroup(Model(), group);
      }
    }

    /** Any call that writes. */
    method Perform(op: Op)
      modifies this
      ensures Model() == Apply(old(Model()), op)
    {
      match op
      case OpRegister(username, nickname, hashed) => var id := RegisterUser(username, nickname, hashed);
      case OpSave(sender, recipient, content, msgType, now) => var id := SaveMessage(sender, recipient, content, msgType, now);
      case OpRequest(sender, recipient, message) => var id := CreateFriendRequest(sender, recipient, message);
      case OpHandle(id, accept) => var ok := HandleFriendRequest(id, accept);
      case OpCreateGroup(owner, name) => var id := CreateGroup(owner, name);
      case OpJoin(g, u) => var ok := JoinGroup(g, u);
      case OpPost(g, sender, content, msgType, now) => var n := SendGroupMessage(g, sender, content, msgType, now);
      case OpApply(g, sender, message) => var id := CreateGroupApply(g, sender, message);
      case OpHandleApply(id, accept) => var ok := HandleGroupApply(id, accept);
    }

    /** What other handlers do meanwhile: any calls. */
    method PerformAll(ops: seq<Op>)
      modifies this
      ensures Model() == ApplyAll(old(Model()), ops)
    {
      hide Apply;
      for i := 0 to |ops|
        invariant Model() == ApplyAll(old(Model()), ops[..i])
      {
        ApplyAllMore(old(Model()), ops[..i], ops[i]);
        assert ops[..i + 1] == ops[..i] + [ops[i]];
        Perform(ops[i]);
      }
      assert ops[..|ops|] == ops;
    }
  }

  /** Whatever calls the handlers make, in any order, from an empty database on, all tables stay in order. */
  lemma EveryRun(ops: seq<Op>)
    requires forall op :: op in ops ==> Friends.Guarded(op)
    ensures var db := ApplyAll(Empty(), ops);
            && Messages.MessagesOk(db) && Friends.FriendsOk(db) && Groups.GroupsOk(db) && Groups.AppliesOk(db)
  {
    Messages.ApplyAllKeepsMessages(Empty(), ops);
    Friends.FriendshipInvariant(Empty(), ops);
    Groups.GroupInvariant(Empty(), ops);
    AppliesInvariant(Empty(), ops);
  }

  lemma {:induction false} AppliesInvariant(db: Db, ops: seq<Op>)
    requires Groups.AppliesOk(db)
    ensures Groups.AppliesOk(ApplyAll(db, ops))
    decreases |ops|
  {
    hide Apply;
    hide Groups.AppliesOk;
    if ops != [] {
      Groups.ApplyKeepsApplies(db, ops[0]);
      AppliesInvariant(Apply(db, ops[0]), ops[1..]);
    }
  }

  const SUCCESS := 0
  const INVALID_REQUEST := 200
  const GROUP_PERMISSION_DENIED := 322

  /** The decision on an application is refused to everybody but the owner of its group, whatever happened since. */
  lemma OwnerDecides(db: Db, i: nat, ops: seq<Op>, uid: int)
    requires Groups.GroupsOk(db) && Groups.AppliesOk(db) && i < |db.applies|
    ensures var (g, later) := (db.applies[i].group, ApplyAll(db, ops));
            && Groups.GroupsOk(later) && Groups.AppliesOk(later) && 1 <= g
            && i < |later.applies| && ApplyKept(db.applies[i], later.applies[i])
            && (Groups.Authorized(later, g, uid) <==> uid == Groups.GroupOwner(db.groups, g))
  {
    var r := db.applies[i];
    assert r in db.applies;
    Groups.GroupInvariant(db, ops);
    AppliesInvariant(db, ops);
    ApplyAllGrows(db, ops);
    Groups.KnownGroup(db, r.group);
    Groups.OwnershipIsForEver(db, ops, r.group);
    var later := ApplyAll(db, ops);
    assert HasGroup(later, r.group) by { GrowsKeeps(db, later, r.sender, r.group); }
    Groups.AuthorizedIsOwner(later, r.group, uid);
  }

  lemma NoneOpen(applies: seq<ApplyRow>, id: int)
    ensures Find(applies, OpenApply(id)).None? <==> forall r :: r in applies ==> !OpenApply(id)(r)
  {
    var found := Find(applies, OpenApply(id));
    assert found.Some? ==> applies[found.value] in applies;
  }

  /** With unique ids, looking for the pending application finds row i exactly if that is still pending. */
  lemma StillOpen(db: Db, i: nat)
    requires Groups.AppliesOk(db) && i < |db.applies|
    ensures var found := Find(db.applies, OpenApply(i + 1));
            if db.applies[i].status == PENDING then found == Some(i) else found == None
  {
    var found := Find(db.applies, OpenApply(i + 1));
    assert db.applies[i].id == i + 1;
  }

  /**
   `handleGroupApplyHandle`, with whatever other handlers do between its three database calls.
   Only the owner of the group of a pending application gets through, and then it is decided,
   unless somebody else has decided it in the meantime.
   */
  method HandleGroupApplyMessage(db: Database, uid: int, id: int, action: string, first: seq<Op>, second: seq<Op>)
    returns (code: int)
    requires Groups.GroupsOk(db.Model()) && Groups.AppliesOk(db.Model())
    modifies db
    ensures var found := Find(old(db.applies), OpenApply(id));
            if (action != "accept" && action != "reject") || found.None? then
              code == INVALID_REQUEST && db.Model() == old(db.Model())
            else if uid != Groups.GroupOwner(old(db.groups), old(db.applies)[found.value].group) then
              code == GROUP_PERMISSION_DENIED && db.Model() == ApplyAll(old(db.Model()), first)
            else
              var before := ApplyAll(ApplyAll(old(db.Model()), first), second);
              && found.value < |before.applies|
              && code == (if before.applies[found.value].status == PENDING then SUCCESS else INVALID_REQUEST)
              && db.Model() == Store.HandleGroupApply(before, id, action == "accept").db
  {
    hide ApplyAll;
    if action != "accept" && action != "reject" {
      return INVALID_REQUEST;
    }
    ghost var start := db.Model();
    ghost var found := Find(start.applies, OpenApply(id));
    NoneOpen(db.applies, id);
    var group := db.GetGroupRequestGroupId(id);
    if group < 0 {
      return INVALID_REQUEST;
    }
    ghost var i := found.value;
    assert start.applies[i] in db.applies && group == start.applies[i].group && id == i + 1;
    db.PerformAll(first);
    OwnerDecides(start, i, first, uid);
    var authorized := IsOfficer(db, group, uid);
    if !authorized {
      return GROUP_PERMISSION_DENIED;
    }
    ghost var middle := db.Model();
    db.PerformAll(second);
    OwnerDecides(middle, i, second, uid);
    StillOpen(db.Model(), i);
    var ok := db.HandleGroupApply(id, action == "accept");
    return if ok then SUCCESS else INVALID_REQUEST;
  }

  /** Whether the user's row in the member list has role 1 or more. */
  method IsOfficer(db: Database, group: int, uid: int) returns (authorized: bool)
    ensures authorized <==> Groups.Authorized(db.Model(), group, uid)
  {
    var members := db.GetGroupMembers(group);
    authorized := false;
    for i := 0 to |members|
      invariant !authorized && forall k :: 0 <= k < i ==> !(members[k].user == uid && members[k].role >= 1)
    {
      if members[i].user == uid && members[i].role >= 1 {
        assert members[i] in members;
        return true;
      }
    }
  }
}
