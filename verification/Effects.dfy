/**
 What each writing call brings about, exactly: when it is refused, which rows are new, and who is a
 friend or a member afterwards. Over runs: names stay unique, and every membership has its reason.
 */
module Effects {
  import opened Wrappers
  import opened Store
  import Friends
  import Groups
  import Messages

  // ----- users

  predicate NameTaken(db: Db, username: string) {
    exists i :: 0 <= i < |db.users| && db.users[i].username == Stored(username)
  }

  /** Refused exactly if the name is taken or hashing failed; otherwise the answer is a new id, of a user with these names. */
  lemma RegisterExactly(db: Db, username: string, nickname: string, hashed: bool)
    requires Messages.MessagesOk(db)
    ensures var done := RegisterUser(db, username, nickname, hashed);
            && (done.result == -1 <==> !hashed || NameTaken(db, username))
            && (done.result == -1 ==> done.db == db)
            && (done.result != -1 ==>
                  && !HasUser(db, done.result) && HasUser(done.db, done.result) && NameTaken(done.db, username)
                  && done.db.users == db.users + [UserRow(done.result, Stored(username), Stored(nickname))]
                  && done.db.(users := db.users) == db
                  && forall u :: u != done.result ==> (HasUser(done.db, u) <==> HasUser(db, u)))
  {
    hide Stored;
    var done := RegisterUser(db, username, nickname, hashed);
    if done.result != -1 {
      var n := |db.users|;
      assert done.db.users[n].id == done.result && done.db.users[n].username == Stored(username);
      forall u | HasUser(db, u) ensures HasUser(done.db, u) {
        var i :| 0 <= i < |db.users| && db.users[i].id == u;
        assert done.db.users[i].id == u;
      }
    }
  }

  ghost predicate NamesUnique(db: Db) {
    forall i, j :: 0 <= i < j < |db.users| ==> db.users[i].username != db.users[j].username
  }

  lemma ApplyKeepsNames(db: Db, op: Op)
    requires NamesUnique(db)
    ensures NamesUnique(Apply(db, op))
  {
    hide Stored;
    hide MaxNumber;
    hide HasUser;
    hide HasGroup;
    hide IsMember;
  }

  /** No two users ever have the same name. */
  lemma {:induction false} NamesStayUnique(db: Db, ops: seq<Op>)
    requires NamesUnique(db)
    ensures NamesUnique(ApplyAll(db, ops))
    decreases |ops|
  {
    hide Apply;
    hide NamesUnique;
    if ops != [] {
      ApplyKeepsNames(db, ops[0]);
      NamesStayUnique(Apply(db, ops[0]), ops[1..]);
    }
  }

  // ----- messages

  /** Refused exactly if one of the two is unknown; otherwise one row is new, with everything it was given. */
  lemma SaveExactly(db: Db, sender: int, recipient: int, content: string, msgType: int, now: int)
    requires Messages.MessagesOk(db)
    ensures var done := SaveMessage(db, sender, recipient, content, msgType, now);
            && (done.result == -1 <==> !HasUser(db, sender) || !HasUser(db, recipient))
            && (done.result == -1 ==> done.db == db)
            && (done.result != -1 ==>
                  && done.db.(messages := db.messages) == db
                  && (forall m :: m in db.messages ==> m.id < done.result)
                  && done.db.messages == db.messages + [MessageRow(done.result, sender, recipient, Stored(content), msgType, now)])
  {
    hide HasUser;
  }

  // ----- friends

  predicate SamePair(a: int, b: int, x: int, y: int) {
    (a == x && b == y) || (a == y && b == x)
  }

  /** Refused exactly if one is unknown or this very request is pending; otherwise it is stored, pending, from the one to the other. */
  lemma RequestExactly(db: Db, sender: int, recipient: int, message: string)
    requires Friends.FriendsOk(db)
    ensures var done := CreateFriendRequest(db, sender, recipient, message);
            && (done.result == -1 <==> !HasUser(db, sender) || !HasUser(db, recipient) || HasPending(db, sender, recipient))
            && (done.result == -1 ==> done.db == db)
            && (done.result != -1 ==>
                  && done.db.(requests := db.requests) == db
                  && (forall r :: r in db.requests ==> r.id < done.result)
                  && done.db.requests == db.requests + [RequestRow(done.result, sender, recipient, Stored(message), PENDING)]
                  && HasPending(done.db, sender, recipient))
  {
    hide HasUser;
    hide Stored;
    var done := CreateFriendRequest(db, sender, recipient, message);
    if done.result != -1 {
      var r := done.db.requests[|db.requests|];
      assert r.sender == sender && r.recipient == recipient && r.status == PENDING;
    }
  }

  /** The row of a pending request or application is found by its id, which no other row has. */
  lemma OpenRow(db: Db, id: int)
    requires Friends.FriendsOk(db) && Groups.AppliesOk(db)
    ensures Find(db.requests, OpenRequest(id)) == if 1 <= id <= |db.requests| && db.requests[id - 1].status == PENDING then Some(id - 1) else None
    ensures Find(db.applies, OpenApply(id)) == if 1 <= id <= |db.applies| && db.applies[id - 1].status == PENDING then Some(id - 1) else None
  {
    var r, a := Find(db.requests, OpenRequest(id)), Find(db.applies, OpenApply(id));
    hide Find;
    assert r.Some? ==> db.requests[r.value].id == r.value + 1;
    assert a.Some? ==> db.applies[a.value].id == a.value + 1;
    if 1 <= id <= |db.requests| {
      assert db.requests[id - 1].id == id;
    }
    if 1 <= id <= |db.applies| {
      assert db.applies[id - 1].id == id;
    }
  }

  /**
   Decided exactly if the request is pending. Then this row, and only this, changes its status; and
   two users are friends afterwards if they were before, or if these two are its parties and it was
   accepted.
   */
  lemma HandleRequestExactly(db: Db, id: int, accept: bool)
    requires Friends.FriendsOk(db) && Groups.AppliesOk(db)
    ensures var done := HandleFriendRequest(db, id, accept);
            && (done.result <==> 1 <= id <= |db.requests| && db.requests[id - 1].status == PENDING)
            && (!done.result ==> done.db == db)
            && (done.result ==>
                  var r := db.requests[id - 1];
                  && done.db.requests == db.requests[id - 1 := r.(status := if accept then ACCEPTED else REJECTED)]
                  && done.db.(requests := db.requests, friends := db.friends) == db
                  && forall a, b :: a <= b ==>
                       (AreFriends(done.db, a, b) <==> AreFriends(db, a, b) || (accept && SamePair(a, b, r.sender, r.recipient))))
  {
    OpenRow(db, id);
    hide Find;
    hide Friends.FriendsOk;
    hide Groups.AppliesOk;
  }

  // ----- groups

  /** Refused exactly for an unknown owner; otherwise the group is new, with its name, and has its owner as its one member. */
  lemma CreateGroupExactly(db: Db, owner: int, name: string)
    requires Groups.GroupsOk(db)
    ensures var done := CreateGroup(db, owner, name);
            && (done.result == -1 <==> !HasUser(db, owner))
            && (done.result == -1 ==> done.db == db)
            && (done.result != -1 ==>
                  && !HasGroup(db, done.result) && HasGroup(done.db, done.result)
                  && done.db.groups == db.groups + [GroupRow(done.result, Stored(name), owner)]
                  && done.db.(groups := db.groups, members := db.members) == db)
  {
    hide Stored;
    hide HasUser;
    hide IsMember;
    var done := CreateGroup(db, owner, name);
    Groups.KnownGroup(db, |db.groups| + 1);
    if done.result != -1 {
      assert done.db.groups[|db.groups|].id == done.result;
    }
  }

  /** True exactly if the group and the user exist, and exactly if the user is a member afterwards; a new member is a plain one. */
  lemma JoinExactly(db: Db, g: int, u: int)
    requires Groups.GroupsOk(db)
    ensures var done := JoinGroup(db, g, u);
            && (done.result <==> HasGroup(db, g) && HasUser(db, u))
            && (done.result <==> IsMember(done.db, g, u))
            && done.db.members == db.members + (if done.result && !IsMember(db, g, u) then [MemberRow(g, u, PLAIN_MEMBER)] else [])
            && done.db.(members := db.members) == db
  {
    var done := JoinGroup(db, g, u);
    if IsMember(db, g, u) {
      var i :| 0 <= i < |db.members| && db.members[i].group == g && db.members[i].user == u;
      assert Groups.MemberOk(db, db.members[i]);
    }
    Groups.KnownGroup(db, g);
    assert db.members + [] == db.members;
    if done.result && !IsMember(db, g, u) {
      assert done.db.members[|db.members|] == MemberRow(g, u, PLAIN_MEMBER);
    }
  }

  /** Refused exactly for an unknown group or author; otherwise one row is new, with the next number and everything it was given. */
  lemma PostExactly(db: Db, g: int, sender: int, content: string, msgType: int, now: int)
    requires Groups.GroupsOk(db)
    ensures var done := SendGroupMessage(db, g, sender, content, msgType, now);
            && (done.result == -1 <==> !HasGroup(db, g) || !HasUser(db, sender))
            && (done.result == -1 ==> done.db == db)
            && (done.result != -1 ==>
                  && done.result == |Groups.Posts(db.posts, g)| + 1
                  && done.db.(posts := db.posts) == db
                  && done.db.posts == db.posts + [PostRow(|db.posts| + 1, g, done.result, sender, Stored(content), msgType, now)])
  {
    hide HasUser;
    hide HasGroup;
    hide MaxNumber;
    Groups.Dense(db, db.posts, g);
  }

  /** Refused exactly for an unknown group or user; otherwise the application is stored, pending. */
  lemma ApplyExactly(db: Db, g: int, sender: int, message: string)
    requires Groups.AppliesOk(db)
    ensures var done := CreateGroupApply(db, g, sender, message);
            && (done.result == -1 <==> !HasGroup(db, g) || !HasUser(db, sender))
            && (done.result == -1 ==> done.db == db)
            && (done.result != -1 ==>
                  && done.db.(applies := db.applies) == db
                  && (forall r :: r in db.applies ==> r.id < done.result)
                  && done.db.applies == db.applies + [ApplyRow(done.result, g, sender, Stored(message), PENDING)])
  {
    hide HasUser;
    hide HasGroup;
  }

  /**
   Decided exactly if the application is pending. Then this row, and only this, changes its status;
   nobody becomes a member by a rejection, and by an acceptance exactly the applicant does.
   */
  lemma HandleApplyExactly(db: Db, id: int, accept: bool)
    requires Friends.FriendsOk(db) && Groups.AppliesOk(db)
    ensures var done := HandleGroupApply(db, id, accept);
            && (done.result <==> 1 <= id <= |db.applies| && db.applies[id - 1].status == PENDING)
            && (!done.result ==> done.db == db)
            && (done.result ==>
                  var r := db.applies[id - 1];
                  && done.db.applies == db.applies[id - 1 := r.(status := if accept then ACCEPTED else REJECTED)]
                  && done.db.(applies := db.applies, members := db.members) == db
                  && (!accept ==> done.db.members == db.members)
                  && forall h, v :: IsMember(done.db, h, v) <==> IsMember(db, h, v) || (accept && h == r.group && v == r.sender))
  {
    OpenRow(db, id);
    hide Find;
    hide Friends.FriendsOk;
    var done := HandleGroupApply(db, id, accept);
    if done.result {
      var r := db.applies[id - 1];
      assert r in db.applies;
      hide Groups.AppliesOk;
      if accept {
        Joining(db, r.group, r.sender);
        var handled := db.(applies := done.db.applies);
        assert done.db == JoinGroup(handled, r.group, r.sender).db;
        assert done.db.members == JoinGroup(db, r.group, r.sender).db.members;
      }
      hide HasUser;
      hide HasGroup;
    }
  }

  lemma Joining(db: Db, g: int, u: int)
    requires HasGroup(db, g) && HasUser(db, u)
    ensures forall h, v :: IsMember(JoinGroup(db, g, u).db, h, v) <==> IsMember(db, h, v) || (h == g && v == u)
  {
    var later := JoinGroup(db, g, u).db;
    hide HasUser;
    hide HasGroup;
    if !IsMember(db, g, u) {
      assert later.members[|db.members|] == MemberRow(g, u, PLAIN_MEMBER);
      forall h, v | IsMember(db, h, v) ensures IsMember(later, h, v) {
        var i :| 0 <= i < |db.members| && db.members[i].group == h && db.members[i].user == v;
        assert later.members[i] == db.members[i];
      }
    }
  }

  /** Once decided, an application stays as it is in every run. */
  lemma DecidedForGood(db: Db, id: int, accept: bool, ops: seq<Op>)
    requires Friends.FriendsOk(db) && Groups.AppliesOk(db) && HandleGroupApply(db, id, accept).result
    ensures var end := ApplyAll(HandleGroupApply(db, id, accept).db, ops);
            && 1 <= id <= |db.applies| <= |end.applies|
            && end.applies[id - 1] == db.applies[id - 1].(status := if accept then ACCEPTED else REJECTED)
  {
    var handled := HandleGroupApply(db, id, accept).db;
    HandleApplyExactly(db, id, accept);
    ApplyAllGrows(handled, ops);
    hide ApplyAll;
    hide HandleGroupApply;
    assert ApplyKept(handled.applies[id - 1], ApplyAll(handled, ops).applies[id - 1]);
  }

  // ----- why somebody is a member

  /** The call makes this user a member of this group: he creates it, joins it, or has his application accepted. */
  predicate Admits(db: Db, op: Op, g: int, u: int) {
    match op
    case OpCreateGroup(owner, _) => HasUser(db, owner) && u == owner && g == |db.groups| + 1
    case OpJoin(h, v) => HasGroup(db, h) && HasUser(db, v) && g == h && u == v
    case OpHandleApply(id, accept) =>
      accept && 1 <= id <= |db.applies| && db.applies[id - 1].status == PENDING
      && g == db.applies[id - 1].group && u == db.applies[id - 1].sender
    case _ => false
  }

  ghost predicate TablesOk(db: Db) {
    Friends.FriendsOk(db) && Groups.GroupsOk(db) && Groups.AppliesOk(db)
  }

  lemma CreatingAdmits(db: Db, owner: int, name: string)
    requires Groups.GroupsOk(db)
    ensures var later := CreateGroup(db, owner, name).db;
            forall g, u :: IsMember(later, g, u) <==> IsMember(db, g, u) || Admits(db, OpCreateGroup(owner, name), g, u)
  {
    Groups.CreateKeepsGroups(db, owner, name);
    var later := CreateGroup(db, owner, name).db;
    hide Groups.GroupsOk;
    hide Stored;
    if HasUser(db, owner) {
      hide HasUser;
      assert later.members[|db.members|] == MemberRow(|db.groups| + 1, owner, OWNER);
      forall g, u | IsMember(db, g, u) ensures IsMember(later, g, u) {
        var i :| 0 <= i < |db.members| && db.members[i].group == g && db.members[i].user == u;
        assert later.members[i] == db.members[i];
      }
    }
  }

  lemma JoiningAdmits(db: Db, h: int, v: int)
    requires Groups.GroupsOk(db)
    ensures var later := JoinGroup(db, h, v).db;
            forall g, u :: IsMember(later, g, u) <==> IsMember(db, g, u) || Admits(db, OpJoin(h, v), g, u)
  {
    JoinExactly(db, h, v);
    if HasGroup(db, h) && HasUser(db, v) {
      Joining(db, h, v);
    }
    hide Groups.GroupsOk;
    hide HasUser;
    hide HasGroup;
  }

  /** Nothing but these three makes anybody a member, and they always do. */
  lemma MembersExactly(db: Db, op: Op)
    requires TablesOk(db)
    ensures forall g, u :: IsMember(Apply(db, op), g, u) <==> IsMember(db, g, u) || Admits(db, op, g, u)
  {
    match op
    case OpCreateGroup(owner, name) => CreatingAdmits(db, owner, name);
    case OpJoin(h, v) => JoiningAdmits(db, h, v);
    case OpHandleApply(id, accept) =>
      HandleApplyExactly(db, id, accept);
      hide Groups.GroupsOk;
      hide Groups.AppliesOk;
      hide Friends.FriendsOk;
      hide HandleGroupApply;
    case _ =>
      SameMembers(db, op);
      var later := Apply(db, op);
      hide Apply;
      forall g, u ensures IsMember(later, g, u) <==> IsMember(db, g, u) {
      }
  }

  lemma SameMembers(db: Db, op: Op)
    requires !op.OpCreateGroup? && !op.OpJoin? && !op.OpHandleApply?
    ensures Apply(db, op).members == db.members
  {
    hide Stored;
    hide MaxNumber;
    hide HasUser;
    hide HasGroup;
  }

  lemma ApplyKeepsTables(db: Db, op: Op)
    requires TablesOk(db) && Friends.Guarded(op)
    ensures TablesOk(Apply(db, op))
  {
    hide Apply;
    hide Friends.FriendsOk;
    hide Groups.GroupsOk;
    hide Groups.AppliesOk;
    Friends.ApplyKeepsFriends(db, op);
    Groups.ApplyKeepsGroups(db, op);
    Groups.ApplyKeepsApplies(db, op);
  }

  /** Whoever becomes a member during a run created the group, joined it, or had an application accepted in that run. */
  lemma {:induction false} MembershipHasReason(db: Db, ops: seq<Op>, g: int, u: int) returns (k: nat)
    requires TablesOk(db) && forall op :: op in ops ==> Friends.Guarded(op)
    requires !IsMember(db, g, u) && IsMember(ApplyAll(db, ops), g, u)
    ensures k < |ops| && Admits(ApplyAll(db, ops[..k]), ops[k], g, u)
    decreases |ops|
  {
    var op := ops[0];
    var next := Apply(db, op);
    MembersExactly(db, op);
    ApplyKeepsTables(db, op);
    hide Apply;
    hide TablesOk;
    hide IsMember;
    hide Admits;
    if IsMember(next, g, u) {
      k := 0;
      assert ops[..0] == [];
    } else {
      k := MembershipHasReason(next, ops[1..], g, u);
      k := k + 1;
      assert ops[..k][1..] == ops[1..][..k - 1];
    }
  }
}
