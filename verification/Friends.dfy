/** Friend requests and friendships under every interleaving of handlers. */
module Friends {
  import opened Wrappers
  import opened Store

  /** What `handleFriendRequest` checks without the database: nobody asks himself. */
  predicate Guarded(op: Op) {
    op.OpRequest? ==> op.sender != op.recipient
  }

  predicate Parties(r: RequestRow, f: FriendRow) {
    f == FriendRow(Min(r.sender, r.recipient), Max(r.sender, r.recipient))
  }

  predicate Agreed(db: Db, f: FriendRow) {
    exists i :: 0 <= i < |db.requests| && db.requests[i].status == ACCEPTED && Parties(db.requests[i], f)
  }

  /** Both requests would be pending from the same sender to the same recipient. */
  predicate Clash(r: RequestRow, s: RequestRow) {
    r.status == PENDING && s.status == PENDING && r.sender == s.sender && r.recipient == s.recipient
  }

  predicate RequestOk(db: Db, r: RequestRow) {
    && r.sender != r.recipient && HasUser(db, r.sender) && HasUser(db, r.recipient)
    && (r.status == PENDING || r.status == ACCEPTED || r.status == REJECTED)
  }

  predicate FriendOk(db: Db, f: FriendRow) {
    f.a < f.b && HasUser(db, f.a) && HasUser(db, f.b) && Agreed(db, f)
  }

  /**
   Friends are stored once, smaller id first, between two users one of whom accepted a request of
   the other; request ids are unique, and per ordered pair at most one request is pending.
   */
  ghost predicate FriendsOk(db: Db) {
    && (forall f :: f in db.friends ==> FriendOk(db, f))
    && NoDuplicates(db.friends)
    && (forall r :: r in db.requests ==> RequestOk(db, r))
    && (forall i :: 0 <= i < |db.requests| ==> db.requests[i].id == i + 1)
    && (forall i, j :: 0 <= i < j < |db.requests| ==> !Clash(db.requests[i], db.requests[j]))
  }

  lemma AgreedStays(db: Db, later: Db, f: FriendRow)
    requires Grows(db, later) && Agreed(db, f)
    ensures Agreed(later, f)
  {
    var i :| 0 <= i < |db.requests| && db.requests[i].status == ACCEPTED && Parties(db.requests[i], f);
    assert RequestKept(db.requests[i], later.requests[i]);
  }

  /** Steps that touch neither table keep the invariant, whatever else grows. */
  lemma OthersKeepFriends(db: Db, later: Db)
    requires FriendsOk(db) && Grows(db, later) && later.friends == db.friends && later.requests == db.requests
    ensures FriendsOk(later)
  {
    forall r | r in later.requests ensures RequestOk(later, r) {
      GrowsKeeps(db, later, r.sender, 0);
      GrowsKeeps(db, later, r.recipient, 0);
      assert RequestOk(db, r);
    }
    forall f | f in later.friends ensures FriendOk(later, f) {
      GrowsKeeps(db, later, f.a, 0);
      GrowsKeeps(db, later, f.b, 0);
      AgreedStays(db, later, f);
    }
  }

  lemma RequestKeepsFriends(db: Db, op: Op)
    requires FriendsOk(db) && op.OpRequest? && Guarded(op)
    ensures FriendsOk(Apply(db, op))
  {
    hide Stored;
    ApplyGrows(db, op);
    var later := Apply(db, op);
    forall f | f in later.friends ensures FriendOk(later, f) {
      assert FriendOk(db, f);
      AgreedStays(db, later, f);
    }
    forall r | r in later.requests ensures RequestOk(later, r) {
      if r in db.requests {
        assert RequestOk(db, r);
      }
    }
  }

  lemma HandleKeepsRequests(db: Db, i: nat, status: int)
    requires FriendsOk(db) && i < |db.requests| && db.requests[i].status == PENDING
    requires status == ACCEPTED || status == REJECTED
    ensures FriendsOk(db.(requests := db.requests[i := db.requests[i].(status := status)]))
  {
    var later := db.(requests := db.requests[i := db.requests[i].(status := status)]);
    assert Grows(db, later);
    forall f | f in later.friends ensures FriendOk(later, f) {
      assert FriendOk(db, f);
      AgreedStays(db, later, f);
    }
    forall r | r in later.requests ensures RequestOk(later, r) {
      if r in db.requests {
        assert RequestOk(db, r);
      } else {
        assert RequestOk(db, db.requests[i]);
      }
    }
  }

  lemma BefriendKeepsFriends(db: Db, i: nat)
    requires FriendsOk(db) && i < |db.requests| && db.requests[i].status == ACCEPTED
    ensures FriendsOk(Befriend(db, db.requests[i].sender, db.requests[i].recipient))
  {
    var r := db.requests[i];
    assert RequestOk(db, r);
    var later := Befriend(db, r.sender, r.recipient);
    assert Grows(db, later);
    forall f | f in later.friends ensures FriendOk(later, f) {
      if f in db.friends {
        assert FriendOk(db, f);
        AgreedStays(db, later, f);
      } else {
        assert Parties(later.requests[i], f);
      }
    }
    forall q | q in later.requests ensures RequestOk(later, q) {
      assert RequestOk(db, q);
    }
  }

  lemma ApplyKeepsFriends(db: Db, op: Op)
    requires FriendsOk(db) && Guarded(op)
    ensures FriendsOk(Apply(db, op))
  {
    hide Stored;
    hide MaxNumber;
    if op.OpRequest? {
      RequestKeepsFriends(db, op);
    } else if op.OpHandle? {
      var found := Find(db.requests, OpenRequest(op.id));
      if found.Some? {
        var status := if op.accept then ACCEPTED else REJECTED;
        var handled := db.(requests := db.requests[found.value := db.requests[found.value].(status := status)]);
        HandleKeepsRequests(db, found.value, status);
        hide FriendsOk;
        if op.accept {
          BefriendKeepsFriends(handled, found.value);
        }
      }
    } else {
      ApplyGrows(db, op);
      OthersKeepFriends(db, Apply(db, op));
    }
  }

  /** Over every run of database calls, in any order, the friendship invariant holds. */
  lemma {:induction false} FriendshipInvariant(db: Db, ops: seq<Op>)
    requires FriendsOk(db) && forall op :: op in ops ==> Guarded(op)
    ensures FriendsOk(ApplyAll(db, ops))
    decreases |ops|
  {
    hide Apply;
    hide FriendsOk;
    if ops != [] {
      ApplyKeepsFriends(db, ops[0]);
      FriendshipInvariant(Apply(db, ops[0]), ops[1..]);
    }
  }

  // ----- friend lists

  /** The user on the other side of a row. */
  function Friend(f: FriendRow, u: int): int {
    if f.a == u then f.b else f.a
  }

  /** A friend as the list shows him. */
  datatype FriendEntry = FriendEntry(id: int, nickname: string)

  /** `getFriendList`: the ids; the join with users drops rows of unknown users. */
  function FriendList(db: Db, friends: seq<FriendRow>, u: int): seq<int> {
    if friends == [] then []
    else
      var (older, f) := (friends[..|friends| - 1], friends[|friends| - 1]);
      FriendList(db, older, u) + (if (f.a == u || f.b == u) && HasUser(db, Friend(f, u)) then [Friend(f, u)] else [])
  }

  lemma {:induction false} FriendListMembers(db: Db, friends: seq<FriendRow>, u: int, v: int)
    ensures v in FriendList(db, friends, u)
            <==> HasUser(db, v) && (FriendRow(u, v) in friends || FriendRow(v, u) in friends)
  {
    if friends != [] {
      var (older, f) := (friends[..|friends| - 1], friends[|friends| - 1]);
      FriendListMembers(db, older, u, v);
      assert friends == older + [f];
    }
  }

  lemma {:induction false} FriendListDistinct(db: Db, friends: seq<FriendRow>, u: int)
    requires NoDuplicates(friends) && forall f :: f in friends ==> f.a < f.b
    ensures NoDuplicates(FriendList(db, friends, u))
  {
    if friends != [] {
      var (older, f) := (friends[..|friends| - 1], friends[|friends| - 1]);
      FriendListDistinct(db, older, u);
      FriendListMembers(db, older, u, Friend(f, u));
      assert f in friends && f !in older;
      assert forall g :: g in older ==> g in friends;
    }
  }

  /** Friend lists are symmetric and name nobody twice, even when two crossing requests are both accepted. */
  lemma FriendListsAgree(db: Db, u: int, v: int)
    requires FriendsOk(db)
    ensures v in FriendList(db, db.friends, u) <==> u in FriendList(db, db.friends, v)
    ensures v in FriendList(db, db.friends, u) <==> AreFriends(db, Min(u, v), Max(u, v))
    ensures NoDuplicates(FriendList(db, db.friends, u))
  {
    FriendListMembers(db, db.friends, u, v);
    FriendListMembers(db, db.friends, v, u);
    assert forall f :: f in db.friends ==> FriendOk(db, f);
    FriendListDistinct(db, db.friends, u);
    if FriendRow(u, v) in db.friends {
      assert FriendOk(db, FriendRow(u, v));
    }
    if FriendRow(v, u) in db.friends {
      assert FriendOk(db, FriendRow(v, u));
    }
  }

  /**
   Handling succeeds exactly for a pending request, which is then decided for good; accepting it
   makes the two friends, in both lists, now and in every later state.
   */
  lemma HandlingDecides(db: Db, id: int, accept: bool, ops: seq<Op>)
    requires FriendsOk(db) && forall op :: op in ops ==> Guarded(op)
    ensures HandleFriendRequest(db, id, accept).result <==> exists r :: r in db.requests && r.id == id && r.status == PENDING
    ensures HandleFriendRequest(db, id, accept).result ==>
              var i := Find(db.requests, OpenRequest(id)).value;
              var end := ApplyAll(HandleFriendRequest(db, id, accept).db, ops);
              && i < |end.requests| && end.requests[i] == db.requests[i].(status := if accept then ACCEPTED else REJECTED)
              && (accept ==> db.requests[i].recipient in FriendList(end, end.friends, db.requests[i].sender)
                             && db.requests[i].sender in FriendList(end, end.friends, db.requests[i].recipient))
  {
    if HandleFriendRequest(db, id, accept).result {
      var i := Find(db.requests, OpenRequest(id)).value;
      var r := db.requests[i];
      var handled := HandleFriendRequest(db, id, accept).db;
      assert Apply(db, OpHandle(id, accept)) == handled;
      assert r in db.requests;
      ApplyKeepsFriends(db, OpHandle(id, accept));
      FriendshipInvariant(handled, ops);
      ApplyAllGrows(handled, ops);
      var end := ApplyAll(handled, ops);
      hide ApplyAll;
      assert RequestKept(handled.requests[i], end.requests[i]);
      if accept {
        assert FriendRow(Min(r.sender, r.recipient), Max(r.sender, r.recipient)) in handled.friends;
        FriendListsAgree(end, r.sender, r.recipient);
      }
    }
  }
}
