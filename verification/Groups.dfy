/** Groups: roles, membership, per-group numbering and history pages. */
module Groups {
  import opened Wrappers
  import opened Store
  import opened Cursor

  predicate InGroup(p: PostRow, g: int) {
    p.group == g
  }

  function OfGroup(g: int): PostRow -> bool {
    (p: PostRow) => InGroup(p, g)
  }

  /** The messages of a group in insertion order. */
  function Posts(posts: seq<PostRow>, g: int): seq<PostRow> {
    Filter(posts, OfGroup(g))
  }

  predicate GroupOk(db: Db, i: nat)
    requires i < |db.groups|
  {
    && db.groups[i].id == i + 1
    && HasUser(db, db.groups[i].owner)
    && MemberRow(i + 1, db.groups[i].owner, OWNER) in db.members
  }

  predicate MemberOk(db: Db, m: MemberRow) {
    && 1 <= m.group <= |db.groups| && HasUser(db, m.user)
    && (m.role == PLAIN_MEMBER || (m.role == OWNER && m.user == db.groups[m.group - 1].owner))
  }

  predicate PostOk(db: Db, i: nat)
    requires i < |db.posts|
  {
    && db.posts[i].number == |Posts(db.posts[..i], db.posts[i].group)| + 1
    && HasUser(db, db.posts[i].sender)
  }

  predicate SameMember(m: MemberRow, n: MemberRow) {
    m.group == n.group && m.user == n.user
  }

  /**
   Every group has its owner as its only member with a role, nobody is a member twice, and the
   messages of each group are numbered 1, 2, 3, ... in the order in which they were stored.
   */
  ghost predicate GroupsOk(db: Db) {
    && (forall i :: 0 <= i < |db.groups| ==> GroupOk(db, i))
    && (forall m :: m in db.members ==> MemberOk(db, m))
    && (forall i, j :: 0 <= i < j < |db.members| ==> !SameMember(db.members[i], db.members[j]))
    && (forall i :: 0 <= i < |db.posts| ==> PostOk(db, i))
  }

  lemma KnownGroup(db: Db, g: int)
    requires GroupsOk(db)
    ensures HasGroup(db, g) <==> 1 <= g <= |db.groups|
  {
    forall i | 0 <= i < |db.groups| ensures db.groups[i].id == i + 1 {
      assert GroupOk(db, i);
    }
    if 1 <= g <= |db.groups| {
      assert db.groups[g - 1].id == g;
    }
  }

  /** Steps that touch none of the three tables keep the invariant, whatever else grows. */
  lemma OthersKeepGroups(db: Db, later: Db)
    requires GroupsOk(db) && Grows(db, later)
    requires later.groups == db.groups && later.members == db.members && later.posts == db.posts
    ensures GroupsOk(later)
  {
    hide HasUser;
    forall i | 0 <= i < |later.groups| ensures GroupOk(later, i) {
      assert GroupOk(db, i);
      GrowsKeeps(db, later, db.groups[i].owner, 0);
    }
    forall m | m in later.members ensures MemberOk(later, m) {
      assert MemberOk(db, m);
      GrowsKeeps(db, later, m.user, 0);
    }
    forall i | 0 <= i < |later.posts| ensures PostOk(later, i) {
      assert PostOk(db, i);
      GrowsKeeps(db, later, db.posts[i].sender, 0);
    }
  }

  lemma CreateKeepsGroups(db: Db, owner: int, name: string)
    requires GroupsOk(db)
    ensures GroupsOk(CreateGroup(db, owner, name).db)
    ensures HasUser(db, owner) ==>
              var done := CreateGroup(db, owner, name);
              done.result == |db.groups| + 1 && done.db.members == db.members + [MemberRow(done.result, owner, OWNER)]
  {
    hide Stored;
    var later := CreateGroup(db, owner, name).db;
    if HasUser(db, owner) {
      var g := |db.groups| + 1;
      assert forall m :: m in db.members ==> MemberOk(db, m);
      assert forall i :: 0 <= i < |db.members| ==> db.members[i] in db.members;
      assert !IsMember(db, g, owner);
      assert later.members == db.members + [MemberRow(g, owner, OWNER)];
      forall i | 0 <= i < |later.groups| ensures GroupOk(later, i) {
        if i < |db.groups| {
          assert GroupOk(db, i);
        }
      }
      forall m | m in later.members ensures MemberOk(later, m) {
      }
      forall i | 0 <= i < |later.posts| ensures PostOk(later, i) {
        assert PostOk(db, i);
      }
    }
  }

  lemma JoinKeepsGroups(db: Db, g: int, u: int)
    requires GroupsOk(db)
    ensures GroupsOk(JoinGroup(db, g, u).db)
  {
    var later := JoinGroup(db, g, u).db;
    if later != db {
      KnownGroup(db, g);
      assert later.members == db.members + [MemberRow(g, u, PLAIN_MEMBER)];
      forall i | 0 <= i < |later.groups| ensures GroupOk(later, i) {
        assert GroupOk(db, i);
      }
      forall m | m in later.members ensures MemberOk(later, m) {
        if m in db.members {
          assert MemberOk(db, m);
        }
      }
      forall i | 0 <= i < |later.posts| ensures PostOk(later, i) {
        assert PostOk(db, i);
      }
    }
  }

  /** The numbers of a group's messages are exactly 1..n in insertion order. */
  lemma {:induction false} Dense(db: Db, posts: seq<PostRow>, g: int)
    requires GroupsOk(db) && posts <= db.posts
    ensures forall k :: 0 <= k < |Posts(posts, g)| ==> Posts(posts, g)[k].number == k + 1 && Posts(posts, g)[k].group == g
    ensures MaxNumber(posts, g) == |Posts(posts, g)|
    decreases |posts|
  {
    if posts != [] {
      var i := |posts| - 1;
      Dense(db, posts[..i], g);
      assert PostOk(db, i) && posts[..i] == db.posts[..i] && posts[i] == db.posts[i];
      assert Posts(posts, g) == Posts(posts[..i], g) + (if posts[i].group == g then [posts[i]] else []);
    }
  }

  lemma PostKeepsGroups(db: Db, g: int, sender: int, content: string, msgType: int, now: int)
    requires GroupsOk(db)
    ensures var done := SendGroupMessage(db, g, sender, content, msgType, now);
            && GroupsOk(done.db)
            && (done.result == -1 ==> done.db == db)
            && (done.result != -1 ==> done.result == |Posts(db.posts, g)| + 1
                                      && Posts(done.db.posts, g) == Posts(db.posts, g) + [done.db.posts[|db.posts|]])
  {
    hide Stored;
    hide MaxNumber;
    var later := SendGroupMessage(db, g, sender, content, msgType, now).db;
    Dense(db, db.posts, g);
    if later != db {
      assert later.posts[..|db.posts|] == db.posts;
      forall i | 0 <= i < |later.groups| ensures GroupOk(later, i) {
        assert GroupOk(db, i);
      }
      forall m | m in later.members ensures MemberOk(later, m) {
        assert MemberOk(db, m);
      }
      forall i | 0 <= i < |later.posts| ensures PostOk(later, i) {
        assert later.posts[..i] == db.posts[..i];
        if i < |db.posts| {
          assert PostOk(db, i);
        }
      }
    }
  }

  lemma ApplyKeepsGroups(db: Db, op: Op)
    requires GroupsOk(db)
    ensures GroupsOk(Apply(db, op))
  {
    hide GroupsOk;
    hide Stored;
    hide MaxNumber;
    match op
    case OpCreateGroup(owner, name) => CreateKeepsGroups(db, owner, name);
    case OpJoin(g, u) => JoinKeepsGroups(db, g, u);
    case OpPost(g, sender, content, msgType, now) => PostKeepsGroups(db, g, sender, content, msgType, now);
    case OpHandleApply(id, accept) =>
      var found := Find(db.applies, OpenApply(id));
      if found.Some? {
        var row := db.applies[found.value];
        var handled := db.(applies := db.applies[found.value := row.(status := if accept then ACCEPTED else REJECTED)]);
        assert Grows(db, handled);
        OthersKeepGroups(db, handled);
        JoinKeepsGroups(handled, row.group, row.sender);
      }
    case _ =>
      ApplyGrows(db, op);
      OthersKeepGroups(db, Apply(db, op));
  }

  /** Over every run of database calls, in any order, the group invariant holds. */
  lemma {:induction false} GroupInvariant(db: Db, ops: seq<Op>)
    requires GroupsOk(db)
    ensures GroupsOk(ApplyAll(db, ops))
    decreases |ops|
  {
    hide Apply;
    hide GroupsOk;
    if ops != [] {
      ApplyKeepsGroups(db, ops[0]);
      GroupInvariant(Apply(db, ops[0]), ops[1..]);
    }
  }

  // ----- members

  /** `getGroupMembers`, the ids only. */
  function MemberIds(members: seq<MemberRow>, g: int): seq<int> {
    if members == [] then []
    else
      var older, m := members[..|members| - 1], members[|members| - 1];
      MemberIds(older, g) + (if m.group == g then [m.user] else [])
  }

  lemma {:induction false} MemberIdsMeaning(members: seq<MemberRow>, g: int)
    ensures forall u :: u in MemberIds(members, g) <==> exists i :: 0 <= i < |members| && members[i].group == g && members[i].user == u
  {
    if members != [] {
      var older, m := members[..|members| - 1], members[|members| - 1];
      MemberIdsMeaning(older, g);
      assert members == older + [m];
    }
  }

  lemma {:induction false} MemberIdsDistinct(members: seq<MemberRow>, g: int)
    requires forall i, j :: 0 <= i < j < |members| ==> !SameMember(members[i], members[j])
    ensures NoDuplicates(MemberIds(members, g))
  {
    if members != [] {
      var last := |members| - 1;
      var older, m := members[..last], members[last];
      MemberIdsDistinct(older, g);
      MemberIdsMeaning(older, g);
      forall i | 0 <= i < last ensures !(older[i].group == m.group && older[i].user == m.user) {
        assert !SameMember(members[i], members[last]);
      }
      var ids := MemberIds(older, g);
      assert m.group == g ==> m.user !in ids;
      assert forall k :: 0 <= k < |ids| ==> ids[k] in ids;
    }
  }

  // ----- roles

  /** `getGroupOwner`: -1 for an unknown group. */
  function GroupOwner(groups: seq<GroupRow>, g: int): int {
    if groups == [] then -1
    else if groups[|groups| - 1].id == g then groups[|groups| - 1].owner
    else GroupOwner(groups[..|groups| - 1], g)
  }

  lemma {:induction false} GroupOwnerIsRow(db: Db, groups: seq<GroupRow>, g: int)
    requires GroupsOk(db) && groups <= db.groups
    ensures GroupOwner(groups, g) == if 1 <= g <= |groups| then db.groups[g - 1].owner else -1
  {
    if groups != [] {
      GroupOwnerIsRow(db, groups[..|groups| - 1], g);
      assert GroupOk(db, |groups| - 1);
    }
  }

  /** The test in `handleGroupApplyHandle`: some membership row of the user has role 1 or more. */
  predicate Authorized(db: Db, g: int, u: int) {
    exists m :: m in db.members && m.group == g && m.user == u && m.role >= 1
  }

  /**
   The only role in use is the owner's: a group has exactly one member with role 2, the user its
   row names, nobody has role 1, and so the handler's test admits exactly the owner.
   */
  lemma AuthorizedIsOwner(db: Db, g: int, u: int)
    requires GroupsOk(db) && HasGroup(db, g)
    ensures Authorized(db, g, u) <==> u == GroupOwner(db.groups, g)
    ensures forall m :: m in db.members && m.group == g ==>
              m.role != 1 && (m.role == OWNER <==> m == MemberRow(g, GroupOwner(db.groups, g), OWNER))
    ensures MemberRow(g, GroupOwner(db.groups, g), OWNER) in db.members
  {
    KnownGroup(db, g);
    GroupOwnerIsRow(db, db.groups, g);
    assert GroupOk(db, g - 1);
    assert forall m :: m in db.members ==> MemberOk(db, m);
    var o := MemberRow(g, db.groups[g - 1].owner, OWNER);
    if u == o.user {
      assert o.group == g && o.user == u && o.role >= 1;
    }
  }

  /** Joining and accepting never change a row that exists, so ownership is for ever. */
  lemma OwnershipIsForEver(db: Db, ops: seq<Op>, g: int)
    requires GroupsOk(db) && HasGroup(db, g)
    ensures GroupOwner(ApplyAll(db, ops).groups, g) == GroupOwner(db.groups, g)
    ensures db.members <= ApplyAll(db, ops).members
  {
    var later := ApplyAll(db, ops);
    GroupInvariant(db, ops);
    ApplyAllGrows(db, ops);
    KnownGroup(db, g);
    GroupOwnerIsRow(db, db.groups, g);
    GroupOwnerIsRow(later, later.groups, g);
  }

  /** Applications are for existing groups and by users: the foreign keys see to it. Their ids are unique. */
  ghost predicate AppliesOk(db: Db) {
    && (forall r :: r in db.applies ==> HasGroup(db, r.group) && HasUser(db, r.sender))
    && (forall i :: 0 <= i < |db.applies| ==> db.applies[i].id == i + 1)
  }

  lemma ApplyKeepsApplies(db: Db, op: Op)
    requires AppliesOk(db)
    ensures AppliesOk(Apply(db, op))
  {
    ApplyGrows(db, op);
    var later := Apply(db, op);
    forall r | r in later.applies ensures HasGroup(later, r.group) && HasUser(later, r.sender) {
      var i :| 0 <= i < |later.applies| && later.applies[i] == r;
      if i < |db.applies| {
        assert ApplyKept(db.applies[i], later.applies[i]) && db.applies[i] in db.applies;
        GrowsKeeps(db, later, r.sender, r.group);
      }
    }
  }

  /** An accepted applicant is a member from then on. */
  lemma AcceptedIsMember(db: Db, id: int, ops: seq<Op>)
    requires AppliesOk(db) && HandleGroupApply(db, id, true).result
    ensures var r := db.applies[Find(db.applies, OpenApply(id)).value];
            IsMember(ApplyAll(HandleGroupApply(db, id, true).db, ops), r.group, r.sender)
  {
    var r := db.applies[Find(db.applies, OpenApply(id)).value];
    var later := HandleGroupApply(db, id, true).db;
    assert r in db.applies;
    ApplyAllGrows(later, ops);
    assert IsMember(later, r.group, r.sender) by {
      if !IsMember(db, r.group, r.sender) {
        assert later.members[|later.members| - 1] == MemberRow(r.group, r.sender, PLAIN_MEMBER);
      }
    }
    GrowsKeeps(later, ApplyAll(later, ops), r.sender, r.group);
  }

  // ----- history pages

  /** The WHERE clause with the join: the author must be a user, the bound counts if positive. */
  function PageOf(db: Db, g: int, before: int): PostRow -> bool {
    (p: PostRow) => InGroup(p, g) && (before > 0 ==> p.number < before) && HasUser(db, p.sender)
  }

  /** `getGroupHistory`. */
  function GroupPage(db: Db, g: int, before: int, limit: int): seq<PostRow> {
    Reverse(Descending(db.posts, PageOf(db, g, before), limit))
  }

  function Below(before: int): PostRow -> bool {
    (p: PostRow) => before > 0 ==> p.number < before
  }

  lemma GroupPageMeaning(db: Db, g: int, before: int, limit: int)
    requires GroupsOk(db)
    ensures GroupPage(db, g, before, limit) == Suffix(Filter(Posts(db.posts, g), Below(before)), limit)
  {
    PageIsSuffix(db.posts, PageOf(db, g, before), limit);
    forall p | p in db.posts ensures HasUser(db, p.sender) {
      var i :| 0 <= i < |db.posts| && db.posts[i] == p;
      assert PostOk(db, i);
    }
    FilterTwice(db.posts, OfGroup(g), Below(before), PageOf(db, g, before));
  }

  /**
   Pages are intervals: with n messages in the group, the page before k in 1..n+1 with limit l
   holds exactly the messages max(1, k - l) .. k - 1, in order; none is lost by the join.
   */
  lemma PagesAreIntervals(db: Db, g: int, k: nat, limit: nat)
    requires GroupsOk(db) && 1 <= k <= |Posts(db.posts, g)| + 1
    ensures var page := GroupPage(db, g, k, limit);
            && |page| == (if limit < k then limit else k - 1)
            && page == Posts(db.posts, g)[k - 1 - |page|..k - 1]
            && (forall i :: 0 <= i < |page| ==> page[i].number == k - |page| + i)
  {
    var all := Posts(db.posts, g);
    Dense(db, db.posts, g);
    GroupPageMeaning(db, g, k, limit);
    BelowIsPrefix(all, k);
    hide Filter;
    hide GroupPage;
    hide Posts;
  }

  lemma BelowIsPrefix(all: seq<PostRow>, k: nat)
    requires 1 <= k <= |all| + 1 && forall i :: 0 <= i < |all| ==> all[i].number == i + 1
    ensures Filter(all, Below(k)) == all[..k - 1]
  {
    hide Filter;
    hide Below;
    var low, high := all[..k - 1], all[k - 1..];
    assert low + high == all;
    assert forall i :: 0 <= i < |low| ==> low[i].number < k;
    assert forall i :: 0 <= i < |high| ==> high[i].number >= k;
    FilterAppend(low, high, Below(k));
    KeptOrDropped(low, k);
    KeptOrDropped(high, k);
  }

  lemma KeptOrDropped(part: seq<PostRow>, k: nat)
    requires k > 0
    ensures (forall i :: 0 <= i < |part| ==> part[i].number < k) ==> Filter(part, Below(k)) == part
    ensures (forall i :: 0 <= i < |part| ==> part[i].number >= k) ==> Filter(part, Below(k)) == []
  {
    if forall i :: 0 <= i < |part| ==> part[i].number < k {
      FilterAll(part, Below(k));
    }
    if forall i :: 0 <= i < |part| ==> part[i].number >= k {
      FilterNone(part, Below(k));
    }
  }

  /** The first page, asked for with a bound of zero or less, is the page before n + 1. */
  lemma FirstPage(db: Db, g: int, before: int, limit: int)
    requires GroupsOk(db) && before <= 0
    ensures GroupPage(db, g, before, limit) == GroupPage(db, g, |Posts(db.posts, g)| + 1, limit)
  {
    var all := Posts(db.posts, g);
    Dense(db, db.posts, g);
    GroupPageMeaning(db, g, before, limit);
    GroupPageMeaning(db, g, |all| + 1, limit);
    FilterAll(all, Below(before));
    FilterAll(all, Below(|all| + 1));
  }
}
