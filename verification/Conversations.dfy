/** The conversation list (`getConversations`): an aggregate query that must agree with the history pages. */
module Conversations {
  import opened Wrappers
  import opened Store
  import opened Cursor
  import opened Messages

  datatype ConversationRow = ConversationRow(peer: int, nickname: string, content: string, timestamp: int)

  predicate Involves(r: MessageRow, u: int) {
    r.sender == u || r.recipient == u
  }

  /** CASE WHEN from_uid = ?1 THEN to_uid ELSE from_uid END. */
  function Peer(r: MessageRow, u: int): int {
    if r.sender == u then r.recipient else r.sender
  }

  lemma PeerMeaning(r: MessageRow, u: int, p: int)
    ensures Involves(r, u) && Peer(r, u) == p <==> IsBetween(r, u, p)
  {
  }

  function NicknameOf(users: seq<UserRow>, id: int): (r: Option<string>)
    ensures r.Some? <==> exists i :: 0 <= i < |users| && users[i].id == id
    ensures r.Some? ==> exists i :: 0 <= i < |users| && users[i].id == id && users[i].nickname == r.value
  {
    if users == [] then None
    else if users[|users| - 1].id == id then Some(users[|users| - 1].nickname)
    else NicknameOf(users[..|users| - 1], id)
  }

  predicate ByFallingTime(rows: seq<ConversationRow>) {
    forall i, j :: 0 <= i < j < |rows| ==> rows[i].timestamp >= rows[j].timestamp
  }

  function Insert(rows: seq<ConversationRow>, r: ConversationRow): seq<ConversationRow> {
    if rows == [] || rows[0].timestamp < r.timestamp then [r] + rows else [rows[0]] + Insert(rows[1..], r)
  }

  predicate DistinctPeers(rows: seq<ConversationRow>) {
    forall i, j :: 0 <= i < j < |rows| ==> rows[i].peer != rows[j].peer
  }

  lemma {:induction false} InsertMembers(rows: seq<ConversationRow>, r: ConversationRow)
    ensures forall x :: x in Insert(rows, r) <==> x in rows || x == r
  {
    if rows != [] && rows[0].timestamp >= r.timestamp {
      InsertMembers(rows[1..], r);
      assert rows == [rows[0]] + rows[1..];
    }
  }

  lemma PrependKeepsOrder(r: ConversationRow, tail: seq<ConversationRow>)
    ensures ByFallingTime(tail) && (forall x :: x in tail ==> r.timestamp >= x.timestamp) ==> ByFallingTime([r] + tail)
    ensures DistinctPeers(tail) && (forall x :: x in tail ==> r.peer != x.peer) ==> DistinctPeers([r] + tail)
  {
    assert forall i :: 0 <= i < |tail| ==> tail[i] in tail;
  }

  lemma {:induction false} InsertKeepsTime(rows: seq<ConversationRow>, r: ConversationRow)
    requires ByFallingTime(rows)
    ensures ByFallingTime(Insert(rows, r))
  {
    if rows == [] || rows[0].timestamp < r.timestamp {
      assert forall x :: x in rows ==> r.timestamp >= x.timestamp;
      PrependKeepsOrder(r, rows);
    } else {
      assert ByFallingTime(rows[1..]) && forall x :: x in rows[1..] ==> rows[0].timestamp >= x.timestamp;
      hide ByFallingTime;
      InsertKeepsTime(rows[1..], r);
      InsertMembers(rows[1..], r);
      PrependKeepsOrder(rows[0], Insert(rows[1..], r));
    }
  }

  lemma {:induction false} InsertKeepsDistinct(rows: seq<ConversationRow>, r: ConversationRow)
    requires DistinctPeers(rows) && forall x :: x in rows ==> x.peer != r.peer
    ensures DistinctPeers(Insert(rows, r))
  {
    if rows == [] || rows[0].timestamp < r.timestamp {
      PrependKeepsOrder(r, rows);
    } else {
      assert DistinctPeers(rows[1..]) && forall x :: x in rows[1..] ==> x in rows && rows[0].peer != x.peer;
      hide DistinctPeers;
      InsertKeepsDistinct(rows[1..], r);
      InsertMembers(rows[1..], r);
      PrependKeepsOrder(rows[0], Insert(rows[1..], r));
    }
  }

  /** The newest message the two share. */
  ghost predicate IsLast(rows: seq<MessageRow>, u: int, p: int, m: MessageRow) {
    var all := Conversation(rows, u, p);
    all != [] && all[|all| - 1] == m
  }

  lemma LastIsPage(rows: seq<MessageRow>, u: int, p: int, m: MessageRow)
    requires IsLast(rows, u, p, m)
    ensures HistoryPage(rows, u, p, 0, 1) == [m]
  {
    var j := LastPage(rows, u, p, 1);
    HistoryPageMeaning(rows, u, p, 0, 1);
    FilterAll(Conversation(rows, u, p), Earlier(0));
  }

  lemma OneMoreMessage(rows: seq<MessageRow>, i: nat, u: int, p: int)
    requires i < |rows|
    ensures Conversation(rows[..i + 1], u, p)
            == Conversation(rows[..i], u, p) + (if Involves(rows[i], u) && Peer(rows[i], u) == p then [rows[i]] else [])
  {
    assert rows[..i + 1][..i] == rows[..i];
    PeerMeaning(rows[i], u, p);
  }

  ghost predicate GroupedFor(rows: seq<MessageRow>, u: int, last: map<int, MessageRow>, p: int) {
    if p in last then IsLast(rows, u, p, last[p]) else Conversation(rows, u, p) == []
  }

  /** The groups of the inner SELECT: per peer, the message with the greatest id. */
  ghost predicate Grouped(rows: seq<MessageRow>, u: int, last: map<int, MessageRow>) {
    forall p :: GroupedFor(rows, u, last, p)
  }

  /** A message that comes later has a greater id than any in the conversation so far. */
  lemma LaterHasGreaterId(rows: seq<MessageRow>, i: nat, u: int, p: int, m: MessageRow)
    requires i < |rows| && IdsGrow(rows) && IsLast(rows[..i], u, p, m)
    ensures m.id < rows[i].id
  {
    FilterMembers(rows[..i], Between(u, p));
    assert m in Conversation(rows[..i], u, p);
    assert m in rows[..i];
  }

  lemma GroupedForStep(rows: seq<MessageRow>, i: nat, u: int, last: map<int, MessageRow>, next: map<int, MessageRow>, p: int)
    requires i < |rows| && GroupedFor(rows[..i], u, last, p)
    requires next == if Involves(rows[i], u) then last[Peer(rows[i], u) := rows[i]] else last
    ensures GroupedFor(rows[..i + 1], u, next, p)
  {
    OneMoreMessage(rows, i, u, p);
    hide Conversation;
  }

  lemma GroupedStep(rows: seq<MessageRow>, i: nat, u: int, last: map<int, MessageRow>, next: map<int, MessageRow>)
    requires i < |rows| && Grouped(rows[..i], u, last)
    requires next == if Involves(rows[i], u) then last[Peer(rows[i], u) := rows[i]] else last
    ensures Grouped(rows[..i + 1], u, next)
  {
    var now := rows[..i + 1];
    forall p: int ensures GroupedFor(now, u, next, p) {
      assert GroupedFor(rows[..i], u, last, p);
      GroupedForStep(rows, i, u, last, next, p);
    }
  }

  method LastPerPeer(rows: seq<MessageRow>, u: int) returns (last: map<int, MessageRow>, peers: seq<int>)
    requires IdsGrow(rows)
    ensures Grouped(rows, u, last)
    ensures NoDuplicates(peers) && forall p :: p in peers <==> p in last
  {
    last, peers := map[], [];
    for i := 0 to |rows|
      invariant Grouped(rows[..i], u, last)
      invariant NoDuplicates(peers) && forall p :: p in peers <==> p in last
    {
      var r := rows[i];
      GroupedStep(rows, i, u, last, if Involves(r, u) then last[Peer(r, u) := r] else last);
      if Involves(r, u) {
        var p := Peer(r, u);
        if p !in last {
          peers := peers + [p];
          last := last[p := r];
        } else {
          assert GroupedFor(rows[..i], u, last, p);
          LaterHasGreaterId(rows, i, u, p, last[p]);
          if last[p].id < r.id {
            last := last[p := r];
          }
        }
      }
    }
    assert rows[..|rows|] == rows;
  }

  /** A row of the result: the peer's name and the newest message of the two. */
  ghost predicate RowAgrees(db: Db, u: int, c: ConversationRow) {
    var page := HistoryPage(db.messages, u, c.peer, 0, 1);
    && |page| == 1 && c.content == page[0].content && c.timestamp == page[0].timestamp
    && exists k :: 0 <= k < |db.users| && db.users[k].id == c.peer && db.users[k].nickname == c.nickname
  }

  lemma PeerIsUser(db: Db, u: int, p: int, m: MessageRow)
    requires MessagesOk(db) && IsLast(db.messages, u, p, m)
    ensures HasUser(db, p)
  {
    FilterMembers(db.messages, Between(u, p));
    assert m in Conversation(db.messages, u, p);
    assert m in db.messages && IsBetween(m, u, p);
  }

  predicate Listed(rows: seq<ConversationRow>, p: int) {
    exists c :: c in rows && c.peer == p
  }

  ghost predicate ExactlyPeers(rows: seq<ConversationRow>, peers: seq<int>) {
    (forall p :: p in peers ==> Listed(rows, p)) && (forall c :: c in rows ==> c.peer in peers)
  }

  lemma InsertPeer(rows: seq<ConversationRow>, r: ConversationRow, peers: seq<int>)
    requires ExactlyPeers(rows, peers)
    ensures ExactlyPeers(Insert(rows, r), peers + [r.peer])
  {
    InsertMembers(rows, r);
    hide Insert;
    forall p | p in peers + [r.peer] ensures Listed(Insert(rows, r), p) {
      if p == r.peer {
        assert r in Insert(rows, r);
      } else {
        assert Listed(rows, p);
        var c :| c in rows && c.peer == p;
        assert c in Insert(rows, r);
      }
    }
  }

  /**
   `getConversations`: one row per peer the user shares a message with, himself included if he
   writes to himself; each shows what the newest one-row history page of the two shows; the
   latest conversation comes first. There is no limit on the number of rows.
   */
  method SelectConversations(db: Db, u: int) returns (rows: seq<ConversationRow>)
    requires MessagesOk(db)
    ensures forall p :: Conversation(db.messages, u, p) != [] <==> Listed(rows, p)
    ensures Agrees(db, u, rows)
  {
    hide Agrees;
    hide Conversation;
    var last, peers := LastPerPeer(db.messages, u);
    rows := [];
    NothingAgrees(db, u);
    for i := 0 to |peers|
      invariant ExactlyPeers(rows, peers[..i]) && Agrees(db, u, rows)
    {
      var p := peers[i];
      assert GroupedFor(db.messages, u, last, p);
      PeerIsUser(db, u, p, last[p]);
      var row := ConversationRow(p, NicknameOf(db.users, p).value, last[p].content, last[p].timestamp);
      LastAgrees(db, u, last[p], row);
      assert p !in peers[..i];
      InsertAgrees(db, u, rows, row);
      InsertPeer(rows, row, peers[..i]);
      rows := Insert(rows, row);
      assert peers[..i + 1] == peers[..i] + [p];
    }
    assert peers[..|peers|] == peers;
    forall p ensures Conversation(db.messages, u, p) != [] <==> Listed(rows, p) {
      assert GroupedFor(db.messages, u, last, p);
    }
  }

  /** What the rows of the result show, and in which order. */
  ghost predicate Agrees(db: Db, u: int, rows: seq<ConversationRow>) {
    DistinctPeers(rows) && ByFallingTime(rows) && forall c :: c in rows ==> RowAgrees(db, u, c)
  }

  lemma NothingAgrees(db: Db, u: int)
    ensures Agrees(db, u, [])
  {
  }

  lemma InsertAgrees(db: Db, u: int, rows: seq<ConversationRow>, r: ConversationRow)
    requires Agrees(db, u, rows) && RowAgrees(db, u, r) && forall x :: x in rows ==> x.peer != r.peer
    ensures Agrees(db, u, Insert(rows, r))
  {
    hide RowAgrees;
    InsertMembers(rows, r);
    InsertKeepsTime(rows, r);
    InsertKeepsDistinct(rows, r);
  }

  lemma LastAgrees(db: Db, u: int, m: MessageRow, c: ConversationRow)
    requires IsLast(db.messages, u, c.peer, m) && c.content == m.content && c.timestamp == m.timestamp
    requires NicknameOf(db.users, c.peer) == Some(c.nickname)
    ensures RowAgrees(db, u, c)
  {
    LastIsPage(db.messages, u, c.peer, m);
  }

  // ----- latest first

  /** The clock does not run backwards from one save to the next. */
  ghost predicate TimesGrow(rows: seq<MessageRow>) {
    forall i, j :: 0 <= i < j < |rows| ==> rows[i].timestamp <= rows[j].timestamp
  }

  ghost predicate Clocked(db: Db, ops: seq<Op>)
    decreases |ops|
  {
    ops == [] || ((ops[0].OpSave? ==> forall m :: m in db.messages ==> m.timestamp <= ops[0].now) && Clocked(Apply(db, ops[0]), ops[1..]))
  }

  lemma SaveKeepsTimes(db: Db, op: Op)
    requires TimesGrow(db.messages) && (op.OpSave? ==> forall m :: m in db.messages ==> m.timestamp <= op.now)
    ensures TimesGrow(Apply(db, op).messages)
  {
    hide Stored;
    hide MaxNumber;
    hide HasUser;
    hide HasGroup;
    hide IsMember;
    assert forall i :: 0 <= i < |db.messages| ==> db.messages[i] in db.messages;
  }

  lemma {:induction false} RunKeepsTimes(db: Db, ops: seq<Op>)
    requires TimesGrow(db.messages) && Clocked(db, ops)
    ensures TimesGrow(ApplyAll(db, ops).messages)
    decreases |ops|
  {
    hide Apply;
    hide TimesGrow;
    if ops != [] {
      SaveKeepsTimes(db, ops[0]);
      RunKeepsTimes(Apply(db, ops[0]), ops[1..]);
    }
  }

  /** The id of the newest message the two share. */
  function LastId(db: Db, u: int, p: int): int {
    var page := HistoryPage(db.messages, u, p, 0, 1);
    if page == [] then 0 else page[0].id
  }

  lemma LastIsStored(db: Db, u: int, p: int)
    requires MessagesOk(db) && HistoryPage(db.messages, u, p, 0, 1) != []
    ensures var m := HistoryPage(db.messages, u, p, 0, 1)[0];
            1 <= m.id <= |db.messages| && m == db.messages[m.id - 1]
  {
    PageIsSuffix(db.messages, Matching(u, p, 0), 1);
    FilterMembers(db.messages, Matching(u, p, 0));
    SuffixMembers(Filter(db.messages, Matching(u, p, 0)), 1);
    var page := HistoryPage(db.messages, u, p, 0, 1);
    assert page[0] in page && page[0] in db.messages;
  }

  /** With a clock that does not run backwards, the conversation with the latest message comes first, up to equal times. */
  lemma LatestFirst(db: Db, u: int, rows: seq<ConversationRow>, i: nat, j: nat)
    requires MessagesOk(db) && TimesGrow(db.messages) && Agrees(db, u, rows) && i < j < |rows|
    ensures LastId(db, u, rows[i].peer) > LastId(db, u, rows[j].peer) || rows[i].timestamp == rows[j].timestamp
  {
    assert RowAgrees(db, u, rows[i]) && RowAgrees(db, u, rows[j]);
    LastIsStored(db, u, rows[i].peer);
    LastIsStored(db, u, rows[j].peer);
    hide HistoryPage;
    var a, b := LastId(db, u, rows[i].peer), LastId(db, u, rows[j].peer);
    assert a == b ==> db.messages[a - 1] == db.messages[b - 1];
    assert a < b ==> db.messages[a - 1].timestamp <= db.messages[b - 1].timestamp;
  }
}
