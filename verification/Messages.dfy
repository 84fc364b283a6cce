/** Private messages: history pages and what a client gets by turning them (`getHistory`). */
module Messages {
  import opened Store
  import opened Cursor

  predicate IsBetween(r: MessageRow, a: int, b: int) {
    (r.sender == a && r.recipient == b) || (r.sender == b && r.recipient == a)
  }

  function Between(a: int, b: int): MessageRow -> bool {
    (r: MessageRow) => IsBetween(r, a, b)
  }

  function Earlier(before: int): MessageRow -> bool {
    (r: MessageRow) => before > 0 ==> r.id < before
  }

  /** The WHERE clause; the second condition is only there for a positive bound. */
  function Matching(a: int, b: int, before: int): MessageRow -> bool {
    (r: MessageRow) => IsBetween(r, a, b) && (before > 0 ==> r.id < before)
  }

  /** `getHistory`. */
  function HistoryPage(rows: seq<MessageRow>, a: int, b: int, before: int, limit: int): seq<MessageRow> {
    Reverse(Descending(rows, Matching(a, b, before), limit))
  }

  /** All messages of the two, oldest first. */
  function Conversation(rows: seq<MessageRow>, a: int, b: int): seq<MessageRow> {
    Filter(rows, Between(a, b))
  }

  ghost predicate IdsGrow(rows: seq<MessageRow>) {
    && (forall i :: 0 <= i < |rows| ==> rows[i].id > 0)
    && (forall i, j :: 0 <= i < j < |rows| ==> rows[i].id < rows[j].id)
  }

  lemma AppendIdsGrow(rows: seq<MessageRow>, newest: MessageRow)
    requires IdsGrow(rows) && newest.id > 0 && forall r :: r in rows ==> r.id < newest.id
    ensures IdsGrow(rows + [newest])
  {
    assert forall i :: 0 <= i < |rows| ==> rows[i] in rows;
  }

  lemma {:induction false} FilterIdsGrow(rows: seq<MessageRow>, keep: MessageRow -> bool)
    requires IdsGrow(rows)
    ensures IdsGrow(Filter(rows, keep))
  {
    if rows != [] {
      var older, newest := rows[..|rows| - 1], rows[|rows| - 1];
      assert newest.id > 0 && forall r :: r in older ==> r.id < newest.id;
      assert IdsGrow(older);
      hide IdsGrow;
      FilterIdsGrow(older, keep);
      FilterMembers(older, keep);
      if keep(newest) {
        AppendIdsGrow(Filter(older, keep), newest);
      } else {
        assert Filter(rows, keep) == Filter(older, keep);
      }
    }
  }

  /** The page is the newest `limit` messages of the conversation that lie before the bound, and the cursor saw them by falling id. */
  lemma HistoryPageMeaning(rows: seq<MessageRow>, a: int, b: int, before: int, limit: int)
    ensures HistoryPage(rows, a, b, before, limit) == Suffix(Filter(Conversation(rows, a, b), Earlier(before)), limit)
    ensures IdsGrow(rows) ==> IdsGrow(HistoryPage(rows, a, b, before, limit))
  {
    PageIsSuffix(rows, Matching(a, b, before), limit);
    FilterTwice(rows, Between(a, b), Earlier(before), Matching(a, b, before));
    if IdsGrow(rows) {
      FilterIdsGrow(rows, Matching(a, b, before));
    }
  }

  lemma HistorySymmetric(rows: seq<MessageRow>, a: int, b: int, before: int, limit: int)
    ensures HistoryPage(rows, a, b, before, limit) == HistoryPage(rows, b, a, before, limit)
  {
    PageIsSuffix(rows, Matching(a, b, before), limit);
    PageIsSuffix(rows, Matching(b, a, before), limit);
    FilterSame(rows, Matching(a, b, before), Matching(b, a, before));
  }

  /** The states of the messages table at successive fetches: others may save in between. */
  ghost predicate Growing(tables: nat -> seq<MessageRow>) {
    && (forall i :: IdsGrow(tables(i)))
    && (forall i, j :: i <= j ==> tables(i) <= tables(j))
  }

  /** Fetching again and again with the first id of the last page, until a page comes back empty. */
  ghost function PagesBefore(tables: nat -> seq<MessageRow>, i: nat, a: int, b: int, before: int, limit: int): seq<MessageRow>
    requires Growing(tables) && before > 0
    decreases before
  {
    var page := HistoryPage(tables(i), a, b, before, limit);
    if page == [] then []
    else
      PageIsBefore(tables(i), a, b, before, limit);
      PagesBefore(tables, i + 1, a, b, page[0].id, limit) + page
  }

  ghost function AllPages(tables: nat -> seq<MessageRow>, a: int, b: int, limit: int): seq<MessageRow>
    requires Growing(tables)
  {
    var page := HistoryPage(tables(0), a, b, 0, limit);
    if page == [] then []
    else
      PageIsBefore(tables(0), a, b, 0, limit);
      PagesBefore(tables, 1, a, b, page[0].id, limit) + page
  }

  lemma PageIsBefore(rows: seq<MessageRow>, a: int, b: int, before: int, limit: int)
    requires IdsGrow(rows)
    ensures forall r :: r in HistoryPage(rows, a, b, before, limit) ==> r.id > 0 && (before > 0 ==> r.id < before)
  {
    var keep := Matching(a, b, before);
    PageIsSuffix(rows, keep, limit);
    FilterMembers(rows, keep);
    SuffixMembers(Filter(rows, keep), limit);
    assert forall r :: r in rows ==> r.id > 0;
  }

  /** A fetch bounded by the k-th message of the first conversation sees exactly the ones before it. */
  lemma EarlierThanKth(tables: nat -> seq<MessageRow>, i: nat, a: int, b: int, k: nat)
    requires Growing(tables) && k < |Conversation(tables(0), a, b)|
    ensures var all := Conversation(tables(0), a, b);
            all[k].id > 0 && Filter(Conversation(tables(i), a, b), Earlier(all[k].id)) == all[..k]
  {
    var all := Conversation(tables(0), a, b);
    var now := Conversation(tables(i), a, b);
    FilterIdsGrow(tables(0), Between(a, b));
    FilterIdsGrow(tables(i), Between(a, b));
    ConversationGrows(tables, i, a, b);
    assert now[..k] == all[..k] && now[k] == all[k];
    EarlierThan(now, k);
  }

  lemma ConversationGrows(tables: nat -> seq<MessageRow>, i: nat, a: int, b: int)
    requires Growing(tables)
    ensures Conversation(tables(0), a, b) <= Conversation(tables(i), a, b)
  {
    assert tables(0) <= tables(i);
    var extra := tables(i)[|tables(0)|..];
    assert tables(i) == tables(0) + extra;
    FilterAppend(tables(0), extra, Between(a, b));
  }

  lemma EarlierThan(rows: seq<MessageRow>, k: nat)
    requires IdsGrow(rows) && k < |rows|
    ensures Filter(rows, Earlier(rows[k].id)) == rows[..k]
  {
    var keep := Earlier(rows[k].id);
    assert rows[..k] + rows[k..] == rows;
    FilterAppend(rows[..k], rows[k..], keep);
    FilterAll(rows[..k], keep);
    FilterNone(rows[k..], keep);
  }

  lemma {:induction false} PagesBeforeKth(tables: nat -> seq<MessageRow>, i: nat, a: int, b: int, k: nat, limit: int)
    requires Growing(tables) && limit != 0 && k < |Conversation(tables(0), a, b)|
    requires Conversation(tables(0), a, b)[k].id > 0
    ensures PagesBefore(tables, i, a, b, Conversation(tables(0), a, b)[k].id, limit) == Conversation(tables(0), a, b)[..k]
    decreases k
  {
    var all := Conversation(tables(0), a, b);
    HistoryPageMeaning(tables(i), a, b, all[k].id, limit);
    EarlierThanKth(tables, i, a, b, k);
    var page := HistoryPage(tables(i), a, b, all[k].id, limit);
    assert page == Suffix(all[..k], limit);
    hide HistoryPage;
    hide Conversation;
    hide Filter;
    if k > 0 {
      var j := k - |page|;
      assert page == all[j..k] && page[0] == all[j];
      EarlierThanKth(tables, i, a, b, j);
      PagesBeforeKth(tables, i + 1, a, b, j, limit);
      assert all[..j] + all[j..k] == all[..k];
    }
  }

  /**
   Turning pages reassembles the conversation: for any limit but zero, the pages joined oldest
   first are the whole history of the pair as of the first fetch, each message once, no matter
   what is saved between the fetches.
   */
  lemma PagingReassembles(tables: nat -> seq<MessageRow>, a: int, b: int, limit: int)
    requires Growing(tables) && limit != 0
    ensures AllPages(tables, a, b, limit) == Conversation(tables(0), a, b)
  {
    var all := Conversation(tables(0), a, b);
    var j := LastPage(tables(0), a, b, limit);
    if all != [] {
      EarlierThanKth(tables, 0, a, b, j);
      PagesBeforeKth(tables, 1, a, b, j, limit);
      hide HistoryPage;
      hide Conversation;
      hide PagesBefore;
      assert all[..j] + all[j..] == all;
    }
  }

  lemma LastPage(rows: seq<MessageRow>, a: int, b: int, limit: int) returns (j: nat)
    requires limit != 0
    ensures var all := Conversation(rows, a, b);
            j <= |all| && HistoryPage(rows, a, b, 0, limit) == all[j..] && (all != [] ==> j < |all|)
  {
    var all := Conversation(rows, a, b);
    HistoryPageMeaning(rows, a, b, 0, limit);
    FilterAll(all, Earlier(0));
    j := |all| - |HistoryPage(rows, a, b, 0, limit)|;
  }

  /** With limit zero nothing is ever returned: the reassembly needs another limit. */
  lemma ZeroLimit(rows: seq<MessageRow>, a: int, b: int, before: int)
    ensures HistoryPage(rows, a, b, before, 0) == []
  {
  }

  // ----- the table that the writes produce

  /** Keys count the rows, and both parties of a message are users. */
  ghost predicate MessagesOk(db: Db) {
    && (forall i :: 0 <= i < |db.users| ==> db.users[i].id == i + 1)
    && (forall i :: 0 <= i < |db.messages| ==>
          && db.messages[i].id == i + 1
          && HasUser(db, db.messages[i].sender) && HasUser(db, db.messages[i].recipient))
  }

  lemma ApplyKeepsMessages(db: Db, op: Op)
    requires MessagesOk(db)
    ensures MessagesOk(Apply(db, op))
  {
    ApplyGrows(db, op);
    var later := Apply(db, op);
    forall i | 0 <= i < |later.messages|
      ensures later.messages[i].id == i + 1 && HasUser(later, later.messages[i].sender) && HasUser(later, later.messages[i].recipient)
    {
      GrowsKeeps(db, later, later.messages[i].sender, 0);
      GrowsKeeps(db, later, later.messages[i].recipient, 0);
      if i < |db.messages| {
        assert later.messages[i] == db.messages[i];
      }
    }
  }

  lemma {:induction false} ApplyAllKeepsMessages(db: Db, ops: seq<Op>)
    requires MessagesOk(db)
    ensures MessagesOk(ApplyAll(db, ops)) && IdsGrow(ApplyAll(db, ops).messages)
    decreases |ops|
  {
    hide Apply;
    if ops != [] {
      ApplyKeepsMessages(db, ops[0]);
      ApplyAllKeepsMessages(Apply(db, ops[0]), ops[1..]);
    }
  }

  /** The database at successive fetches, with any writes in between. */
  function StateAt(db: Db, writes: nat -> seq<Op>, i: nat): Db {
    if i == 0 then db else ApplyAll(StateAt(db, writes, i - 1), writes(i - 1))
  }

  function TableAt(db: Db, writes: nat -> seq<Op>): nat -> seq<MessageRow> {
    (i: nat) => StateAt(db, writes, i).messages
  }

  lemma {:induction false} StateAtGrows(db: Db, writes: nat -> seq<Op>, i: nat, j: nat)
    requires MessagesOk(db) && i <= j
    ensures MessagesOk(StateAt(db, writes, i)) && MessagesOk(StateAt(db, writes, j))
    ensures Grows(StateAt(db, writes, i), StateAt(db, writes, j))
    decreases i + j
  {
    hide MessagesOk;
    hide Grows;
    if i == j {
      if i > 0 {
        StateAtGrows(db, writes, i - 1, i - 1);
        ApplyAllKeepsMessages(StateAt(db, writes, i - 1), writes(i - 1));
      }
      GrowsSame(StateAt(db, writes, i));
    } else {
      var prior := StateAt(db, writes, j - 1);
      StateAtGrows(db, writes, i, j - 1);
      ApplyAllKeepsMessages(prior, writes(j - 1));
      ApplyAllGrows(prior, writes(j - 1));
      GrowsTransitive(StateAt(db, writes, i), prior, StateAt(db, writes, j));
    }
  }

  /**
   Turning pages while the server goes on: whatever database calls run between the fetches, the
   pages make up the conversation as it was at the first fetch.
   */
  lemma PagingThroughRun(db: Db, writes: nat -> seq<Op>, a: int, b: int, limit: int)
    requires MessagesOk(db) && limit != 0
    ensures Growing(TableAt(db, writes))
    ensures AllPages(TableAt(db, writes), a, b, limit) == Conversation(db.messages, a, b)
  {
    var tables := TableAt(db, writes);
    forall i: nat, j: nat | i <= j ensures IdsGrow(tables(i)) && tables(i) <= tables(j) {
      StateAtGrows(db, writes, i, j);
    }
    PagingReassembles(tables, a, b, limit);
  }

  /** A bound of zero or less is none. */
  lemma NoBound(rows: seq<MessageRow>, a: int, b: int, before: int, limit: int)
    requires before <= 0
    ensures HistoryPage(rows, a, b, before, limit) == Suffix(Conversation(rows, a, b), limit)
  {
    HistoryPageMeaning(rows, a, b, before, limit);
    FilterAll(Conversation(rows, a, b), Earlier(before));
  }
}
