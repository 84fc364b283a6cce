/**
 What a statement of the form SELECT ... WHERE keep ORDER BY key DESC LIMIT n yields on a table
 whose keys grow with the row position, and what is left after `std::reverse`.
 A negative limit is none.
 */
module Cursor {
  function Filter<T>(rows: seq<T>, keep: T -> bool): seq<T> {
    if rows == [] then []
    else Filter(rows[..|rows| - 1], keep) + (if keep(rows[|rows| - 1]) then [rows[|rows| - 1]] else [])
  }

  /** The rows in the order the cursor steps through them: newest first. */
  function Descending<T>(rows: seq<T>, keep: T -> bool, limit: int): seq<T> {
    if rows == [] || limit == 0 then []
    else
      var older, newest := rows[..|rows| - 1], rows[|rows| - 1];
      if keep(newest) then [newest] + Descending(older, keep, limit - 1) else Descending(older, keep, limit)
  }

  function Reverse<T>(s: seq<T>): (r: seq<T>)
    ensures |r| == |s| && forall i :: 0 <= i < |s| ==> r[i] == s[|s| - 1 - i]
  {
    if s == [] then [] else Reverse(s[1..]) + [s[0]]
  }

  /** The last elements, or all of them. */
  function Suffix<T>(s: seq<T>, limit: int): seq<T> {
    if limit < 0 || limit >= |s| then s else s[|s| - limit..]
  }

  /** Stepping a statement until it is done or the limit is reached. */
  method Select<T>(rows: seq<T>, keep: T -> bool, limit: int) returns (found: seq<T>)
    ensures found == Descending(rows, keep, limit)
  {
    found := [];
    var i := |rows|;
    assert rows[..i] == rows;
    while i > 0 && |found| != limit
      invariant 0 <= i <= |rows| && (limit >= 0 ==> |found| <= limit)
      invariant Descending(rows, keep, limit) == found + Descending(rows[..i], keep, limit - |found|)
    {
      i := i - 1;
      assert rows[..i + 1][..i] == rows[..i];
      if keep(rows[i]) {
        found := found + [rows[i]];
      }
    }
  }

  lemma SuffixMembers<T>(s: seq<T>, limit: int)
    ensures forall x :: x in Suffix(s, limit) ==> x in s
  {
  }

  /** No limit takes everything, and any other as many elements from the end as there are, at most that many. */
  lemma SuffixIsEnd<T>(s: seq<T>, limit: int)
    ensures |Suffix(s, limit)| == if 0 <= limit < |s| then limit else |s|
    ensures s == s[..|s| - |Suffix(s, limit)|] + Suffix(s, limit)
  {
  }

  lemma SuffixGrows<T>(s: seq<T>, x: T, limit: int)
    requires limit != 0
    ensures Suffix(s + [x], limit) == Suffix(s, limit - 1) + [x]
  {
  }

  lemma ReverseFirst<T>(x: T, s: seq<T>)
    ensures Reverse([x] + s) == Reverse(s) + [x]
  {
    assert ([x] + s)[1..] == s;
  }

  /** The page is the last matching rows, oldest first. */
  lemma {:induction false} PageIsSuffix<T>(rows: seq<T>, keep: T -> bool, limit: int)
    ensures Reverse(Descending(rows, keep, limit)) == Suffix(Filter(rows, keep), limit)
  {
    if rows != [] && limit != 0 {
      var older, newest := rows[..|rows| - 1], rows[|rows| - 1];
      if keep(newest) {
        PageIsSuffix(older, keep, limit - 1);
        ReverseFirst(newest, Descending(older, keep, limit - 1));
        SuffixGrows(Filter(older, keep), newest, limit);
        hide Suffix;
        hide Reverse;
      } else {
        PageIsSuffix(older, keep, limit);
        assert Filter(rows, keep) == Filter(older, keep);
      }
    }
  }

  lemma {:induction false} FilterAppend<T>(a: seq<T>, b: seq<T>, keep: T -> bool)
    ensures Filter(a + b, keep) == Filter(a, keep) + Filter(b, keep)
  {
    if b == [] {
      assert a + b == a;
    } else {
      assert (a + b)[..|a + b| - 1] == a + b[..|b| - 1];
      FilterAppend(a, b[..|b| - 1], keep);
    }
  }

  lemma {:induction false} FilterTwice<T>(rows: seq<T>, first: T -> bool, second: T -> bool, both: T -> bool)
    requires forall x :: x in rows ==> (both(x) <==> first(x) && second(x))
    ensures Filter(Filter(rows, first), second) == Filter(rows, both)
  {
    if rows != [] {
      var older, newest := rows[..|rows| - 1], rows[|rows| - 1];
      FilterTwice(older, first, second, both);
      if first(newest) {
        var f := Filter(older, first);
        assert (f + [newest])[..|f|] == f;
      } else {
        assert Filter(rows, first) == Filter(older, first);
      }
    }
  }

  lemma {:induction false} FilterSame<T>(rows: seq<T>, p: T -> bool, q: T -> bool)
    requires forall x :: x in rows ==> (p(x) <==> q(x))
    ensures Filter(rows, p) == Filter(rows, q)
  {
    if rows != [] {
      FilterSame(rows[..|rows| - 1], p, q);
    }
  }

  lemma {:induction false} FilterAll<T>(rows: seq<T>, keep: T -> bool)
    requires forall x :: x in rows ==> keep(x)
    ensures Filter(rows, keep) == rows
  {
    if rows != [] {
      var older, newest := rows[..|rows| - 1], rows[|rows| - 1];
      assert rows == older + [newest] && newest in rows;
      FilterAll(older, keep);
    }
  }

  lemma {:induction false} FilterNone<T>(rows: seq<T>, keep: T -> bool)
    requires forall x :: x in rows ==> !keep(x)
    ensures Filter(rows, keep) == []
  {
    if rows != [] {
      var older, newest := rows[..|rows| - 1], rows[|rows| - 1];
      assert rows == older + [newest] && newest in rows;
      FilterNone(older, keep);
    }
  }

  lemma {:induction false} FilterMembers<T>(rows: seq<T>, keep: T -> bool)
    ensures forall x :: x in Filter(rows, keep) <==> x in rows && keep(x)
  {
    if rows != [] {
      var older, newest := rows[..|rows| - 1], rows[|rows| - 1];
      FilterMembers(older, keep);
      assert rows == older + [newest];
    }
  }
}
