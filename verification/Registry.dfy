/** The server's session tables as values: the map of logged-in users and the list of all sessions. */
module Registry {
  import opened Wrappers

  const MAX_CONNECTIONS: nat := 256

  datatype SessionState = CONNECTED | LOGGED_IN | CLOSING

  /** `unregisterSession`: the entry of the session's user goes, if it is this session's. */
  function Unregistered<T(==)>(sessions: map<int, T>, uid: int, s: T): map<int, T> {
    if uid in sessions && sessions[uid] == s then sessions - {uid} else sessions
  }

  /** `remove_if` and `erase`: the list without the session. */
  function Without<T(==)>(all: seq<T>, s: T): seq<T> {
    if all == [] then [] else (if all[0] == s then [] else [all[0]]) + Without(all[1..], s)
  }

  /** One turn of `remove_if`. */
  lemma WithoutStep<T>(all: seq<T>, s: T, i: nat, kept: seq<T>)
    requires i < |all|
    ensures kept + Without(all[i..], s)
            == (if all[i] == s then kept else kept + [all[i]]) + Without(all[i + 1..], s)
  {
    var rest := Without(all[i + 1..], s);
    assert all[i..][1..] == all[i + 1..];
    hide Without;
    assert kept + ([all[i]] + rest) == kept + [all[i]] + rest && [] + rest == rest;
  }

  lemma {:induction false} WithoutKeepsOthers<T>(all: seq<T>, s: T)
    ensures forall t :: t in Without(all, s) <==> t in all && t != s
  {
    if all != [] {
      WithoutKeepsOthers(all[1..], s);
      assert forall t :: t in all <==> t == all[0] || t in all[1..];
    }
  }

  lemma {:induction false} WithoutAbsent<T>(all: seq<T>, s: T)
    requires s !in all
    ensures Without(all, s) == all
  {
    if all != [] {
      WithoutAbsent(all[1..], s);
    }
  }

  /** Removing a listed session shortens a list without duplicates by exactly one. */
  lemma {:induction false} WithoutOne<T>(all: seq<T>, s: T)
    requires NoDuplicates(all) && s in all
    ensures |Without(all, s)| == |all| - 1 && NoDuplicates(Without(all, s))
  {
    if all[0] == s {
      WithoutAbsent(all[1..], s);
    } else {
      WithoutOne(all[1..], s);
      var r := Without(all[1..], s);
      assert Without(all, s) == [all[0]] + r;
      WithoutKeepsOthers(all[1..], s);
      assert all[0] !in r;
    }
  }
}
