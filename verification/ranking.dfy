/**
 * `find(...).sort({ <stamp>: -1 }).limit(n)`: the `n` newest documents,
 * newest first. Documents with equal stamps may come in either order, as
 * in the database.
 */
module Ranking {
  import opened Models

  /** The stamped document in `pool` with the latest stamp. */
  method Newest(stamps: map<Id, Time>, pool: set<Id>) returns (x: Id)
    requires pool != {} && pool <= stamps.Keys
    ensures x in pool
    ensures forall y :: y in pool ==> stamps[y] <= stamps[x]
  {
    x :| x in pool;
    var todo := pool - {x};
    while todo != {}
      invariant todo <= pool && x in pool
      invariant forall y :: y in pool && y !in todo ==> stamps[y] <= stamps[x]
      decreases |todo|
    {
      var y :| y in todo;
      if stamps[y] > stamps[x] {
        x := y;
      }
      todo := todo - {y};
    }
  }

  /**
   * The `limit` newest ids of `stamps`, newest first, without repetition;
   * no id left out is newer than any id returned.
   */
  method TopNewest(stamps: map<Id, Time>, limit: nat) returns (r: seq<Id>)
    ensures |r| == if |stamps| < limit then |stamps| else limit
    ensures forall i :: 0 <= i < |r| ==> r[i] in stamps
    ensures forall i, j :: 0 <= i < j < |r| ==> r[i] != r[j]
    ensures forall i, j :: 0 <= i < j < |r| ==> stamps[r[i]] >= stamps[r[j]]
    ensures forall id, i :: id in stamps && id !in r && 0 <= i < |r| ==> stamps[id] <= stamps[r[i]]
  {
    r := [];
    var rest := stamps.Keys;
    while |r| < limit && rest != {}
      invariant rest <= stamps.Keys
      invariant |r| <= limit
      invariant |r| + |rest| == |stamps|
      invariant forall i :: 0 <= i < |r| ==> r[i] in stamps && r[i] !in rest
      invariant forall id :: id in stamps ==> id in rest || id in r
      invariant forall i, j :: 0 <= i < j < |r| ==> r[i] != r[j]
      invariant forall i, j :: 0 <= i < j < |r| ==> stamps[r[i]] >= stamps[r[j]]
      invariant forall id, i :: id in rest && 0 <= i < |r| ==> stamps[id] <= stamps[r[i]]
      decreases |rest|
    {
      var x := Newest(stamps, rest);
      r := r + [x];
      rest := rest - {x};
    }
  }
}
