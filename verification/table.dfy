/**
 * A database table as the model sees it: rows keyed by a serial id. Ids are
 * handed out by a counter that only grows, so every key lies below it, and
 * the rows can be enumerated in id order by counting.
 */
module Table {

  /** Every key of `m` lies in [1, nextId): what a serial primary key guarantees. */
  predicate KeysBelow<V>(m: map<int, V>, nextId: int) {
    forall k :: k in m ==> 1 <= k < nextId
  }

  predicate StrictlyIncreasing(ks: seq<int>) {
    forall i, j :: 0 <= i < j < |ks| ==> ks[i] < ks[j]
  }

  /** The keys of `m` in [lo, hi), in increasing order. */
  function KeysIn<V>(m: map<int, V>, lo: int, hi: int): (ks: seq<int>)
    ensures StrictlyIncreasing(ks)
    ensures forall i :: 0 <= i < |ks| ==> lo <= ks[i] < hi
    ensures forall k :: k in ks <==> k in m && lo <= k < hi
    decreases hi - lo
  {
    if lo >= hi then []
    else if lo in m then [lo] + KeysIn(m, lo + 1, hi)
    else KeysIn(m, lo + 1, hi)
  }

  /** All keys of a table whose keys lie below `nextId`, in id order. */
  function Keys<V>(m: map<int, V>, nextId: int): (ks: seq<int>)
    requires KeysBelow(m, nextId)
    ensures StrictlyIncreasing(ks)
    ensures forall k :: k in ks <==> k in m
  {
    KeysIn(m, 1, nextId)
  }
}
