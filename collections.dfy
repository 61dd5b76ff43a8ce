/** The natural order in which a collection hands out its documents: by id, that is, by insertion. */
module Collections {

  predicate StrictlyIncreasing(ks: seq<nat>)
  {
    forall i, j :: 0 <= i < j < |ks| ==> ks[i] < ks[j]
  }

  /** The keys of `m` below `n`, in increasing order: each exactly once, and nothing else. */
  function KeysInOrder<V>(m: map<nat, V>, n: nat): (ks: seq<nat>)
    ensures StrictlyIncreasing(ks)
    ensures forall i :: 0 <= i < |ks| ==> ks[i] in m && ks[i] < n
    ensures forall k :: k in m && k < n ==> k in ks
    decreases n
  {
    if n == 0 then []
    else if n - 1 in m then KeysInOrder(m, n - 1) + [n - 1]
    else KeysInOrder(m, n - 1)
  }

  /** Keys at or above `n` play no part in the listing below `n`. */
  lemma {:induction false} KeysInOrderBelow<V>(m: map<nat, V>, n: nat, k: nat, v: V)
    requires n <= k
    ensures KeysInOrder(m[k := v], n) == KeysInOrder(m, n)
    decreases n
  {
    if n > 0 {
      KeysInOrderBelow(m, n - 1, k, v);
    }
  }
}
