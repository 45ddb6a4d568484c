/** Python dictionaries keep insertion order, and the order matters here: it
    decides which network wins a tie. A dictionary with string keys is
    modelled as the sequence of its items. */
module Dicts {

  type Dict<V> = seq<(string, V)>

  /** The keys, in iteration order. */
  function Keys<V>(d: Dict<V>): (ks: seq<string>)
    ensures |ks| == |d|
    ensures forall i | 0 <= i < |d| :: ks[i] == d[i].0
  {
    seq(|d|, i requires 0 <= i < |d| => d[i].0)
  }

  /** A dictionary never holds a key twice. */
  predicate DistinctKeys<V>(d: Dict<V>)
  {
    forall i, j | 0 <= i < j < |d| :: d[i].0 != d[j].0
  }

  function IndexOf(ks: seq<string>, k: string): (i: nat)
    requires k in ks
    ensures i < |ks| && ks[i] == k
  {
    if ks[0] == k then 0 else 1 + IndexOf(ks[1..], k)
  }

  /** `d[k] = v`: an existing key keeps its place and gets the new value; a
      new key goes to the end. */
  function Put<V>(d: Dict<V>, k: string, v: V): (r: Dict<V>)
    requires DistinctKeys(d)
    ensures DistinctKeys(r)
    ensures k in Keys(d) ==> Keys(r) == Keys(d)
    ensures k !in Keys(d) ==> r == d + [(k, v)]
    ensures forall i | 0 <= i < |r| :: r[i].0 == k ==> r[i].1 == v
    ensures forall i | 0 <= i < |d| :: d[i].0 != k ==> r[i] == d[i]
  {
    var ks := Keys(d);
    if k in ks then d[IndexOf(ks, k) := (k, v)] else d + [(k, v)]
  }
}
