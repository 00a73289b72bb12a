/** A JavaScript plain object used as a dictionary (`Record<string, V>`): an
    association list with distinct keys in insertion order, which is the order
    `Object.keys` and `Object.entries` report for non-numeric keys. */
module Records {
  import opened Wrappers
  import Seqs

  predicate KeysUnique<V>(r: seq<(string, V)>) {
    forall i, j :: 0 <= i < j < |r| ==> r[i].0 != r[j].0
  }

  type Record<V> = r: seq<(string, V)> | KeysUnique(r) witness []

  /** `Object.keys(r)`. */
  function Keys<V>(r: Record<V>): (ks: seq<string>)
    ensures |ks| == |r|
    ensures forall i :: 0 <= i < |r| ==> ks[i] == r[i].0
    ensures Seqs.NoDups(ks)
  {
    seq(|r|, i requires 0 <= i < |r| => r[i].0)
  }

  /** Position of key `k`, if present. */
  function Find<V>(r: Record<V>, k: string): (o: Option<nat>)
    ensures o.Some? ==> o.value < |r| && r[o.value].0 == k
    ensures o.None? <==> k !in Keys(r)
  {
    if exists i :: 0 <= i < |r| && r[i].0 == k then
      var i :| 0 <= i < |r| && r[i].0 == k;
      Some(i)
    else
      None
  }

  /** `r[k]`, with `None` for `undefined`. */
  function Get<V>(r: Record<V>, k: string): (o: Option<V>)
    ensures o.Some? <==> k in Keys(r)
    ensures forall i :: 0 <= i < |r| && r[i].0 == k ==> o == Some(r[i].1)
  {
    match Find(r, k)
    case None => None
    case Some(i) => Some(r[i].1)
  }

  /** `r[k] = v`: an existing key keeps its place, a new key goes last. */
  function Put<V>(r: Record<V>, k: string, v: V): (r': Record<V>)
    ensures Get(r', k) == Some(v)
    ensures forall j :: j != k ==> Get(r', j) == Get(r, j)
    ensures k in Keys(r) ==> Keys(r') == Keys(r)
    ensures k !in Keys(r) ==> Keys(r') == Keys(r) + [k]
  {
    match Find(r, k)
    case Some(i) =>
      var r' := r[i := (k, v)];
      assert Keys(r') == Keys(r);
      r'
    case None =>
      var r' := r + [(k, v)];
      assert Keys(r') == Keys(r) + [k];
      r'
  }

  /** The entries after the first, in order: still a record. */
  function Rest<V>(r: Record<V>): (t: Record<V>)
    requires |r| > 0
    ensures |t| == |r| - 1 && forall i :: 0 <= i < |t| ==> t[i] == r[i + 1]
    ensures Keys(t) == Keys(r)[1..]
  {
    var t: Record<V> := r[1..];
    assert Keys(t) == Keys(r)[1..];
    t
  }

  /** The empty object `{}`. */
  function Empty<V>(): (r: Record<V>)
    ensures Keys(r) == []
  {
    []
  }
}
