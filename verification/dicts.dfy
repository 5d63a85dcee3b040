/** A Python `dict`: key/value pairs kept in insertion order, looked up by key. */
module Dicts {
  import opened Wrappers
  import opened Seqs

  /** The pairs in iteration order; keys are strings, as in every JSON object. A dict built by Python never repeats a key
      (see `Distinct(Keys(d))`); lookups below use the first pair with the key. */
  type Dict<V> = seq<(string, V)>

  /** `list(d.keys())`. */
  function Keys<V>(d: Dict<V>): (ks: seq<string>)
    ensures |ks| == |d|
    ensures forall i | 0 <= i < |d| :: ks[i] == d[i].0
  {
    seq(|d|, i requires 0 <= i < |d| => d[i].0)
  }

  /** `d[k]` when `k` is present, `None` where Python would raise `KeyError`. */
  function Get<V>(d: Dict<V>, k: string): Option<V> {
    if k in Keys(d) then Some(d[IndexOf(Keys(d), k)].1) else None
  }

  /** `d.get(k, default)`. */
  function GetOr<V>(d: Dict<V>, k: string, default: V): V {
    Get(d, k).GetOr(default)
  }

  /** A lookup finds a value exactly when the key is present, and then it is the value
      of the first pair with that key; `i` is that pair. */
  lemma GetFinds<V>(d: Dict<V>, k: string) returns (i: nat)
    ensures Get(d, k).Some? <==> k in Keys(d)
    ensures Get(d, k).Some? ==> i < |d| && d[i] == (k, Get(d, k).value)
    ensures Get(d, k).Some? ==> forall j | 0 <= j < i :: d[j].0 != k
  {
    if k in Keys(d) {
      i := IndexOf(Keys(d), k);
    } else {
      i := 0;
    }
  }

  /** `get` with a default gives the value under the key, or the default when the key
      is absent. */
  lemma GetOrDefault<V>(d: Dict<V>, k: string, default: V)
    ensures k in Keys(d) ==> Get(d, k) == Some(GetOr(d, k, default))
    ensures k !in Keys(d) ==> GetOr(d, k, default) == default
  {
  }

  /** `d[k] = v`, equivalently `d.update({k: v})`: an existing key keeps its place
      and takes the new value; a new key goes to the end. */
  function Put<V>(d: Dict<V>, k: string, v: V): (r: Dict<V>)
    ensures Get(r, k) == Some(v)
    ensures forall k' | k' != k :: Get(r, k') == Get(d, k')
    ensures Keys(r) == if k in Keys(d) then Keys(d) else Keys(d) + [k]
    ensures Distinct(Keys(d)) ==> Distinct(Keys(r))
  {
    if k in Keys(d) then
      var i := IndexOf(Keys(d), k);
      var r := d[i := (k, v)];
      assert Keys(r) == Keys(d);
      r
    else
      var r := d + [(k, v)];
      assert Keys(r) == Keys(d) + [k];
      PutNewKeepsOthers(d, k, v);
      r
  }

  lemma PutNewKeepsOthers<V>(d: Dict<V>, k: string, v: V)
    requires k !in Keys(d)
    ensures forall k' | k' != k :: Get(d + [(k, v)], k') == Get(d, k')
  {
    var r := d + [(k, v)];
    assert Keys(r) == Keys(d) + [k];
    forall k' | k' != k
      ensures Get(r, k') == Get(d, k')
    {
      if k' in Keys(d) {
        IndexOfUnique(Keys(r), k', IndexOf(Keys(d), k'));
      }
    }
  }

  /** In a dict without repeated keys, each pair is what its key looks up. */
  lemma GetAt<V>(d: Dict<V>, i: nat)
    requires Distinct(Keys(d)) && i < |d|
    ensures Get(d, d[i].0) == Some(d[i].1)
  {
    var ks := Keys(d);
    assert ks[i] == d[i].0;
    IndexOfUnique(ks, d[i].0, i);
  }
}
