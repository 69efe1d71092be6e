/** A Python `dict[str, str]`: its items in insertion order, keys distinct.
    Keeping the order matters because `Morphology.tags_to_string` and
    `get_all_feature_instances` both expose it. */
module Dicts {
  import opened Wrappers

  type Items = seq<(string, string)>

  predicate DistinctKeys(items: Items)
  {
    forall i, j :: 0 <= i < j < |items| ==> items[i].0 != items[j].0
  }

  type Dict = items: Items | DistinctKeys(items)

  /** `d.keys()`, in order. */
  function Keys(d: Items): (ks: seq<string>)
    ensures |ks| == |d| && forall i :: 0 <= i < |d| ==> ks[i] == d[i].0
  {
    if d == [] then [] else [d[0].0] + Keys(d[1..])
  }

  /** `d.get(k)`. */
  function Get(d: Items, k: string): (r: Option<string>)
    ensures r.Some? <==> k in Keys(d)
    ensures r.Some? ==> (k, r.value) in d
  {
    if d == [] then None
    else if d[0].0 == k then Some(d[0].1)
    else Get(d[1..], k)
  }

  /** Looking up each key of a three-item dict with distinct keys. */
  lemma GetOfThree(ka: string, va: string, kb: string, vb: string, kc: string, vc: string)
    requires ka != kb && ka != kc && kb != kc
    ensures Get([(ka, va), (kb, vb), (kc, vc)], ka) == Some(va)
    ensures Get([(ka, va), (kb, vb), (kc, vc)], kb) == Some(vb)
    ensures Get([(ka, va), (kb, vb), (kc, vc)], kc) == Some(vc)
  {
    var d := [(ka, va), (kb, vb), (kc, vc)];
    assert d[1..] == [(kb, vb), (kc, vc)];
    assert d[1..][1..] == [(kc, vc)];
  }

  /** In a dict the value found for an item's key is that item's value. */
  lemma {:induction false} GetAt(d: Dict, i: nat)
    requires i < |d|
    ensures Get(d, d[i].0) == Some(d[i].1)
  {
    if i > 0 {
      assert d[0].0 != d[i].0;
      var tail: Dict := d[1..];
      GetAt(tail, i - 1);
    }
  }

  /** Appending a fresh key leaves every other lookup alone. */
  lemma {:induction false} GetAppend(d: Items, k: string, v: string, q: string)
    ensures Get(d + [(k, v)], q) == if Get(d, q).Some? then Get(d, q) else if q == k then Some(v) else None
  {
    if d != [] {
      assert (d + [(k, v)])[1..] == d[1..] + [(k, v)];
      GetAppend(d[1..], k, v, q);
    }
  }

  /** `d[k] = v`: replaces the value in place when `k` is present, otherwise
      appends the pair at the end. */
  function Put(d: Dict, k: string, v: string): (r: Dict)
    ensures Get(r, k) == Some(v)
    ensures forall q :: q != k ==> Get(r, q) == Get(d, q)
    ensures Keys(r) == if k in Keys(d) then Keys(d) else Keys(d) + [k]
  {
    if k in Keys(d) then
      var r := seq(|d|, i requires 0 <= i < |d| => if d[i].0 == k then (k, v) else d[i]);
      assert Keys(r) == Keys(d);
      assert DistinctKeys(r);
      PutInPlace(d, r, k, v);
      r
    else
      var r := d + [(k, v)];
      assert DistinctKeys(r) by {
        forall i, j | 0 <= i < j < |r| ensures r[i].0 != r[j].0 {
          if j == |d| { assert r[i].0 == Keys(d)[i]; }
        }
      }
      forall q ensures Get(r, q) == if Get(d, q).Some? then Get(d, q) else if q == k then Some(v) else None {
        GetAppend(d, k, v, q);
      }
      r
  }

  /** `d[k] = v` for a key not yet in the dict appends the item. */
  lemma PutFresh(d: Dict, k: string, v: string)
    requires k !in Keys(d)
    ensures Put(d, k, v) == d + [(k, v)]
  {
  }

  /** Lookups after an in-place replacement of `k`'s value. */
  lemma {:induction false} PutInPlace(d: Items, r: Items, k: string, v: string)
    requires |r| == |d| && forall i :: 0 <= i < |d| ==> r[i] == if d[i].0 == k then (k, v) else d[i]
    ensures k in Keys(d) ==> Get(r, k) == Some(v)
    ensures forall q :: q != k ==> Get(r, q) == Get(d, q)
  {
    if d != [] {
      PutInPlace(d[1..], r[1..], k, v);
    }
  }
}
