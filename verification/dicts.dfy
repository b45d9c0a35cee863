/** A Python `dict`: an insertion-ordered sequence of key/value pairs. */
module Dicts {
  import opened Wrappers

  type Dict<K, V> = seq<(K, V)>

  /** The keys in iteration order. */
  function Keys<K, V>(d: Dict<K, V>): (ks: seq<K>)
    ensures |ks| == |d|
    ensures forall i :: 0 <= i < |d| ==> ks[i] == d[i].0
  {
    if d == [] then [] else [d[0].0] + Keys(d[1..])
  }

  /** A dict never holds a key twice. */
  ghost predicate DistinctKeys<K, V>(d: Dict<K, V>) {
    forall i, j :: 0 <= i < j < |d| ==> d[i].0 != d[j].0
  }

  /** `d.get(k)`. */
  function Get<K(==), V>(d: Dict<K, V>, k: K): (r: Option<V>)
    ensures r.None? <==> k !in Keys(d)
    ensures r.Some? ==> (k, r.value) in d
  {
    if d == [] then None
    else if d[0].0 == k then Some(d[0].1)
    else Get(d[1..], k)
  }

  /** `d[k] = v`: the entry for `k` is overwritten where it stands, or appended. */
  function Set<K(==, !new), V>(d: Dict<K, V>, k: K, v: V): (r: Dict<K, V>)
    ensures Get(r, k) == Some(v)
    ensures forall j :: j != k ==> Get(r, j) == Get(d, j)
  {
    if d == [] then [(k, v)]
    else if d[0].0 == k then
      assert ([(k, v)] + d[1..])[1..] == d[1..];
      [(k, v)] + d[1..]
    else
      var rest := Set(d[1..], k, v);
      var r := [d[0]] + rest;
      assert r[0] == d[0] && r[1..] == rest;
      r
  }

  /** Writing a key keeps the order of the keys, appending the key if it is new. */
  lemma {:induction false} SetKeys<K(!new), V>(d: Dict<K, V>, k: K, v: V)
    ensures Keys(Set(d, k, v)) == if k in Keys(d) then Keys(d) else Keys(d) + [k]
  {
    var r := Set(d, k, v);
    if k in Keys(d) {
      SetInPlace(d, k, v);
      forall i | 0 <= i < |r| ensures Keys(r)[i] == Keys(d)[i] {
        assert Keys(r)[i] == r[i].0 && Keys(d)[i] == d[i].0;
      }
      assert Keys(r) == Keys(d);
    } else {
      SetNew(d, k, v);
      var ks := Keys(d) + [k];
      forall i | 0 <= i < |r| ensures Keys(r)[i] == ks[i] {
        if i < |d| {
          assert r[i] == d[i] && ks[i] == Keys(d)[i];
        }
      }
      assert Keys(r) == ks;
    }
  }

  /** Writing a key the dict holds changes no key and no position. */
  lemma {:induction false} SetInPlace<K(!new), V>(d: Dict<K, V>, k: K, v: V)
    requires k in Keys(d)
    ensures |Set(d, k, v)| == |d| && forall i :: 0 <= i < |d| ==> Set(d, k, v)[i].0 == d[i].0
  {
    assert Keys(d)[0] == d[0].0;
    if d[0].0 != k {
      var rest := Set(d[1..], k, v);
      assert Keys(d) == [d[0].0] + Keys(d[1..]);
      SetInPlace(d[1..], k, v);
      assert Set(d, k, v) == [d[0]] + rest;
    }
  }

  /** Every key of the tail is a key of the dict. */
  lemma KeysOfTail<K, V>(d: Dict<K, V>)
    requires d != []
    ensures forall k :: k in Keys(d[1..]) ==> k in Keys(d)
  {
    forall k | k in Keys(d[1..]) ensures k in Keys(d) {
      var i :| 0 <= i < |d| - 1 && Keys(d[1..])[i] == k;
      assert d[1..][i] == d[i + 1] && Keys(d)[i + 1] == k;
    }
  }

  /** The keys of a prefix are the prefix of the keys. */
  lemma KeysPrefix<K, V>(d: Dict<K, V>, n: nat)
    requires n <= |d|
    ensures Keys(d[..n]) == Keys(d)[..n]
  {
    forall i | 0 <= i < n ensures Keys(d[..n])[i] == Keys(d)[i] {
      assert d[..n][i] == d[i];
    }
  }

  /** Writing a key the dict does not hold appends one entry at the end. */
  lemma {:induction false} SetNew<K(!new), V>(d: Dict<K, V>, k: K, v: V)
    requires k !in Keys(d)
    ensures Set(d, k, v) == d + [(k, v)]
  {
    if d != [] {
      assert Keys(d)[0] == d[0].0;
      assert k !in Keys(d[1..]) by {
        KeysOfTail(d);
      }
      SetNew(d[1..], k, v);
      var rest := d[1..] + [(k, v)];
      assert Set(d, k, v) == [d[0]] + rest;
      ConsSnoc(d, (k, v));
    }
  }

  lemma ConsSnoc<T>(s: seq<T>, e: T)
    requires s != []
    ensures [s[0]] + (s[1..] + [e]) == s + [e]
  {
    assert s == [s[0]] + s[1..];
  }

  /** Writing a key twice leaves only the second value, where the first write put it. */
  lemma {:induction false} SetOverwrite<K(!new), V>(d: Dict<K, V>, k: K, v1: V, v2: V)
    ensures Set(Set(d, k, v1), k, v2) == Set(d, k, v2)
  {
    var r1 := Set(d, k, v1);
    if d == [] {
      assert r1 == [(k, v1)] && r1[1..] == [];
    } else if d[0].0 == k {
      assert r1[0].0 == k && r1[1..] == d[1..];
    } else {
      SetOverwrite(d[1..], k, v1, v2);
      assert r1[0] == d[0] && r1[1..] == Set(d[1..], k, v1);
    }
  }

  /** Writing a key keeps the keys of a dict distinct. */
  lemma SetDistinct<K(!new), V>(d: Dict<K, V>, k: K, v: V)
    requires DistinctKeys(d)
    ensures DistinctKeys(Set(d, k, v))
  {
    var r := Set(d, k, v);
    SetKeys(d, k, v);
    var ks := Keys(r);
    forall i, j | 0 <= i < j < |r| ensures r[i].0 != r[j].0 {
      assert ks[i] == r[i].0 && ks[j] == r[j].0;
      if k !in Keys(d) && j == |d| {
        assert Keys(d)[i] == d[i].0;
      } else {
        assert Keys(d)[i] == d[i].0 && Keys(d)[j] == d[j].0;
      }
    }
  }
}
