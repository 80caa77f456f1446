/** A Python `dict` with string keys, as its items in insertion order. */
module PyDict {
  import opened Wrappers

  type Dict<V> = seq<(string, V)>

  /** The keys in insertion order (iteration order of a dict). */
  function Keys<V>(d: Dict<V>): (ks: seq<string>)
    ensures |ks| == |d|
    ensures forall i :: 0 <= i < |d| ==> ks[i] == d[i].0
  {
    if d == [] then [] else [d[0].0] + Keys(d[1..])
  }

  /** No key occurs twice, as in every real dict. */
  predicate UniqueKeys<V>(d: Dict<V>) {
    forall i, j :: 0 <= i < j < |d| ==> d[i].0 != d[j].0
  }

  /** `d.get(k)`: the value stored under `k`, or `None` when `k not in d`. */
  function Get<V>(d: Dict<V>, k: string): (r: Option<V>)
    ensures r.Some? <==> k in Keys(d)
  {
    if d == [] then None
    else if d[0].0 == k then Some(d[0].1)
    else Get(d[1..], k)
  }

  /** `(k, v)` is the first item of `d` whose key is `k`. */
  ghost predicate FirstEntry<V>(d: Dict<V>, k: string, v: V) {
    exists i :: 0 <= i < |d| && d[i] == (k, v) && k !in Keys(d[..i])
  }

  /** A lookup returns the value of the first item holding the key. */
  lemma {:induction false} GetFindsFirst<V>(d: Dict<V>, k: string)
    ensures Get(d, k).Some? ==> FirstEntry(d, k, Get(d, k).value)
  {
    if d != [] && d[0].0 == k {
      assert d[..0] == [] && d[0] == (k, d[0].1);
    } else if d != [] && Get(d, k).Some? {
      GetFindsFirst(d[1..], k);
      GetLater(d, k, Get(d, k).value);
    }
  }

  /** The first occurrence of `k` after a different first key is the first in `d`. */
  lemma GetLater<V>(d: Dict<V>, k: string, v: V)
    requires d != [] && d[0].0 != k
    requires FirstEntry(d[1..], k, v)
    ensures FirstEntry(d, k, v)
  {
    var i :| 0 <= i < |d[1..]| && d[1..][i] == (k, v) && k !in Keys(d[1..][..i]);
    assert d[..i + 1] == [d[0]] + d[1..][..i];
    KeysCons(d[0], d[1..][..i]);
    assert d[i + 1] == (k, v);
  }

  /** `d[k] = v` on a copy of `d` (also what `{**d, k: v}` builds): the other keys keep
      their values and positions; an existing key keeps its position, a new key goes last. */
  function Put<V>(d: Dict<V>, k: string, v: V): (r: Dict<V>)
    ensures Get(r, k) == Some(v)
    ensures forall k' :: k' != k ==> Get(r, k') == Get(d, k')
  {
    if d == [] then [(k, v)]
    else if d[0].0 == k then
      var r := [(k, v)] + d[1..];
      assert r[1..] == d[1..];
      r
    else
      var r := [d[0]] + Put(d[1..], k, v);
      assert r[1..] == Put(d[1..], k, v);
      r
  }

  /** An existing key keeps its position; a new key goes last. */
  lemma {:induction false} PutKeyOrder<V>(d: Dict<V>, k: string, v: V)
    ensures Keys(Put(d, k, v)) == if k in Keys(d) then Keys(d) else Keys(d) + [k]
  {
    if d == [] {
    } else if d[0].0 == k {
      PutFirstKeyOrder(d, k, v);
    } else {
      PutKeyOrder(d[1..], k, v);
      PutLaterKeyOrder(d, k, v);
    }
  }

  /** Storing under the first key replaces its value in place. */
  lemma PutFirstKeyOrder<V>(d: Dict<V>, k: string, v: V)
    requires d != [] && d[0].0 == k
    ensures Keys(Put(d, k, v)) == Keys(d) && k in Keys(d)
  {
    assert Put(d, k, v) == [(k, v)] + d[1..];
    KeysCons((k, v), d[1..]);
    KeysCons(d[0], d[1..]);
    assert [d[0]] + d[1..] == d;
    assert Keys(d)[0] == k;
  }

  /** Storing under a key other than the first leaves the first key at the front. */
  lemma PutLaterKeyOrder<V>(d: Dict<V>, k: string, v: V)
    requires d != [] && d[0].0 != k
    requires Keys(Put(d[1..], k, v)) == if k in Keys(d[1..]) then Keys(d[1..]) else Keys(d[1..]) + [k]
    ensures Keys(Put(d, k, v)) == if k in Keys(d) then Keys(d) else Keys(d) + [k]
  {
    KeysFirst(d);
    PutLaterKeys(d, k, v);
    ConsKeyOrder(d[0].0, Keys(d[1..]), Keys(Put(d[1..], k, v)), k);
  }

  lemma KeysFirst<V>(d: Dict<V>)
    requires d != []
    ensures Keys(d) == [d[0].0] + Keys(d[1..])
  {
  }

  lemma PutLaterKeys<V>(d: Dict<V>, k: string, v: V)
    requires d != [] && d[0].0 != k
    ensures Keys(Put(d, k, v)) == [d[0].0] + Keys(Put(d[1..], k, v))
  {
    var rest := Put(d[1..], k, v);
    assert Put(d, k, v) == [d[0]] + rest;
    KeysCons(d[0], rest);
  }

  lemma ConsKeyOrder(head: string, tail: seq<string>, restKeys: seq<string>, k: string)
    requires head != k
    requires restKeys == if k in tail then tail else tail + [k]
    ensures [head] + restKeys == if k in [head] + tail then [head] + tail else ([head] + tail) + [k]
  {
    assert k in [head] + tail <==> k in tail;
    if k !in tail {
      assert [head] + (tail + [k]) == ([head] + tail) + [k];
    }
  }

  lemma KeysCons<V>(x: (string, V), rest: Dict<V>)
    ensures Keys([x] + rest) == [x.0] + Keys(rest)
  {
    assert ([x] + rest)[1..] == rest;
  }

  /** Storing a value never makes a key occur twice. */
  lemma PutKeepsKeysUnique<V>(d: Dict<V>, k: string, v: V)
    requires UniqueKeys(d)
    ensures UniqueKeys(Put(d, k, v))
  {
    var r := Put(d, k, v);
    PutKeyOrder(d, k, v);
    forall i, j | 0 <= i < j < |r| ensures r[i].0 != r[j].0 {
      assert Keys(r)[i] == r[i].0 && Keys(r)[j] == r[j].0;
      if k !in Keys(d) && j == |d| {
        assert Keys(d)[i] == d[i].0;
      } else {
        assert Keys(d)[i] == d[i].0 && Keys(d)[j] == d[j].0;
      }
    }
  }

  /** The keys after a store are the old keys plus the stored one, old keys first. */
  lemma PutKeys<V>(d: Dict<V>, k: string, v: V)
    ensures Keys(d) <= Keys(Put(d, k, v))
    ensures forall x :: x in Keys(Put(d, k, v)) <==> x in Keys(d) || x == k
  {
    var r := Put(d, k, v);
    PutKeyOrder(d, k, v);
    if k !in Keys(d) {
      assert Keys(r) == Keys(d) + [k];
    }
  }

  /** Three stores of distinct keys in a row: the old keys come first and keep their
      values; the three keys hold what was stored. */
  lemma PutThree<V>(d: Dict<V>, k1: string, v1: V, k2: string, v2: V, k3: string, v3: V)
    requires k1 != k2 && k1 != k3 && k2 != k3
    ensures Keys(d) <= Keys(Put(Put(Put(d, k1, v1), k2, v2), k3, v3))
    ensures forall x :: x in Keys(Put(Put(Put(d, k1, v1), k2, v2), k3, v3)) <==>
      x in Keys(d) || x == k1 || x == k2 || x == k3
  {
    var r1 := Put(d, k1, v1);
    var r2 := Put(r1, k2, v2);
    PutKeys(d, k1, v1);
    PutKeys(r1, k2, v2);
    PutKeys(r2, k3, v3);
    PrefixTransitive(Keys(d), Keys(r1), Keys(r2));
    PrefixTransitive(Keys(d), Keys(r2), Keys(Put(r2, k3, v3)));
  }

  lemma PrefixTransitive<T>(a: seq<T>, b: seq<T>, c: seq<T>)
    requires a <= b && b <= c
    ensures a <= c
  {
    assert a == b[..|a|] == c[..|a|];
  }
}
