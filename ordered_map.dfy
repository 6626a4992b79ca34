/**
 * JavaScript's `Map` as the engine uses it: a dictionary that remembers the
 * order in which keys were first inserted. `set` on a present key replaces the
 * value in place, `set` on a new key appends it, `delete` removes the key, and
 * `values()` iterates in insertion order. The order matters to the engine: the
 * roster, the ranking tie order and the order of score updates all follow it.
 */
module OrderedMap {
  import opened Optional

  /** No element occurs twice. */
  ghost predicate Distinct<K(!new)>(s: seq<K>) {
    forall i, j :: 0 <= i < j < |s| ==> s[i] != s[j]
  }

  /** `s` with every occurrence of `k` removed, the rest in their order. */
  function Without<K(==, !new)>(s: seq<K>, k: K): (r: seq<K>)
    ensures forall x :: x in r <==> x in s && x != k
    ensures |r| == |s| - Count(s, k)
    ensures k !in s ==> r == s
  {
    if s == [] then [] else (if s[0] == k then [] else [s[0]]) + Without(s[1..], k)
  }

  lemma {:induction false} WithoutDistinct<K(!new)>(s: seq<K>, k: K)
    requires Distinct(s)
    ensures Distinct(Without(s, k))
  {
    if s != [] {
      assert Distinct(s[1..]) by {
        forall i, j | 0 <= i < j < |s[1..]| ensures s[1..][i] != s[1..][j] {
          assert s[1..][i] == s[i + 1] && s[1..][j] == s[j + 1];
        }
      }
      WithoutDistinct(s[1..], k);
      var rest := Without(s[1..], k);
      var head := if s[0] == k then [] else [s[0]];
      assert s[0] !in s[1..];
      assert s[0] !in rest;
      var r := head + rest;
      forall i, j | 0 <= i < j < |r| ensures r[i] != r[j] {
        if head != [] && i == 0 {
          assert r[j] == rest[j - 1];
        } else {
          assert r[i] == rest[i - |head|] && r[j] == rest[j - |head|];
        }
      }
    }
  }

  datatype OMap<K(!new), V> = OMap(keys: seq<K>, vals: map<K, V>) {

    /** The key order lists each key of the dictionary exactly once. */
    ghost predicate Valid() {
      Distinct(keys) && forall k :: k in vals <==> k in keys
    }

    /** `map.size` */
    function Size(): nat {
      |keys|
    }

    /** `map.has(k)` */
    predicate Has(k: K) {
      k in vals
    }

    /** `map.get(k)`, with `undefined` as None */
    function Get(k: K): Option<V> {
      if k in vals then Some(vals[k]) else None
    }

    /** `map.set(k, v)`: a present key keeps its position, a new one goes last. */
    function Set(k: K, v: V): (m: OMap<K, V>)
      requires Valid()
      ensures m.Valid()
      ensures m.vals == vals[k := v]
      ensures Has(k) ==> m.keys == keys
      ensures !Has(k) ==> m.keys == keys + [k]
    {
      var m := OMap(if k in vals then keys else keys + [k], vals[k := v]);
      assert Distinct(m.keys) by {
        if k !in vals {
          forall i, j | 0 <= i < j < |m.keys| ensures m.keys[i] != m.keys[j] {
            if j == |keys| { assert m.keys[i] == keys[i]; }
          }
        }
      }
      m
    }

    /** `map.delete(k)`: only `k` goes; the other keys keep their order. */
    function Delete(k: K): (m: OMap<K, V>)
      requires Valid()
      ensures m.Valid()
      ensures m.vals == vals - {k}
      ensures m.keys == Without(keys, k)
    {
      WithoutDistinct(keys, k);
      OMap(Without(keys, k), vals - {k})
    }

    /** `Array.from(map.values())` */
    function Values(): (vs: seq<V>)
      requires Valid()
      ensures |vs| == |keys|
      ensures forall i :: 0 <= i < |keys| ==> vs[i] == vals[keys[i]]
    {
      seq(|keys|, i requires 0 <= i < |keys| => vals[keys[i]])
    }
  }

  /** `new Map()` and `map.clear()` */
  function Empty<K(!new), V>(): (m: OMap<K, V>)
    ensures m.Valid() && m.Size() == 0 && m.vals == map[]
  {
    OMap([], map[])
  }

  /** How many times `k` occurs in `s`. */
  function Count<K(==)>(s: seq<K>, k: K): nat {
    if s == [] then 0 else (if s[0] == k then 1 else 0) + Count(s[1..], k)
  }

  lemma {:induction false} CountDistinct<K(!new)>(s: seq<K>, k: K)
    requires Distinct(s)
    ensures Count(s, k) == if k in s then 1 else 0
  {
    if s != [] {
      assert Distinct(s[1..]) by {
        forall i, j | 0 <= i < j < |s[1..]| ensures s[1..][i] != s[1..][j] {
          assert s[1..][i] == s[i + 1] && s[1..][j] == s[j + 1];
        }
      }
      CountDistinct(s[1..], k);
      assert s[0] !in s[1..];
      assert k in s <==> k == s[0] || k in s[1..];
    }
  }

  /**
   * However often a key is set, it has exactly one entry: after `set(k, v)` the
   * key order holds `k` once and the size grows by one only for a new key.
   */
  lemma SetKeepsOneEntry<K(!new), V>(m: OMap<K, V>, k: K, v: V)
    requires m.Valid()
    ensures Count(m.Set(k, v).keys, k) == 1
    ensures m.Set(k, v).Size() == if m.Has(k) then m.Size() else m.Size() + 1
    ensures m.Set(k, v).Get(k) == Some(v)
    ensures forall x :: x != k ==> m.Set(k, v).Get(x) == m.Get(x)
  {
    CountDistinct(m.Set(k, v).keys, k);
  }

  /** Setting the same entry twice is the same as setting it once. */
  lemma SetIdempotent<K(!new), V>(m: OMap<K, V>, k: K, v: V)
    requires m.Valid()
    ensures m.Set(k, v).Set(k, v) == m.Set(k, v)
  {
  }

  /** `delete` removes exactly one key, and only it. */
  lemma DeleteRemovesOnlyKey<K(!new), V>(m: OMap<K, V>, k: K)
    requires m.Valid()
    ensures !m.Delete(k).Has(k)
    ensures forall x :: x != k ==> m.Delete(k).Get(x) == m.Get(x)
    ensures m.Delete(k).Size() == if m.Has(k) then m.Size() - 1 else m.Size()
  {
    CountDistinct(m.keys, k);
  }
}
