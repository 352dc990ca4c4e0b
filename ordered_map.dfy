/**
 * Insertion-ordered maps from strings, the way a JavaScript `Map` and the
 * string-keyed properties of a plain object iterate: setting an existing key
 * keeps its position, setting a new key appends it, deleting removes it.
 *
 * Sequences are taken apart from the back (`ks[..|ks| - 1]`), the order in
 * which the loops that build and consume them run.
 */
module OrderedMap {

  /** No key occurs twice. */
  ghost predicate Distinct(ks: seq<string>) {
    forall i, j :: 0 <= i < j < |ks| ==> ks[i] != ks[j]
  }

  datatype OMap<V> = OMap(keys: seq<string>, vals: map<string, V>) {

    /** The iteration order lists every key of the map exactly once. */
    ghost predicate Valid() {
      && Distinct(keys)
      && (forall k :: k in vals <==> k in keys)
    }

    /** `m.set(k, v)`: an existing key keeps its place, a new one goes last. */
    function Put(k: string, v: V): (r: OMap<V>)
      ensures Valid() ==> r.Valid()
      ensures r.vals == vals[k := v]
      ensures k in vals ==> r.keys == keys
      ensures k !in vals ==> r.keys == keys + [k]
    {
      if k in vals then OMap(keys, vals[k := v]) else OMap(keys + [k], vals[k := v])
    }

    /** Deletes every key of `d`; the others keep their relative order. */
    function RemoveAll(d: set<string>): (r: OMap<V>)
      ensures Valid() ==> r.Valid()
      ensures forall k :: k in r.vals <==> k in vals && k !in d
      ensures forall k :: k in r.vals ==> r.vals[k] == vals[k]
      ensures IsSubsequence(r.keys, keys)
    {
      WithoutIsSubsequence(keys, d);
      assert Valid() ==> Distinct(Without(keys, d)) by {
        if Valid() { WithoutDistinct(keys, d); }
      }
      OMap(Without(keys, d), vals - d)
    }

    /** `delete m[k]` / `m.delete(k)`. */
    function Remove(k: string): (r: OMap<V>)
      ensures Valid() ==> r.Valid()
      ensures forall j :: j in r.vals <==> j in vals && j != k
      ensures forall j :: j in r.vals ==> r.vals[j] == vals[j]
      ensures IsSubsequence(r.keys, keys)
    {
      RemoveAll({k})
    }
  }

  function Empty<V>(): (r: OMap<V>)
    ensures r.Valid() && r.keys == []
  {
    OMap([], map[])
  }

  /** `ks` with every member of `d` taken out. */
  function Without(ks: seq<string>, d: set<string>): (r: seq<string>)
    ensures forall k :: k in r <==> k in ks && k !in d
    ensures |r| <= |ks|
  {
    if ks == [] then []
    else
      var front, last := ks[..|ks| - 1], ks[|ks| - 1];
      assert ks == front + [last];
      Without(front, d) + (if last in d then [] else [last])
  }

  /** Taking keys out of a sequence without repetitions leaves none. */
  lemma {:induction false} WithoutDistinct(ks: seq<string>, d: set<string>)
    requires Distinct(ks)
    ensures Distinct(Without(ks, d))
  {
    if ks != [] {
      var front, last := ks[..|ks| - 1], ks[|ks| - 1];
      WithoutDistinct(front, d);
      var w := Without(front, d);
      if last !in d {
        assert Without(ks, d) == w + [last];
        assert last !in w;
      } else {
        assert Without(ks, d) == w;
      }
    }
  }

  /** `a` is `b` with some elements left out, the rest in their order. */
  ghost predicate IsSubsequence(a: seq<string>, b: seq<string>)
    decreases |b|
  {
    if a == [] then true
    else if b == [] then false
    else if a[|a| - 1] == b[|b| - 1] then IsSubsequence(a[..|a| - 1], b[..|b| - 1])
    else IsSubsequence(a, b[..|b| - 1])
  }

  lemma {:induction false} SubsequenceExtend(a: seq<string>, b: seq<string>, x: string)
    requires IsSubsequence(a, b)
    ensures IsSubsequence(a, b + [x])
    decreases |a| + |b| + 1
  {
    assert (b + [x])[..|b|] == b;
    if a != [] && a[|a| - 1] == x {
      SubsequenceDropLast(a, b);
    }
  }

  lemma {:induction false} SubsequenceDropLast(a: seq<string>, b: seq<string>)
    requires a != [] && IsSubsequence(a, b)
    ensures IsSubsequence(a[..|a| - 1], b)
    decreases |a| + |b|
  {
    var b' := b[..|b| - 1];
    assert b == b' + [b[|b| - 1]];
    if a[|a| - 1] == b[|b| - 1] {
      SubsequenceExtend(a[..|a| - 1], b', b[|b| - 1]);
    } else {
      SubsequenceDropLast(a, b');
      SubsequenceExtend(a[..|a| - 1], b', b[|b| - 1]);
    }
  }

  lemma {:induction false} WithoutIsSubsequence(ks: seq<string>, d: set<string>)
    ensures IsSubsequence(Without(ks, d), ks)
  {
    if ks != [] {
      var front, last := ks[..|ks| - 1], ks[|ks| - 1];
      var w := Without(front, d);
      WithoutIsSubsequence(front, d);
      if last in d {
        assert Without(ks, d) == w;
        SubsequenceExtend(w, front, last);
        assert front + [last] == ks;
      } else {
        var a := w + [last];
        assert Without(ks, d) == a;
        assert a[..|a| - 1] == w && a[|a| - 1] == last;
        assert IsSubsequence(a, ks);
      }
    }
  }

  /** Taking out keys distributes over concatenation. */
  lemma {:induction false} WithoutConcat(a: seq<string>, b: seq<string>, d: set<string>)
    ensures Without(a + b, d) == Without(a, d) + Without(b, d)
    decreases |b|
  {
    if b != [] {
      var front, last := b[..|b| - 1], b[|b| - 1];
      assert (a + b)[..|a + b| - 1] == a + front;
      WithoutConcat(a, front, d);
    } else {
      assert a + b == a;
    }
  }

  /** Taking out keys that do not occur changes nothing. */
  lemma {:induction false} WithoutNone(ks: seq<string>, d: set<string>)
    requires forall k :: k in ks ==> k !in d
    ensures Without(ks, d) == ks
  {
    if ks != [] {
      var front, last := ks[..|ks| - 1], ks[|ks| - 1];
      assert ks == front + [last];
      assert last in ks;
      forall k | k in front ensures k !in d {
        assert k in ks;
      }
      WithoutNone(front, d);
    }
  }

  /** Deleting the key at position |p| of a sequence where it occurs once. */
  lemma WithoutAt(p: seq<string>, k: string, q: seq<string>)
    requires k !in p && k !in q
    ensures Without(p + [k] + q, {k}) == p + q
  {
    var d := {k};
    var a, b, c := Without(p, d), Without([k], d), Without(q, d);
    assert b == [] by {
      assert [k][..0] == [];
      assert Without([k], d) == Without([], d) + [];
    }
    WithoutNone(p, d);
    WithoutNone(q, d);
    assert a == p && c == q;
    WithoutConcat(p, [k], d);
    assert Without(p + [k], d) == p;
    WithoutConcat(p + [k], q, d);
  }

  /** Taking out `a` and then `b` is taking out both at once. */
  lemma {:induction false} WithoutTwice(ks: seq<string>, a: set<string>, b: set<string>)
    ensures Without(Without(ks, a), b) == Without(ks, a + b)
  {
    if ks != [] {
      var front, last := ks[..|ks| - 1], ks[|ks| - 1];
      WithoutTwice(front, a, b);
      var w := Without(front, a);
      if last in a {
        assert Without(ks, a) == w;
      } else {
        var wl := w + [last];
        assert Without(ks, a) == wl;
        assert wl[..|w|] == w && wl[|w|] == last;
      }
    }
  }

  /** Deleting the keys of `a` and then those of `b` is deleting both at once. */
  lemma RemoveAllTwice<V>(m: OMap<V>, a: set<string>, b: set<string>)
    ensures m.RemoveAll(a).RemoveAll(b) == m.RemoveAll(a + b)
  {
    var once := m.RemoveAll(a);
    assert once.keys == Without(m.keys, a) && once.vals == m.vals - a;
    WithoutTwice(m.keys, a, b);
    assert (m.vals - a) - b == m.vals - (a + b);
  }

  /** A prefix one longer holds the next key too, which the shorter one lacks. */
  lemma PrefixStep(ks: seq<string>, j: int)
    requires Distinct(ks) && 0 <= j < |ks|
    ensures ks[..j + 1] == ks[..j] + [ks[j]]
    ensures ks[j] !in ks[..j]
    ensures forall c :: c in ks[..j + 1] <==> c in ks[..j] || c == ks[j]
  {
    assert ks[..j + 1] == ks[..j] + [ks[j]];
  }

  /** Deleting a set of keys and then possibly one more is deleting the larger set. */
  lemma RemoveOneMore<V>(m: OMap<V>, gone: set<string>, k: string, drop: bool, gone1: set<string>)
    requires gone1 == if drop then gone + {k} else gone
    ensures (if drop then m.RemoveAll(gone).Remove(k) else m.RemoveAll(gone)) == m.RemoveAll(gone1)
  {
    if drop {
      RemoveAllTwice(m, gone, {k});
    }
  }

  /** Setting a key twice is setting it once, to the second value. */
  lemma PutTwice<V>(m: OMap<V>, k: string, v1: V, v2: V)
    ensures m.Put(k, v1).Put(k, v2) == m.Put(k, v2)
  {
    assert m.vals[k := v1][k := v2] == m.vals[k := v2];
  }

  /** A deletion set that misses every key leaves the map as it is. */
  lemma RemoveAllNone<V>(m: OMap<V>, d: set<string>)
    requires m.Valid()
    requires forall k :: k in m.keys ==> k !in d
    ensures m.RemoveAll(d) == m
  {
    WithoutNone(m.keys, d);
    assert m.vals - d == m.vals;
  }

  /** The value stored under `k`, 0 when there is none. */
  function ValOf(vals: map<string, int>, k: string): int {
    if k in vals then vals[k] else 0
  }

  /** The sum of the values stored under the keys `ks`. */
  function SumKeys(ks: seq<string>, vals: map<string, int>): int {
    if ks == [] then 0 else SumKeys(ks[..|ks| - 1], vals) + ValOf(vals, ks[|ks| - 1])
  }

  /** The sum of the values stored under those keys of `ks` that are in `d`. */
  function SumIn(ks: seq<string>, vals: map<string, int>, d: set<string>): int {
    if ks == [] then 0
    else SumIn(ks[..|ks| - 1], vals, d) + (if ks[|ks| - 1] in d then ValOf(vals, ks[|ks| - 1]) else 0)
  }

  /** The sum of all values of an ordered map of counts. */
  function Sum(n: OMap<int>): int {
    SumKeys(n.keys, n.vals)
  }

  /** Splitting the keys by `d` splits their sum. */
  lemma {:induction false} SumSplit(ks: seq<string>, vals: map<string, int>, d: set<string>)
    ensures SumKeys(ks, vals) == SumIn(ks, vals, d) + SumKeys(Without(ks, d), vals)
  {
    if ks != [] {
      var front, last := ks[..|ks| - 1], ks[|ks| - 1];
      SumSplit(front, vals, d);
      var w := Without(front, d);
      if last in d {
        assert Without(ks, d) == w;
      } else {
        assert Without(ks, d) == w + [last];
        assert (w + [last])[..|w|] == w;
        assert SumKeys(w + [last], vals) == SumKeys(w, vals) + ValOf(vals, last);
      }
    }
  }

  /** A sum reads the values of its own keys only. */
  lemma {:induction false} SumAgree(ks: seq<string>, a: map<string, int>, b: map<string, int>)
    requires forall k :: k in ks ==> ValOf(a, k) == ValOf(b, k)
    ensures SumKeys(ks, a) == SumKeys(ks, b)
  {
    if ks != [] {
      SumAgree(ks[..|ks| - 1], a, b);
    }
  }

  /** Summing over the keys of `d` that occur nowhere gives 0. */
  lemma {:induction false} SumInNone(ks: seq<string>, vals: map<string, int>, d: set<string>)
    requires forall k :: k in ks ==> k !in d
    ensures SumIn(ks, vals, d) == 0
  {
    if ks != [] {
      SumInNone(ks[..|ks| - 1], vals, d);
    }
  }

  /** Changing the value under one key changes the sum by the difference. */
  lemma {:induction false} SumUpdate(ks: seq<string>, vals: map<string, int>, k: string, v: int)
    requires Distinct(ks)
    ensures SumKeys(ks, vals[k := v]) == SumKeys(ks, vals) + (if k in ks then v - ValOf(vals, k) else 0)
  {
    if ks != [] {
      var front, last := ks[..|ks| - 1], ks[|ks| - 1];
      assert ks == front + [last];
      SumUpdate(front, vals, k, v);
    }
  }

  /** `Put` moves the sum by the difference between the new and the old value. */
  lemma SumPut(n: OMap<int>, k: string, v: int)
    requires n.Valid()
    ensures Sum(n.Put(k, v)) == Sum(n) - ValOf(n.vals, k) + v
  {
    if k in n.vals {
      SumUpdate(n.keys, n.vals, k, v);
    } else {
      SumUpdate(n.keys, n.vals, k, v);
      assert (n.keys + [k])[..|n.keys|] == n.keys;
    }
  }
}
