/** Sequence helpers and the insertion-ordered map that stands for a Python
    `dict`: assigning to a new key appends it to the key order, assigning to a
    present key keeps its position, deleting a key removes it from the order. */
module OrderedMaps {

  predicate Distinct<T(==)>(s: seq<T>) {
    forall i, j | 0 <= i < j < |s| :: s[i] != s[j]
  }

  lemma DistinctMeans<T>(s: seq<T>)
    ensures Distinct(s) <==> forall i, j | 0 <= i < j < |s| :: s[i] != s[j]
  {
    if Distinct(s) {
      forall i, j | 0 <= i < j < |s| ensures s[i] != s[j] {
      }
    }
  }

  lemma DistinctCons<T>(s: seq<T>)
    requires s != []
    ensures Distinct(s) <==> s[0] !in s[1..] && Distinct(s[1..])
  {
    DistinctMeans(s);
    DistinctMeans(s[1..]);
    var t := s[1..];
    assert forall j | 0 <= j < |t| :: t[j] == s[j + 1];
    if s[0] !in t && Distinct(t) {
      forall i, j | 0 <= i < j < |s| ensures s[i] != s[j] {
        assert s[j] == t[j - 1];
        if i > 0 {
          assert s[i] == t[i - 1];
        }
      }
    }
  }

  lemma DistinctTail<T>(s: seq<T>)
    requires Distinct(s) && s != []
    ensures Distinct(s[1..])
  {
    DistinctCons(s);
  }

  lemma DistinctPrefix<T>(s: seq<T>, n: nat)
    requires Distinct(s) && n <= |s|
    ensures Distinct(s[..n])
  {
    DistinctMeans(s);
    DistinctMeans(s[..n]);
  }

  lemma DistinctSnoc<T>(s: seq<T>, x: T)
    ensures Distinct(s + [x]) <==> x !in s && Distinct(s)
  {
    DistinctMeans(s);
    DistinctMeans(s + [x]);
    var t := s + [x];
    assert forall j | 0 <= j < |s| :: t[j] == s[j];
    if x in s {
      var k :| 0 <= k < |s| && s[k] == x;
      assert t[k] == t[|s|];
    }
  }

  /** `n` copies of `x`. */
  function Repeat<T>(x: T, n: nat): (r: seq<T>)
    ensures |r| == n
    ensures forall i | 0 <= i < n :: r[i] == x
  {
    if n == 0 then [] else [x] + Repeat(x, n - 1)
  }

  function Elements<T>(s: seq<T>): set<T> {
    set x | x in s
  }

  lemma ElementsConcat<T>(a: seq<T>, b: seq<T>)
    ensures Elements(a + b) == Elements(a) + Elements(b)
  {
    forall x | x in Elements(a + b) ensures x in Elements(a) + Elements(b) {
      var i :| 0 <= i < |a + b| && (a + b)[i] == x;
      if i < |a| { assert a[i] == x; } else { assert b[i - |a|] == x; }
    }
  }

  lemma ElementsCons<T>(s: seq<T>)
    requires s != []
    ensures Elements(s) == {s[0]} + Elements(s[1..])
  {
    assert s == [s[0]] + s[1..];
    ElementsConcat([s[0]], s[1..]);
  }

  lemma ElementsPrefix<T>(s: seq<T>, i: nat)
    requires i < |s|
    ensures s[..i + 1] == s[..i] + [s[i]]
    ensures Elements(s[..i + 1]) == Elements(s[..i]) + {s[i]}
  {
    assert s[..i + 1] == s[..i] + [s[i]];
    ElementsConcat(s[..i], [s[i]]);
  }

  lemma DistinctNotInPrefix<T>(s: seq<T>, i: nat)
    requires Distinct(s) && i < |s|
    ensures s[i] !in Elements(s[..i])
  {
    DistinctMeans(s);
    assert forall j | 0 <= j < i :: s[..i][j] != s[i];
  }

  lemma ElementsSuffix<T>(s: seq<T>, i: nat)
    requires Distinct(s) && i < |s|
    ensures Elements(s[i..]) == {s[i]} + Elements(s[i + 1..])
    ensures s[i] !in Elements(s[i + 1..])
  {
    DistinctMeans(s);
    assert s[i..] == [s[i]] + s[i + 1..];
    ElementsConcat([s[i]], s[i + 1..]);
    var rest := s[i + 1..];
    assert forall j | 0 <= j < |rest| :: rest[j] == s[i + 1 + j];
  }

  lemma PrefixMembers<T>(a: seq<T>, b: seq<T>)
    requires |b| >= |a| && b[..|a|] == a
    ensures forall x | x in a :: x in b
  {
    forall x | x in a ensures x in b {
      var j :| 0 <= j < |a| && a[j] == x;
      assert b[j] == x;
    }
  }

  lemma PrefixTrans<T>(a: seq<T>, b: seq<T>, c: seq<T>)
    requires |b| >= |a| && b[..|a|] == a && |c| >= |b| && c[..|b|] == b
    ensures c[..|a|] == a
  {
    assert c[..|a|] == c[..|b|][..|a|];
  }

  lemma ElementsWhole<T>(s: seq<T>)
    ensures Elements(s[..|s|]) == Elements(s)
  {
    assert s[..|s|] == s;
  }

  /** The elements of `s` that lie in `keep`, in their order in `s`. */
  function FilterIn<T(==)>(s: seq<T>, keep: set<T>): (r: seq<T>)
    ensures Elements(r) == Elements(s) * keep
    ensures |r| <= |s|
    ensures forall i | 0 <= i < |r| :: r[i] in keep && r[i] in s
  {
    if s == [] then []
    else
      var head := if s[0] in keep then [s[0]] else [];
      ElementsCons(s);
      ElementsConcat(head, FilterIn(s[1..], keep));
      head + FilterIn(s[1..], keep)
  }

  /** The elements of `s` that do not lie in `drop`, in their order in `s`. */
  function FilterOut<T(==)>(s: seq<T>, drop: set<T>): (r: seq<T>)
    ensures Elements(r) == Elements(s) - drop
    ensures |r| <= |s|
  {
    if s == [] then []
    else
      var head := if s[0] in drop then [] else [s[0]];
      ElementsCons(s);
      ElementsConcat(head, FilterOut(s[1..], drop));
      head + FilterOut(s[1..], drop)
  }

  /** `ks` followed by every element of `ts` not seen before, in the order of
      first appearance: the key order a dict ends with after `d[t] = ...` for
      each `t` of `ts` in turn. */
  function AppendNew<T(==)>(ks: seq<T>, ts: seq<T>): (r: seq<T>)
    decreases |ts|
  {
    if ts == [] then ks
    else AppendNew(if ts[0] in ks then ks else ks + [ts[0]], ts[1..])
  }

  /** The position of `x` in `s` (its first, and with distinct `s` its only, one). */
  function IndexOf<T(==)>(s: seq<T>, x: T): (i: nat)
    requires x in s
    ensures i < |s| && s[i] == x
    ensures forall j | 0 <= j < i :: s[j] != x
  {
    if s[0] == x then 0 else 1 + IndexOf(s[1..], x)
  }

  /** Dropping `o` commutes with appending another element. */
  lemma {:induction false} FilterOutSnoc<T>(s: seq<T>, o: T, t: T)
    requires t != o
    ensures FilterOut(s + [t], {o}) == FilterOut(s, {o}) + [t]
  {
    if s == [] {
      assert [t][1..] == [];
    } else {
      assert (s + [t])[0] == s[0] && (s + [t])[1..] == s[1..] + [t];
      FilterOutSnoc(s[1..], o, t);
    }
  }

  lemma {:induction false} FilterInDistinct<T>(s: seq<T>, keep: set<T>)
    requires Distinct(s)
    ensures Distinct(FilterIn(s, keep))
  {
    if s != [] {
      DistinctCons(s);
      FilterInDistinct(s[1..], keep);
      var rest := FilterIn(s[1..], keep);
      assert s[0] !in Elements(s[1..]);
      assert s[0] !in Elements(rest);
      var r := FilterIn(s, keep);
      if s[0] in keep {
        assert r == [s[0]] + rest && r[1..] == rest;
        DistinctCons(r);
      } else {
        assert r == rest;
      }
    }
  }

  /** Filtering a duplicate-free sequence keeps the order of what it keeps. */
  lemma {:induction false} FilterInOrder<T>(s: seq<T>, keep: set<T>)
    requires Distinct(s)
    ensures forall i, j | 0 <= i < j < |FilterIn(s, keep)| ::
              IndexOf(s, FilterIn(s, keep)[i]) < IndexOf(s, FilterIn(s, keep)[j])
  {
    if s != [] {
      DistinctCons(s);
      FilterInOrder(s[1..], keep);
      var rest := FilterIn(s[1..], keep);
      forall k | 0 <= k < |rest| ensures rest[k] != s[0] && IndexOf(s, rest[k]) == 1 + IndexOf(s[1..], rest[k]) {
        IndexOfTail(s, rest[k]);
      }
      var r := FilterIn(s, keep);
      if s[0] in keep {
        assert r == [s[0]] + rest;
        forall i, j | 0 <= i < j < |r| ensures IndexOf(s, r[i]) < IndexOf(s, r[j]) {
          assert r[j] == rest[j - 1];
          if i > 0 {
            assert r[i] == rest[i - 1];
          }
        }
      } else {
        assert r == rest;
      }
    }
  }

  /** Filtering a duplicate-free sequence keeps it duplicate-free and in order. */
  lemma FilterInKeepsOrder<T>(s: seq<T>, keep: set<T>)
    ensures Distinct(s) ==> Distinct(FilterIn(s, keep))
    ensures Distinct(s) ==> forall i, j | 0 <= i < j < |FilterIn(s, keep)| ::
              IndexOf(s, FilterIn(s, keep)[i]) < IndexOf(s, FilterIn(s, keep)[j])
  {
    if Distinct(s) {
      FilterInDistinct(s, keep);
      FilterInOrder(s, keep);
    }
  }

  lemma {:induction false} FilterOutDistinct<T>(s: seq<T>, drop: set<T>)
    requires Distinct(s)
    ensures Distinct(FilterOut(s, drop))
  {
    if s != [] {
      DistinctCons(s);
      FilterOutDistinct(s[1..], drop);
      var rest := FilterOut(s[1..], drop);
      assert s[0] !in Elements(s[1..]);
      assert s[0] !in Elements(rest);
      var r := FilterOut(s, drop);
      if s[0] !in drop {
        assert r == [s[0]] + rest && r[1..] == rest;
        DistinctCons(r);
      } else {
        assert r == rest;
      }
    }
  }

  lemma IndexOfTail<T>(s: seq<T>, x: T)
    requires |s| > 0 && x in s[1..] && s[0] != x
    ensures IndexOf(s, x) == 1 + IndexOf(s[1..], x)
  {
  }

  lemma {:induction false} DistinctCard<T>(s: seq<T>)
    requires Distinct(s)
    ensures |Elements(s)| == |s|
  {
    if s != [] {
      DistinctCons(s);
      DistinctCard(s[1..]);
      assert Elements(s) == {s[0]} + Elements(s[1..]);
      assert s[0] !in Elements(s[1..]);
    }
  }

  /** Keeping, from a duplicate-free sequence, exactly the members of a subset
      of its elements leaves as many elements as the subset has. */
  lemma FilterInCard<T>(s: seq<T>, keep: set<T>)
    requires Distinct(s)
    requires keep <= Elements(s)
    ensures |FilterIn(s, keep)| == |keep|
  {
    var r := FilterIn(s, keep);
    FilterInDistinct(s, keep);
    DistinctCard(r);
    assert Elements(r) == keep;
  }

  lemma {:induction false} AppendNewFacts<T>(ks: seq<T>, ts: seq<T>)
    ensures Elements(AppendNew(ks, ts)) == Elements(ks) + Elements(ts)
    ensures |AppendNew(ks, ts)| >= |ks| && AppendNew(ks, ts)[..|ks|] == ks
    ensures Distinct(ks) ==> Distinct(AppendNew(ks, ts))
    decreases |ts|
  {
    if ts != [] {
      var next := if ts[0] in ks then ks else ks + [ts[0]];
      DistinctSnoc(ks, ts[0]);
      AppendNewFacts(next, ts[1..]);
      assert ts == [ts[0]] + ts[1..];
      assert next[..|ks|] == ks;
    }
  }

  /** Appending the keys of `ts` one at a time, where none of them was seen
      before, is plain concatenation. */
  lemma {:induction false} AppendNewFresh<T>(ks: seq<T>, ts: seq<T>)
    requires Distinct(ts)
    requires forall x | x in ts :: x !in ks
    ensures AppendNew(ks, ts) == ks + ts
    decreases |ts|
  {
    if ts != [] {
      DistinctCons(ts);
      AppendNewFresh(ks + [ts[0]], ts[1..]);
      assert ks + [ts[0]] + ts[1..] == ks + ts;
    }
  }

  lemma {:induction false} AppendNewSnoc<T>(ks: seq<T>, ts: seq<T>, t: T)
    ensures AppendNew(ks, ts + [t]) == AppendNew(AppendNew(ks, ts), [t])
    decreases |ts|
  {
    if ts == [] {
      assert ts + [t] == [t];
    } else {
      var next := if ts[0] in ks then ks else ks + [ts[0]];
      assert (ts + [t])[1..] == ts[1..] + [t];
      AppendNewSnoc(next, ts[1..], t);
    }
  }

  /** Appending only keys already present changes nothing. */
  lemma {:induction false} AppendNewKnown<T>(ks: seq<T>, ts: seq<T>)
    requires forall x | x in ts :: x in ks
    ensures AppendNew(ks, ts) == ks
    decreases |ts|
  {
    if ts != [] {
      AppendNewKnown(ks, ts[1..]);
    }
  }

  lemma AppendNewOne<T>(ks: seq<T>, t: T)
    ensures AppendNew(ks, [t]) == if t in ks then ks else ks + [t]
  {
    assert [t][1..] == [];
  }

  /** A Python dict: insertion-ordered keys and the key-to-value map. */
  datatype OrderedMap<K(==), V> = OrderedMap(keys: seq<K>, entries: map<K, V>) {

    ghost predicate Valid() {
      Distinct(keys) && entries.Keys == Elements(keys)
    }

    function Len(): nat {
      |keys|
    }

    /** `d[k] = v` */
    function Put(k: K, v: V): (r: OrderedMap<K, V>)
      ensures Valid() ==> r.Valid() && r.keys == AppendNew(keys, [k])
      ensures r.entries == entries[k := v]
    {
      DistinctSnoc(keys, k);
      if k in entries then OrderedMap(keys, entries[k := v])
      else OrderedMap(keys + [k], entries[k := v])
    }

    /** `del d[k]` for a present key. */
    function Remove(k: K): (r: OrderedMap<K, V>)
      requires Valid() && k in entries
      ensures r.Valid()
      ensures r.entries == entries - {k}
      ensures r.keys == FilterOut(keys, {k})
    {
      FilterOutDistinct(keys, {k});
      OrderedMap(FilterOut(keys, {k}), entries - {k})
    }
  }

  function EmptyMap<K(==), V>(): (r: OrderedMap<K, V>)
    ensures r.Valid() && r.keys == [] && r.entries == map[]
  {
    OrderedMap([], map[])
  }

  /** The number of entries of a dict is the number of its keys. */
  lemma LenIsEntryCount<K, V>(d: OrderedMap<K, V>)
    requires d.Valid()
    ensures d.Len() == |d.entries|
  {
    DistinctCard(d.keys);
    assert d.entries.Keys == Elements(d.keys);
  }
}
