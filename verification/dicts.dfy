/** Python dictionaries as association lists in insertion order. */
module Dicts {
  import opened Wrappers
  import opened Seqs

  /** Index of the entry for `key`, or -1. */
  function KeyIndex<K(==), V>(m: seq<(K, V)>, key: K): (r: int)
    ensures -1 <= r < |m|
    ensures r >= 0 ==> m[r].0 == key && forall q :: r < q < |m| ==> m[q].0 != key
    ensures r < 0 ==> forall q :: 0 <= q < |m| ==> m[q].0 != key
  {
    if m == [] then -1
    else if m[|m| - 1].0 == key then |m| - 1
    else KeyIndex(m[..|m| - 1], key)
  }

  /** Dictionary assignment `m[key] = v`: a new key goes last, an existing one keeps its
      place and takes the new value. */
  function Put<K(==), V>(m: seq<(K, V)>, key: K, v: V): (r: seq<(K, V)>)
  {
    var i := KeyIndex(m, key);
    if i < 0 then m + [(key, v)] else m[i := (key, v)]
  }

  function Keys<K, V>(m: seq<(K, V)>): (ks: seq<K>)
    ensures |ks| == |m| && forall q :: 0 <= q < |m| ==> ks[q] == m[q].0
  {
    if m == [] then [] else Keys(m[..|m| - 1]) + [m[|m| - 1].0]
  }

  /** `m.values()`, in dictionary order. */
  function Values<K, V>(m: seq<(K, V)>): (vs: seq<V>)
    ensures |vs| == |m| && forall q :: 0 <= q < |m| ==> vs[q] == m[q].1
  {
    if m == [] then [] else Values(m[..|m| - 1]) + [m[|m| - 1].1]
  }

  /** `m.get(key)`. */
  function Lookup<K(==), V>(m: seq<(K, V)>, key: K): (r: Option<V>)
    ensures r.Some? <==> KeyIndex(m, key) >= 0
    ensures r.Some? ==> r.value == m[KeyIndex(m, key)].1
  {
    var i := KeyIndex(m, key);
    if i < 0 then None else Some(m[i].1)
  }

  /** After `m[key] = v`, `key` maps to `v` and every other key keeps its value. */
  lemma PutLookup<K, V>(m: seq<(K, V)>, key: K, v: V, k: K)
    ensures Lookup(Put(m, key, v), k) == if k == key then Some(v) else Lookup(m, k)
  {
    var i := KeyIndex(m, key);
    var r := Put(m, key, v);
    if k != key {
      if i < 0 {
        assert r[..|r| - 1] == m;
      } else {
        KeyIndexUpdate(m, i, key, v, k);
      }
    } else if i < 0 {
      assert r[|r| - 1] == (key, v);
    } else {
      KeyIndexLast(r, i, key);
    }
  }

  /** The entry for `key` is the last one with that key. */
  lemma {:induction false} KeyIndexLast<K, V>(m: seq<(K, V)>, i: nat, key: K)
    requires i < |m| && m[i].0 == key && forall q :: i < q < |m| ==> m[q].0 != key
    ensures KeyIndex(m, key) == i
    decreases |m|
  {
    if i < |m| - 1 {
      KeyIndexLast(m[..|m| - 1], i, key);
    }
  }

  lemma {:induction false} KeyIndexUpdate<K, V>(m: seq<(K, V)>, i: nat, key: K, v: V, k: K)
    requires i < |m| && m[i].0 == key && k != key
    ensures KeyIndex(m[i := (key, v)], k) == KeyIndex(m, k)
    decreases |m|
  {
    var r := m[i := (key, v)];
    if i < |m| - 1 {
      assert r[..|r| - 1] == m[..|m| - 1][i := (key, v)];
      KeyIndexUpdate(m[..|m| - 1], i, key, v, k);
    } else {
      assert r[..|r| - 1] == m[..|m| - 1];
    }
  }

  /** Every entry after `m[key] = v` is the new one or an old one. */
  lemma PutEntries<K, V>(m: seq<(K, V)>, key: K, v: V)
    ensures forall e :: e in Put(m, key, v) ==> e == (key, v) || e in m
  {
    var i := KeyIndex(m, key);
    if i >= 0 {
      forall e | e in Put(m, key, v) ensures e == (key, v) || e in m {
        var q :| 0 <= q < |m| && Put(m, key, v)[q] == e;
        if q != i {
          assert m[q] == e;
        }
      }
    }
  }

  lemma KeysSnoc<K, V>(m: seq<(K, V)>, e: (K, V))
    ensures Keys(m + [e]) == Keys(m) + [e.0]
  {
    assert (m + [e])[..|m|] == m;
  }

  /** Assignment keeps the key order and appends a new key. */
  lemma PutKeys<K, V>(m: seq<(K, V)>, key: K, v: V)
    ensures Keys(Put(m, key, v)) == if key in Keys(m) then Keys(m) else Keys(m) + [key]
  {
    var i := KeyIndex(m, key);
    if i < 0 {
      assert key !in Keys(m);
      KeysSnoc(m, (key, v));
    } else {
      assert Keys(m)[i] == key;
      KeysUpdate(m, i, v);
    }
  }

  /** A key that is not among the keys has no entry. */
  lemma KeyIndexAbsent<K, V>(m: seq<(K, V)>, key: K)
    requires key !in Keys(m)
    ensures KeyIndex(m, key) == -1
  {
  }

  lemma ValuesSnoc<K, V>(m: seq<(K, V)>, e: (K, V))
    ensures Values(m + [e]) == Values(m) + [e.1]
  {
    assert (m + [e])[..|m|] == m;
  }

  lemma ValuesUpdate<K, V>(m: seq<(K, V)>, i: nat, e: (K, V))
    requires i < |m|
    ensures Values(m[i := e]) == Values(m)[i := e.1]
  {
  }

  /** `m[key] = m.get(key, 0) + v`: adding to a count, starting from 0 for a new key. */
  function AddTo<K(==)>(m: seq<(K, int)>, key: K, v: int): seq<(K, int)> {
    Put(m, key, Lookup(m, key).GetOr(0) + v)
  }

  /** Adding `v` to one count adds `v` to the sum of the counts. */
  lemma AddToSum<K>(m: seq<(K, int)>, key: K, v: int)
    ensures Sum(Values(AddTo(m, key, v))) == Sum(Values(m)) + v
  {
    var i := KeyIndex(m, key);
    var w := Lookup(m, key).GetOr(0) + v;
    if i < 0 {
      ValuesSnoc(m, (key, w));
      SumSnoc(Values(m), w);
    } else {
      ValuesUpdate(m, i, (key, w));
      SumUpdate(Values(m), i, w);
    }
  }

  /** Adding to the count of `key` leaves every other count as it was. */
  lemma AddToLookup<K>(m: seq<(K, int)>, key: K, v: int, k: K)
    ensures Lookup(AddTo(m, key, v), k)
      == if k == key then Some(Lookup(m, key).GetOr(0) + v) else Lookup(m, k)
  {
    PutLookup(m, key, Lookup(m, key).GetOr(0) + v, k);
  }

  /** `Counter(ks)`: each distinct value in order of first occurrence, with its count. */
  function Tally<K(==)>(ks: seq<K>): seq<(K, int)> {
    if ks == [] then []
    else
      var d := Tally(ks[..|ks| - 1]);
      var k := ks[|ks| - 1];
      AddTo(d, k, 1)
  }

  /** `counter[k] += 1` on the counter of `ks` gives the counter of `ks + [k]`. */
  lemma TallySnoc<K>(ks: seq<K>, k: K)
    ensures Tally(ks + [k]) == AddTo(Tally(ks), k, 1)
  {
    assert (ks + [k])[..|ks|] == ks;
  }

  /** A counter maps every value of the list to its number of occurrences, and holds no
      other key. */
  lemma {:induction false} TallyLookup<K>(ks: seq<K>, k: K)
    ensures Lookup(Tally(ks), k) == if k in ks then Some(Count(ks, k)) else None
    decreases |ks|
  {
    if ks != [] {
      var init, last := ks[..|ks| - 1], ks[|ks| - 1];
      TallyLookup(init, k);
      TallyLookup(init, last);
      AddToLookup(Tally(init), last, 1, k);
      CountPositive(init, k);
      assert k in ks <==> k in init || k == last;
    }
  }

  /** The counts of a counter add up to the length of the list. */
  lemma {:induction false} TallySum<K>(ks: seq<K>)
    ensures Sum(Values(Tally(ks))) == |ks|
    decreases |ks|
  {
    if ks != [] {
      var init, last := ks[..|ks| - 1], ks[|ks| - 1];
      TallySum(init);
      var d := Tally(init);
      AddToSum(d, last, 1);
    }
  }

  /** Every entry of a counter is a value of the list with a positive count. */
  lemma {:induction false} TallyEntries<K>(ks: seq<K>)
    ensures forall e :: e in Tally(ks) ==> e.0 in ks && e.1 > 0
    decreases |ks|
  {
    if ks != [] {
      var init, last := ks[..|ks| - 1], ks[|ks| - 1];
      TallyEntries(init);
      var d := Tally(init);
      var v := Lookup(d, last).GetOr(0) + 1;
      PutEntries(d, last, v);
      assert v > 0 by {
        if Lookup(d, last).Some? {
          assert d[KeyIndex(d, last)] in d;
        }
      }
    }
  }

  lemma {:induction false} KeysUpdate<K, V>(m: seq<(K, V)>, i: nat, v: V)
    requires i < |m|
    ensures Keys(m[i := (m[i].0, v)]) == Keys(m)
  {
  }

  /** A counter lists the distinct values in order of first occurrence. */
  lemma {:induction false} TallyKeys<K>(ks: seq<K>)
    ensures Keys(Tally(ks)) == Dedup(ks)
    decreases |ks|
  {
    if ks != [] {
      var init, last := ks[..|ks| - 1], ks[|ks| - 1];
      TallyKeys(init);
      var d := Tally(init);
      var v := Lookup(d, last).GetOr(0) + 1;
      var i := KeyIndex(d, last);
      if i < 0 {
        assert last !in Keys(d);
        assert Keys(d + [(last, v)]) == Keys(d) + [last];
      } else {
        assert last in Keys(d) by {
          assert Keys(d)[i] == last;
        }
        KeysUpdate(d, i, v);
      }
    }
  }

  /** Every entry of a counter holds the number of occurrences of its key. */
  lemma TallyCounts<K>(ks: seq<K>)
    ensures forall q :: 0 <= q < |Tally(ks)| ==> Tally(ks)[q].1 == Count(ks, Tally(ks)[q].0)
  {
    var t := Tally(ks);
    TallyKeys(ks);
    forall q | 0 <= q < |t| ensures t[q].1 == Count(ks, t[q].0) {
      var k := t[q].0;
      assert Keys(t)[q] == k;
      forall r | q < r < |t| ensures t[r].0 != k {
        assert Keys(t)[r] == t[r].0;
      }
      KeyIndexLast(t, q, k);
      TallyLookup(ks, k);
    }
  }
}
