/**
 * The dictionaries the two `rate` methods fill: a Python dict keeps its keys in insertion
 * order, and `d.values()` walks them in that order. `Grouped` is the dict of sets built by
 * `if key not in d: d[key] = set()` / `d[key].add(value)` over a sequence of (key, value)
 * pairs; `Counted` is the dict built by `if key not in d: d[key] = 0` / `d[key] += 1`.
 */
module Tally {
  import opened Base

  /** A Python dict: its keys in insertion order and the entry of each key. */
  datatype Dict<K, V> = Dict(keys: seq<K>, entries: map<K, V>)

  /** Each key is listed once, and the listed keys are exactly those with an entry. */
  ghost predicate WellFormed<K(!new), V>(d: Dict<K, V>)
  {
    Distinct(d.keys) && forall k :: k in d.entries <==> k in d.keys
  }

  /** `if k not in d: d[k] = set()` followed by `d[k].add(v)`. */
  function AddToSet<K(==), V(==)>(d: Dict<K, set<V>>, k: K, v: V): Dict<K, set<V>>
  {
    if k in d.entries then Dict(d.keys, d.entries[k := d.entries[k] + {v}])
    else Dict(d.keys + [k], d.entries[k := {v}])
  }

  /** `if k not in d: d[k] = 0` followed by `d[k] += 1`. */
  function Increment<K(==)>(d: Dict<K, nat>, k: K): Dict<K, nat>
  {
    if k in d.entries then Dict(d.keys, d.entries[k := d.entries[k] + 1])
    else Dict(d.keys + [k], d.entries[k := 1])
  }

  /** The dict of sets after adding every pair, in order, to an empty dict. */
  function Grouped<K(==), V(==)>(pairs: seq<(K, V)>): (d: Dict<K, set<V>>)
  {
    if pairs == [] then Dict([], map[])
    else AddToSet(Grouped(pairs[..|pairs| - 1]), pairs[|pairs| - 1].0, pairs[|pairs| - 1].1)
  }

  /** The dict of counts after counting every key, in order, from an empty dict. */
  function Counted<K(==)>(ks: seq<K>): (d: Dict<K, nat>)
  {
    if ks == [] then Dict([], map[])
    else Increment(Counted(ks[..|ks| - 1]), ks[|ks| - 1])
  }

  /** `sum([len(it) for it in d.values()])` over the listed keys. */
  function SumOfSizes<K(==), V(==)>(keys: seq<K>, entries: map<K, set<V>>): nat
  {
    if keys == [] then 0
    else SumOfSizes(keys[..|keys| - 1], entries) + Size(entries, keys[|keys| - 1])
  }

  /** The size of the entry of `k`, none counting as empty. */
  function Size<K(==), V(==)>(entries: map<K, set<V>>, k: K): nat
  {
    if k in entries then |entries[k]| else 0
  }

  /** `sum(d.values())` over the listed keys of a dict of counts. */
  function SumOfCounts<K(==)>(keys: seq<K>, entries: map<K, nat>): nat
  {
    if keys == [] then 0
    else SumOfCounts(keys[..|keys| - 1], entries) + CountAt(entries, keys[|keys| - 1])
  }

  /** The count of `k`, none counting as zero. */
  function CountAt<K(==)>(entries: map<K, nat>, k: K): nat
  {
    if k in entries then entries[k] else 0
  }

  /** The keys of the pairs, in order. */
  function Keys<K, V>(pairs: seq<(K, V)>): (ks: seq<K>)
    ensures |ks| == |pairs| && forall i :: 0 <= i < |pairs| ==> ks[i] == pairs[i].0
  {
    seq(|pairs|, i requires 0 <= i < |pairs| => pairs[i].0)
  }

  /** The values paired with key `k`. */
  ghost function ValuesAt<K, V>(pairs: seq<(K, V)>, k: K): set<V>
  {
    set i | 0 <= i < |pairs| && pairs[i].0 == k :: pairs[i].1
  }

  /** No two pairs with the same key carry the same value. */
  ghost predicate NoRepeats<K, V>(pairs: seq<(K, V)>)
  {
    forall i, j :: 0 <= i < j < |pairs| && pairs[i].0 == pairs[j].0 ==> pairs[i].1 != pairs[j].1
  }

  /** The pair `(k, v)` occurs among the pairs. */
  ghost predicate Paired<K, V>(pairs: seq<(K, V)>, k: K, v: V)
  {
    exists i :: 0 <= i < |pairs| && pairs[i] == (k, v)
  }

  /** The keys of a longer sequence of pairs. */
  lemma KeysSnoc<K, V>(pairs: seq<(K, V)>)
    requires pairs != []
    ensures Keys(pairs) == Keys(pairs[..|pairs| - 1]) + [pairs[|pairs| - 1].0]
  {
  }

  /**
   * The dict of sets lists each key once, in order of first appearance, and has an entry
   * for exactly the keys of the pairs.
   */
  lemma {:induction false} GroupedKeys<K(!new), V>(pairs: seq<(K, V)>)
    ensures WellFormed(Grouped(pairs))
    ensures forall k :: k in Grouped(pairs).entries <==> k in Keys(pairs)
  {
    if pairs != [] {
      var n := |pairs| - 1;
      GroupedKeys(pairs[..n]);
      KeysSnoc(pairs);
    }
  }

  /** The entry of a key in the dict of sets is the set of values paired with it. */
  lemma {:induction false} GroupedValues<K(!new), V>(pairs: seq<(K, V)>)
    ensures forall k :: k in Grouped(pairs).entries ==> Grouped(pairs).entries[k] == ValuesAt(pairs, k)
  {
    if pairs != [] {
      var n := |pairs| - 1;
      var front := pairs[..n];
      GroupedValues(front);
      GroupedKeys(front);
      forall k | k in Grouped(pairs).entries
        ensures Grouped(pairs).entries[k] == ValuesAt(pairs, k)
      {
        ValuesAtSnoc(pairs, k);
        if k !in Grouped(front).entries {
          assert ValuesAt(front, k) == {};
        }
      }
    }
  }

  /** The values paired with a key, once one more pair has been added. */
  lemma ValuesAtSnoc<K, V>(pairs: seq<(K, V)>, k: K)
    requires pairs != []
    ensures var n := |pairs| - 1;
            ValuesAt(pairs, k) == if pairs[n].0 == k then ValuesAt(pairs[..n], k) + {pairs[n].1} else ValuesAt(pairs[..n], k)
  {
    var n := |pairs| - 1;
    var front := pairs[..n];
    forall v | v in ValuesAt(pairs, k)
      ensures v in (if pairs[n].0 == k then ValuesAt(front, k) + {pairs[n].1} else ValuesAt(front, k))
    {
      var i :| 0 <= i < |pairs| && pairs[i].0 == k && pairs[i].1 == v;
      if i < n {
        assert front[i] == pairs[i];
      }
    }
    forall v | v in (if pairs[n].0 == k then ValuesAt(front, k) + {pairs[n].1} else ValuesAt(front, k))
      ensures v in ValuesAt(pairs, k)
    {
      if v in ValuesAt(front, k) {
        var i :| 0 <= i < n && front[i].0 == k && front[i].1 == v;
        assert pairs[i] == front[i];
      }
    }
  }

  /** Changing the entry of a key listed once changes the sum by the change of its size. */
  lemma {:induction false} SumOfSizesUpdate<K(!new), V>(keys: seq<K>, entries: map<K, set<V>>, k: K, s: set<V>)
    requires Distinct(keys) && forall k' :: k' in keys ==> k' in entries
    ensures SumOfSizes(keys, entries[k := s]) ==
            SumOfSizes(keys, entries) + if k in keys then |s| - |entries[k]| else 0
  {
    if keys != [] {
      var n := |keys| - 1;
      assert Distinct(keys[..n]);
      SumOfSizesUpdate(keys[..n], entries, k, s);
      assert keys == keys[..n] + [keys[n]];
    }
  }

  /** Changing the entry of a key listed once changes the sum by the change of its count. */
  lemma {:induction false} SumOfCountsUpdate<K(!new)>(keys: seq<K>, entries: map<K, nat>, k: K, c: nat)
    requires Distinct(keys) && forall k' :: k' in keys ==> k' in entries
    ensures SumOfCounts(keys, entries[k := c]) ==
            SumOfCounts(keys, entries) + if k in keys then c - entries[k] else 0
  {
    if keys != [] {
      var n := |keys| - 1;
      assert Distinct(keys[..n]);
      SumOfCountsUpdate(keys[..n], entries, k, c);
      assert keys == keys[..n] + [keys[n]];
    }
  }

  /** Appending a key to the listed keys adds its entry's size. */
  lemma SumOfSizesSnoc<K, V>(keys: seq<K>, entries: map<K, set<V>>, k: K)
    requires forall k' :: k' in keys + [k] ==> k' in entries
    ensures SumOfSizes(keys + [k], entries) == SumOfSizes(keys, entries) + |entries[k]|
  {
    assert (keys + [k])[..|keys|] == keys;
  }

  /** Appending a key to the listed keys adds its count. */
  lemma SumOfCountsSnoc<K>(keys: seq<K>, entries: map<K, nat>, k: K)
    requires forall k' :: k' in keys + [k] ==> k' in entries
    ensures SumOfCounts(keys + [k], entries) == SumOfCounts(keys, entries) + entries[k]
  {
    assert (keys + [k])[..|keys|] == keys;
  }

  /** Adding a value to a dict of sets adds one to the total size exactly when the value is new for its key. */
  lemma AddToSetGrows<K(!new), V>(d: Dict<K, set<V>>, k: K, v: V)
    requires WellFormed(d)
    ensures var d' := AddToSet(d, k, v);
            SumOfSizes(d'.keys, d'.entries) ==
            SumOfSizes(d.keys, d.entries) + if k in d.entries && v in d.entries[k] then 0 else 1
  {
    if k in d.entries {
      SumOfSizesUpdate(d.keys, d.entries, k, d.entries[k] + {v});
      if v in d.entries[k] {
        assert d.entries[k] + {v} == d.entries[k];
      }
    } else {
      SumOfSizesUpdate(d.keys, d.entries, k, {v});
      SumOfSizesSnoc(d.keys, d.entries[k := {v}], k);
    }
  }

  /** The last pair is a repeat exactly when its value is already in its key's set. */
  lemma RepeatedLast<K(!new), V>(pairs: seq<(K, V)>)
    requires pairs != []
    ensures var n := |pairs| - 1;
            var d := Grouped(pairs[..n]);
            (pairs[n].0 in d.entries && pairs[n].1 in d.entries[pairs[n].0]) <==> Paired(pairs[..n], pairs[n].0, pairs[n].1)
  {
    var n := |pairs| - 1;
    var front := pairs[..n];
    var (k, v) := pairs[n];
    GroupedKeys(front);
    GroupedValues(front);
    var d := Grouped(front);
    if k in d.entries && v in d.entries[k] {
      assert v in ValuesAt(front, k);
      var i :| 0 <= i < n && front[i].0 == k && front[i].1 == v;
      assert front[i] == (k, v);
    }
    if Paired(front, k, v) {
      var i :| 0 <= i < n && front[i] == (k, v);
      assert Keys(front)[i] == k;
      assert v in ValuesAt(front, k);
    }
  }

  /**
   * The sizes of the sets add up to at most the number of pairs, and to exactly that number
   * if and only if no key is paired twice with the same value.
   */
  lemma {:induction false} GroupedSize<K(!new), V>(pairs: seq<(K, V)>)
    ensures var d := Grouped(pairs);
            && SumOfSizes(d.keys, d.entries) <= |pairs|
            && (SumOfSizes(d.keys, d.entries) == |pairs| <==> NoRepeats(pairs))
  {
    if pairs != [] {
      var n := |pairs| - 1;
      GroupedSize(pairs[..n]);
      GroupedKeys(pairs[..n]);
      AddToSetGrows(Grouped(pairs[..n]), pairs[n].0, pairs[n].1);
      RepeatedLast(pairs);
      NoRepeatsSnoc(pairs);
    }
  }

  /** The pairs repeat nowhere exactly when their prefix does not and the last pair is new. */
  lemma NoRepeatsSnoc<K, V>(pairs: seq<(K, V)>)
    requires pairs != []
    ensures var n := |pairs| - 1;
            NoRepeats(pairs) <==> NoRepeats(pairs[..n]) && !Paired(pairs[..n], pairs[n].0, pairs[n].1)
  {
    var n := |pairs| - 1;
    var front := pairs[..n];
    if NoRepeats(front) && !Paired(front, pairs[n].0, pairs[n].1) {
      forall i, j | 0 <= i < j < |pairs| && pairs[i].0 == pairs[j].0
        ensures pairs[i].1 != pairs[j].1
      {
        if j < n {
          assert front[i] == pairs[i] && front[j] == pairs[j];
        } else {
          assert front[i] == pairs[i];
        }
      }
    }
    if NoRepeats(pairs) {
      forall i, j | 0 <= i < j < n && front[i].0 == front[j].0
        ensures front[i].1 != front[j].1
      {
        assert front[i] == pairs[i] && front[j] == pairs[j];
      }
    }
  }

  /** Every set of a dict of sets is nonempty, so the sizes add up to at least the number of keys. */
  lemma {:induction false} SumOfSizesAtLeastKeys<K(!new), V>(keys: seq<K>, entries: map<K, set<V>>)
    requires forall k :: k in keys ==> k in entries && entries[k] != {}
    ensures SumOfSizes(keys, entries) >= |keys|
  {
    if keys != [] {
      var n := |keys| - 1;
      SumOfSizesAtLeastKeys(keys[..n], entries);
      assert entries[keys[n]] != {};
    }
  }

  /**
   * The dict of counts lists each key once, in order of first appearance, and the entry of a
   * key is its number of occurrences.
   */
  lemma {:induction false} CountedKeys<K(!new)>(ks: seq<K>)
    ensures WellFormed(Counted(ks))
    ensures forall k :: k in Counted(ks).entries <==> k in ks
    ensures forall k :: k in Counted(ks).entries ==> Counted(ks).entries[k] == Count(ks, k)
  {
    if ks != [] {
      var n := |ks| - 1;
      CountedKeys(ks[..n]);
      CountPositive(ks[..n], ks[n]);
      assert ks == ks[..n] + [ks[n]];
    }
  }

  /** Counting one more key adds one to the total of the counts. */
  lemma IncrementGrows<K(!new)>(d: Dict<K, nat>, k: K)
    requires WellFormed(d)
    ensures var d' := Increment(d, k);
            SumOfCounts(d'.keys, d'.entries) == SumOfCounts(d.keys, d.entries) + 1
  {
    if k in d.entries {
      SumOfCountsUpdate(d.keys, d.entries, k, d.entries[k] + 1);
    } else {
      SumOfCountsUpdate(d.keys, d.entries, k, 1);
      SumOfCountsSnoc(d.keys, d.entries[k := 1], k);
    }
  }

  /** The counts of a dict of counts add up to the number of keys counted. */
  lemma {:induction false} CountedSum<K(!new)>(ks: seq<K>)
    ensures SumOfCounts(Counted(ks).keys, Counted(ks).entries) == |ks|
  {
    if ks != [] {
      var n := |ks| - 1;
      CountedSum(ks[..n]);
      CountedKeys(ks[..n]);
      IncrementGrows(Counted(ks[..n]), ks[n]);
    }
  }

  /** `Grouped` one pair further is one more `AddToSet`. */
  lemma GroupedStep<K, V>(pairs: seq<(K, V)>, i: nat)
    requires i < |pairs|
    ensures Grouped(pairs[..i + 1]) == AddToSet(Grouped(pairs[..i]), pairs[i].0, pairs[i].1)
  {
    assert pairs[..i + 1][..i] == pairs[..i];
  }

  /** `Counted` one key further is one more `Increment`. */
  lemma CountedStep<K>(ks: seq<K>, i: nat)
    requires i < |ks|
    ensures Counted(ks[..i + 1]) == Increment(Counted(ks[..i]), ks[i])
  {
    assert ks[..i + 1][..i] == ks[..i];
  }

  /** `sum([len(it) for it in d.values()])` for the dict of sets built from the pairs: the distinct values per key, added up. */
  function Distinctness<K(==), V(==)>(pairs: seq<(K, V)>): nat
  {
    var d := Grouped(pairs);
    SumOfSizes(d.keys, d.entries)
  }

  /**
   * The distinct values per key add up to at most the number of pairs, and to exactly that
   * number when no key is paired twice with one value.
   */
  lemma DistinctnessBound<K(!new), V>(pairs: seq<(K, V)>)
    ensures Distinctness(pairs) <= |pairs|
    ensures Distinctness(pairs) == |pairs| <==> NoRepeats(pairs)
  {
    GroupedSize(pairs);
  }

  /** Every key of the pairs holds at least one value, so the distinct values add up to at least the number of keys. */
  lemma DistinctnessAtLeastKeys<K(!new), V>(pairs: seq<(K, V)>, required: set<K>)
    requires forall k :: k in required ==> k in Keys(pairs)
    ensures Distinctness(pairs) >= |required|
  {
    var d := Grouped(pairs);
    GroupedKeys(pairs);
    GroupedValues(pairs);
    forall k | k in d.keys
      ensures k in d.entries && d.entries[k] != {}
    {
      var i :| 0 <= i < |pairs| && Keys(pairs)[i] == k;
      assert pairs[i].1 in ValuesAt(pairs, k);
    }
    SumOfSizesAtLeastKeys(d.keys, d.entries);
    ElementsCard(d.keys);
    SubsetCard(required, Elements(d.keys));
  }
}
