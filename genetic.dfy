/**
 * The genetic-algorithm engine of genetic.py.
 *
 * Individuals are Python objects: the population is a list of references, and the same
 * object can sit in it twice (an elite carried over).  The model keeps that identity: an
 * individual is an `Id`, a `map<Id, I>` holds each object's current value, and a freshly
 * created object gets the next unused `Id`.  The engine is generic in the individual's value
 * type `I`; an `Ops` value supplies the individual's operations, with each random outcome
 * an explicit argument (`M` for what `mutate` draws, `X` for what `mate` draws).
 */
module Genetic {
  import opened Base

  type Id = nat

  /** The capabilities the engine calls on an individual (the `Individual` interface). */
  datatype Ops<!I, !M, !X> = Ops(
    mutate: (I, M) -> I,
    clone: I -> I,
    mate: (I, I, X) -> I,
    normalizedRate: I -> real,
    mutationProbability: I -> real,
    matingProbability: I -> real)

  // ---------------------------------------------------------------------------------------
  // Individual.normalized_rate and Individual.reproduce
  // ---------------------------------------------------------------------------------------

  /** Why `normalized_rate` raises: an abstract bound not provided, or equal bounds. */
  datatype RateError = MissingFloor | MissingMaxi | DivisionByZero

  /**
   * `normalized_rate`: `(rate - floor) * 100 / (maxi - floor)`.  A class lacking `floor`
   * (checked first) or `maxi` raises NotImplementedError; `maxi == floor` divides by zero.
   */
  function NormalizedRate(rate: real, floor: Option<real>, maxi: Option<real>): (r: Result<real, RateError>)
    ensures floor.None? ==> r == Err(MissingFloor)
    ensures floor.Some? && maxi.None? ==> r == Err(MissingMaxi)
    ensures floor.Some? && maxi.Some? && maxi.value == floor.value ==> r == Err(DivisionByZero)
    ensures r.Ok? <==> floor.Some? && maxi.Some? && maxi.value != floor.value
    ensures r.Ok? ==> r.value * (maxi.value - floor.value) == (rate - floor.value) * 100.0
  {
    match floor
    case None => Err(MissingFloor)
    case Some(f) =>
      match maxi
      case None => Err(MissingMaxi)
      case Some(m) => if m == f then Err(DivisionByZero) else Ok((rate - f) * 100.0 / (m - f))
  }

  /** The floor maps to exactly 0 and the maximum to exactly 100. */
  lemma NormalizedRateEndpoints(floor: real, maxi: real)
    requires maxi != floor
    ensures NormalizedRate(floor, Some(floor), Some(maxi)) == Ok(0.0)
    ensures NormalizedRate(maxi, Some(floor), Some(maxi)) == Ok(100.0)
  {
    var d := maxi - floor;
    var n0 := NormalizedRate(floor, Some(floor), Some(maxi)).value;
    var n1 := NormalizedRate(maxi, Some(floor), Some(maxi)).value;
    assert n0 * d == 0.0;
    assert n1 * d == 100.0 * d;
    assert n1 == n1 * d / d == 100.0 * d / d;
  }

  /** With `maxi > floor` the normalisation is strictly increasing in the rate. */
  lemma NormalizedRateIncreasing(a: real, b: real, floor: real, maxi: real)
    requires maxi > floor && a < b
    ensures NormalizedRate(a, Some(floor), Some(maxi)).value < NormalizedRate(b, Some(floor), Some(maxi)).value
  {
    var d := maxi - floor;
    var na := NormalizedRate(a, Some(floor), Some(maxi)).value;
    var nb := NormalizedRate(b, Some(floor), Some(maxi)).value;
    assert na * d == (a - floor) * 100.0;
    assert nb * d == (b - floor) * 100.0;
    assert (nb - na) * d == (b - a) * 100.0;
  }

  /** A rate between the bounds normalises into [0, 100]. */
  lemma NormalizedRateBetweenBounds(rate: real, floor: real, maxi: real)
    requires floor < maxi && floor <= rate <= maxi
    ensures 0.0 <= NormalizedRate(rate, Some(floor), Some(maxi)).value <= 100.0
  {
    var d := maxi - floor;
    var n := NormalizedRate(rate, Some(floor), Some(maxi)).value;
    assert n * d == (rate - floor) * 100.0;
    NonNegativeFactor(n, d);
    assert (100.0 - n) * d == (maxi - rate) * 100.0;
    NonNegativeFactor(100.0 - n, d);
  }

  /** A product with a positive factor has the sign of the other factor. */
  lemma NonNegativeFactor(x: real, d: real)
    requires d > 0.0 && x * d >= 0.0
    ensures x >= 0.0
  {
  }

  /**
   * `reproduce`: a clone when the partner is the very same object or the `random()` draw
   * exceeds the mating probability, otherwise the offspring of `mate`.
   */
  function Reproduce<I, M, X>(ops: Ops<I, M, X>, self: I, other: I, sameObject: bool, draw: real, x: X): (child: I)
    ensures sameObject || draw > ops.matingProbability(self) ==> child == ops.clone(self)
    ensures !sameObject && draw <= ops.matingProbability(self) ==> child == ops.mate(self, other, x)
  {
    if sameObject || draw > ops.matingProbability(self) then ops.clone(self) else ops.mate(self, other, x)
  }

  /**
   * With the class default mating probability 1 and a draw of `random()` (in [0, 1)),
   * a distinct partner is always mated with.
   */
  lemma DefaultProbabilityAlwaysMates<I, M, X>(ops: Ops<I, M, X>, self: I, other: I, draw: real, x: X)
    requires ops.matingProbability(self) == 1.0 && 0.0 <= draw < 1.0
    ensures Reproduce(ops, self, other, false, draw, x) == ops.mate(self, other, x)
  {
  }

  // ---------------------------------------------------------------------------------------
  // StatCollector
  // ---------------------------------------------------------------------------------------

  function Sum(s: seq<real>): real
  {
    if s == [] then 0.0 else Sum(s[..|s| - 1]) + s[|s| - 1]
  }

  /** Index of the first occurrence of the maximum (later equal values never replace it). */
  function ArgMax(s: seq<real>): (k: nat)
    requires s != []
    ensures k < |s|
  {
    if |s| == 1 then 0
    else
      var k := ArgMax(s[..|s| - 1]);
      if s[|s| - 1] > s[k] then |s| - 1 else k
  }

  /** Index of the first occurrence of the minimum. */
  function ArgMin(s: seq<real>): (k: nat)
    requires s != []
    ensures k < |s|
  {
    if |s| == 1 then 0
    else
      var k := ArgMin(s[..|s| - 1]);
      if s[|s| - 1] < s[k] then |s| - 1 else k
  }

  /** `ArgMax` is the first index holding the largest value, `ArgMin` the first holding the smallest. */
  lemma {:induction false} ExtremesAreFirst(s: seq<real>)
    requires s != []
    ensures forall j :: 0 <= j < |s| ==> s[j] <= s[ArgMax(s)] && s[ArgMin(s)] <= s[j]
    ensures forall j :: 0 <= j < ArgMax(s) ==> s[j] < s[ArgMax(s)]
    ensures forall j :: 0 <= j < ArgMin(s) ==> s[ArgMin(s)] < s[j]
  {
    if |s| > 1 {
      var t := s[..|s| - 1];
      ExtremesAreFirst(t);
      assert forall j :: 0 <= j < |t| ==> s[j] == t[j];
    }
  }

  /** Appending a value adds it to the sum. */
  lemma SumAppend(s: seq<real>, v: real)
    ensures Sum(s + [v]) == Sum(s) + v
  {
    assert (s + [v])[..|s|] == s;
  }

  /** How the first maximum and the first minimum move when a value is appended. */
  lemma AppendStep(s: seq<real>, v: real)
    ensures ArgMax(s + [v]) == if s == [] || v > s[ArgMax(s)] then |s| else ArgMax(s)
    ensures ArgMin(s + [v]) == if s == [] || v < s[ArgMin(s)] then |s| else ArgMin(s)
  {
    assert (s + [v])[..|s|] == s;
  }

  /**
   * The maximum a collector reports for what it has collected: the first maximum with its
   * item and uid, or nothing at all for no values.
   */
  ghost predicate TracksGreatest(values: seq<real>, items: seq<Id>, uids: seq<nat>,
                                 greatest: Option<real>, greatestItem: Option<Id>, greatestId: Option<nat>)
    requires |items| == |values| && |uids| == |values|
  {
    && (values == [] ==> greatest.None? && greatestItem.None? && greatestId.None?)
    && (values != [] ==>
          && greatest == Some(values[ArgMax(values)])
          && greatestItem == Some(items[ArgMax(values)])
          && greatestId == Some(uids[ArgMax(values)]))
  }

  /** The minimum a collector reports: the first minimum with its item, or nothing for no values. */
  ghost predicate TracksSmallest(values: seq<real>, items: seq<Id>, smallest: Option<real>, smallestItem: Option<Id>)
    requires |items| == |values|
  {
    && (values == [] ==> smallest.None? && smallestItem.None?)
    && (values != [] ==> smallest == Some(values[ArgMin(values)]) && smallestItem == Some(items[ArgMin(values)]))
  }

  /**
   * The update rule of `collect` for the maximum (a strictly larger value takes it) keeps the
   * reported maximum that of all collected values.
   */
  lemma GreatestCollected(values: seq<real>, items: seq<Id>, uids: seq<nat>, value: real, item: Id, uid: nat,
                          greatest: Option<real>, greatestItem: Option<Id>, greatestId: Option<nat>,
                          greatest': Option<real>, greatestItem': Option<Id>, greatestId': Option<nat>)
    requires |items| == |values| && |uids| == |values|
    requires TracksGreatest(values, items, uids, greatest, greatestItem, greatestId)
    requires if greatest.None? || value > greatest.value
             then greatest' == Some(value) && greatestItem' == Some(item) && greatestId' == Some(uid)
             else greatest' == greatest && greatestItem' == greatestItem && greatestId' == greatestId
    ensures TracksGreatest(values + [value], items + [item], uids + [uid], greatest', greatestItem', greatestId')
  {
    AppendStep(values, value);
  }

  /**
   * The update rule of `collect` for the minimum (a strictly smaller value takes it) keeps the
   * reported minimum that of all collected values.
   */
  lemma SmallestCollected(values: seq<real>, items: seq<Id>, value: real, item: Id,
                          smallest: Option<real>, smallestItem: Option<Id>, smallest': Option<real>, smallestItem': Option<Id>)
    requires |items| == |values|
    requires TracksSmallest(values, items, smallest, smallestItem)
    requires if smallest.None? || value < smallest.value
             then smallest' == Some(value) && smallestItem' == Some(item)
             else smallest' == smallest && smallestItem' == smallestItem
    ensures TracksSmallest(values + [value], items + [item], smallest', smallestItem')
  {
    AppendStep(values, value);
  }

  /** The fields of a collector agree with what it has collected. */
  ghost predicate Consistent(values: seq<real>, items: seq<Id>, uids: seq<nat>, totalSum: real, valuesNumber: nat,
                             greatest: Option<real>, greatestItem: Option<Id>, greatestId: Option<nat>,
                             smallest: Option<real>, smallestItem: Option<Id>)
  {
    && |items| == |values| && |uids| == |values|
    && totalSum == Sum(values)
    && valuesNumber == |values|
    && TracksGreatest(values, items, uids, greatest, greatestItem, greatestId)
    && TracksSmallest(values, items, smallest, smallestItem)
  }

  /** Collecting one value keeps a collector's fields consistent with what it has collected. */
  lemma Collected(values: seq<real>, items: seq<Id>, uids: seq<nat>, totalSum: real, valuesNumber: nat,
                  greatest: Option<real>, greatestItem: Option<Id>, greatestId: Option<nat>,
                  smallest: Option<real>, smallestItem: Option<Id>,
                  value: real, item: Id, uid: nat,
                  greatest': Option<real>, greatestItem': Option<Id>, greatestId': Option<nat>,
                  smallest': Option<real>, smallestItem': Option<Id>)
    requires Consistent(values, items, uids, totalSum, valuesNumber, greatest, greatestItem, greatestId, smallest, smallestItem)
    requires if greatest.None? || value > greatest.value
             then greatest' == Some(value) && greatestItem' == Some(item) && greatestId' == Some(uid)
             else greatest' == greatest && greatestItem' == greatestItem && greatestId' == greatestId
    requires if smallest.None? || value < smallest.value
             then smallest' == Some(value) && smallestItem' == Some(item)
             else smallest' == smallest && smallestItem' == smallestItem
    ensures Consistent(values + [value], items + [item], uids + [uid], totalSum + value, valuesNumber + 1,
                       greatest', greatestItem', greatestId', smallest', smallestItem')
  {
    SumAppend(values, value);
    GreatestCollected(values, items, uids, value, item, uid, greatest, greatestItem, greatestId, greatest', greatestItem', greatestId');
    SmallestCollected(values, items, value, item, smallest, smallestItem, smallest', smallestItem');
  }

  /**
   * `StatCollector`: running sum, count, maximum (with its item and uid) and minimum
   * (with its item) of the values collected so far.
   */
  class StatCollector {
    var totalSum: real
    var valuesNumber: nat
    var greatest: Option<real>
    var greatestItem: Option<Id>
    var greatestId: Option<nat>
    var smallest: Option<real>
    var smallestItem: Option<Id>

    // what has been collected, in order
    ghost var values: seq<real>
    ghost var items: seq<Id>
    ghost var uids: seq<nat>

    ghost predicate Valid()
      reads this
    {
      Consistent(values, items, uids, totalSum, valuesNumber, greatest, greatestItem, greatestId, smallest, smallestItem)
    }

    constructor ()
      ensures Valid() && values == [] && items == [] && uids == []
    {
      totalSum, valuesNumber := 0.0, 0;
      greatest, greatestItem, greatestId := None, None, None;
      smallest, smallestItem := None, None;
      values, items, uids := [], [], [];
    }

    /** `collect`: a strictly larger value takes the maximum, a strictly smaller one the minimum. */
    method Collect(value: real, item: Id, uid: nat)
      requires Valid()
      modifies this
      ensures Valid()
      ensures values == old(values) + [value] && items == old(items) + [item] && uids == old(uids) + [uid]
    {
      var g, gItem, gId := greatest, greatestItem, greatestId;
      if greatest.None? || value > greatest.value {
        g, gItem, gId := Some(value), Some(item), Some(uid);
      }
      var sm, smItem := smallest, smallestItem;
      if smallest.None? || value < smallest.value {
        sm, smItem := Some(value), Some(item);
      }
      Collected(values, items, uids, totalSum, valuesNumber, greatest, greatestItem, greatestId, smallest, smallestItem,
                value, item, uid, g, gItem, gId, sm, smItem);
      totalSum, valuesNumber, greatest, greatestItem, greatestId, smallest, smallestItem, values, items, uids :=
        totalSum + value, valuesNumber + 1, g, gItem, gId, sm, smItem, values + [value], items + [item], uids + [uid];
    }

    /** `mean`: the average, or a ZeroDivisionError (None) when nothing was collected. */
    function Mean(): (m: Option<real>)
      reads this
      requires Valid()
      ensures m.None? <==> values == []
      ensures m.Some? ==> m.value == Sum(values) / (|values| as real)
    {
      if valuesNumber == 0 then None else Some(totalSum / valuesNumber as real)
    }
  }

  // ---------------------------------------------------------------------------------------
  // GeneticEngine.init_population and run_generation
  // ---------------------------------------------------------------------------------------

  /** Every reference of the list designates a live object. */
  predicate Stored<I>(heap: map<Id, I>, ids: seq<Id>)
  {
    forall i :: 0 <= i < |ids| ==> ids[i] in heap
  }

  /** Every object has an identity below `next`, so `next` is unused. */
  predicate Below<I>(heap: map<Id, I>, next: Id)
  {
    forall id :: id in heap ==> id < next
  }

  /**
   * `init_population`: one freshly constructed object per constructed individual value
   * (the constructor's own random outcomes are already in the values).
   */
  function InitPopulation<I>(individuals: seq<I>): (r: (map<Id, I>, seq<Id>))
    ensures |r.1| == |individuals| && Distinct(r.1) && Stored(r.0, r.1) && Below(r.0, |individuals|)
    ensures forall i :: 0 <= i < |individuals| ==> r.0[r.1[i]] == individuals[i]
  {
    (map i | 0 <= i < |individuals| :: individuals[i], seq(|individuals|, i => i))
  }

  /** The random outcomes one generation consumes. */
  datatype GenerationDraws<M, X> = GenerationDraws(
    mutation: seq<M>,  // per list entry, what `mutate` draws there (unused for exempt entries)
    fathers: seq<nat>, // the first `choices(...)`, as indices into the list
    mothers: seq<nat>, // the second `choices(...)`
    coins: seq<real>,  // per offspring, the `random()` of `reproduce`
    mating: seq<X>)    // per offspring, what `mate` draws

  /** `POPULATION_SIZE - len(do_not_mutate)` offspring (`choices` with k <= 0 draws nothing). */
  function OffspringCount(populationSize: nat, exempt: nat): nat
  {
    if populationSize >= exempt then populationSize - exempt else 0
  }

  /** The outcomes fit a list of `n` entries and `offspring` draws of each `choices`. */
  predicate DrawsFit<M, X>(d: GenerationDraws<M, X>, n: nat, offspring: nat)
  {
    && |d.mutation| == n
    && |d.fathers| == offspring && |d.mothers| == offspring
    && |d.coins| == offspring && |d.mating| == offspring
    && (forall i :: 0 <= i < offspring ==> d.fathers[i] < n && d.mothers[i] < n)
    && CoinsFit(d.coins)
  }

  /** Every `random()` result lies in `[0, 1)`. */
  predicate CoinsFit(coins: seq<real>)
  {
    forall i :: 0 <= i < |coins| ==> 0.0 <= coins[i] < 1.0
  }

  /**
   * The objects after `mutate` has run on each list entry in turn, skipping the exempt ones.
   * An object listed twice is mutated twice.
   */
  function MutatePass<I, M, X>(ops: Ops<I, M, X>, heap: map<Id, I>, population: seq<Id>, exempt: seq<Id>, draws: seq<M>): (h: map<Id, I>)
    requires Stored(heap, population) && |draws| == |population|
    ensures h.Keys == heap.Keys
    decreases |population|
  {
    if population == [] then heap
    else
      var n := |population| - 1;
      var h := MutatePass(ops, heap, population[..n], exempt, draws[..n]);
      var id := population[n];
      if id in exempt then h else h[id := ops.mutate(h[id], draws[n])]
  }

  /** Exempt objects, and objects the list does not mention, are never mutated. */
  lemma {:induction false} MutatePassKeeps<I, M, X>(ops: Ops<I, M, X>, heap: map<Id, I>, population: seq<Id>, exempt: seq<Id>, draws: seq<M>, id: Id)
    requires Stored(heap, population) && |draws| == |population|
    requires id in heap && (id in exempt || id !in population)
    ensures MutatePass(ops, heap, population, exempt, draws)[id] == heap[id]
    decreases |population|
  {
    if population != [] {
      var n := |population| - 1;
      assert id !in population ==> id !in population[..n];
      MutatePassKeeps(ops, heap, population[..n], exempt, draws[..n], id);
    }
  }

  /**
   * The values collected over the list (scores, mutation or mating probabilities): entry `k`
   * reads `f` off its object right after the mutation step of entry `k`.
   */
  function Observed<I, M, X>(f: I -> real, ops: Ops<I, M, X>, heap: map<Id, I>, population: seq<Id>, exempt: seq<Id>, draws: seq<M>): (r: seq<real>)
    requires Stored(heap, population) && |draws| == |population|
    ensures |r| == |population|
    decreases |population|
  {
    if population == [] then []
    else
      var n := |population| - 1;
      Observed(f, ops, heap, population[..n], exempt, draws[..n])
        + [f(MutatePass(ops, heap, population, exempt, draws)[population[n]])]
  }

  /** Entry `k` of the collected values is read right after the `k + 1` first mutation steps. */
  lemma {:induction false} ObservedEntry<I, M, X>(f: I -> real, ops: Ops<I, M, X>, heap: map<Id, I>, population: seq<Id>, exempt: seq<Id>, draws: seq<M>, k: nat)
    requires Stored(heap, population) && |draws| == |population| && k < |population|
    ensures Observed(f, ops, heap, population, exempt, draws)[k] ==
            f(MutatePass(ops, heap, population[..k + 1], exempt, draws[..k + 1])[population[k]])
    decreases |population|
  {
    var n := |population| - 1;
    var front := Observed(f, ops, heap, population[..n], exempt, draws[..n]);
    assert Observed(f, ops, heap, population, exempt, draws) ==
           front + [f(MutatePass(ops, heap, population, exempt, draws)[population[n]])];
    if k == n {
      assert population[..k + 1] == population && draws[..k + 1] == draws;
    } else {
      ObservedEntry(f, ops, heap, population[..n], exempt, draws[..n], k);
      assert population[..n][..k + 1] == population[..k + 1] && draws[..n][..k + 1] == draws[..k + 1];
    }
  }

  /**
   * Each exempt object is left alone and every other object of a list without repeats is
   * mutated exactly once, with the draw of its own entry.
   */
  lemma {:induction false} MutatedOnce<I, M, X>(ops: Ops<I, M, X>, heap: map<Id, I>, population: seq<Id>, exempt: seq<Id>, draws: seq<M>, i: nat, n: nat)
    requires Stored(heap, population) && |draws| == |population| && Distinct(population)
    requires i < n <= |population|
    ensures MutatePass(ops, heap, population[..n], exempt, draws[..n])[population[i]] ==
            if population[i] in exempt then heap[population[i]] else ops.mutate(heap[population[i]], draws[i])
  {
    var p, d := population[..n], draws[..n];
    assert p[..n - 1] == population[..n - 1] && d[..n - 1] == draws[..n - 1];
    if n - 1 == i {
      assert population[i] !in population[..i];
      MutatePassKeeps(ops, heap, population[..i], exempt, draws[..i], population[i]);
    } else {
      MutatedOnce(ops, heap, population, exempt, draws, i, n - 1);
    }
  }

  /** In a list without repeats, each score is that of the object's final (mutated) value. */
  lemma ScoresSeeFinalValues<I, M, X>(f: I -> real, ops: Ops<I, M, X>, heap: map<Id, I>, population: seq<Id>, exempt: seq<Id>, draws: seq<M>, k: nat)
    requires Stored(heap, population) && |draws| == |population| && Distinct(population)
    requires k < |population|
    ensures Observed(f, ops, heap, population, exempt, draws)[k] ==
            f(MutatePass(ops, heap, population, exempt, draws)[population[k]])
  {
    ObservedEntry(f, ops, heap, population, exempt, draws, k);
    MutatedOnce(ops, heap, population, exempt, draws, k, k + 1);
    MutatedOnce(ops, heap, population, exempt, draws, k, |population|);
    assert population[..|population|] == population && draws[..|draws|] == draws;
  }

  /** The offspring `population[i] = father.reproduce(mother)` of the `i`-th drawn pair. */
  function Child<I, M, X>(ops: Ops<I, M, X>, heap: map<Id, I>, population: seq<Id>, d: GenerationDraws<M, X>, i: nat): I
    requires Stored(heap, population) && i < |d.fathers| && i < |d.mothers| && i < |d.coins| && i < |d.mating|
    requires d.fathers[i] < |population| && d.mothers[i] < |population|
  {
    var father, mother := population[d.fathers[i]], population[d.mothers[i]];
    Reproduce(ops, heap[father], heap[mother], father == mother, d.coins[i], d.mating[i])
  }

  /** The draws hold at least `count` offspring, each with parents among the `n` entries. */
  predicate DrawsCover<M, X>(d: GenerationDraws<M, X>, n: nat, count: nat)
  {
    && count <= |d.fathers| && count <= |d.mothers| && count <= |d.coins| && count <= |d.mating|
    && (forall i :: 0 <= i < count ==> d.fathers[i] < n && d.mothers[i] < n)
  }

  /** The objects once the first `count` offspring have been created as objects `next`, `next + 1`, ... */
  function WithChildren<I, M, X>(ops: Ops<I, M, X>, heap: map<Id, I>, population: seq<Id>, d: GenerationDraws<M, X>, next: Id, count: nat): (h: map<Id, I>)
    requires Stored(heap, population) && DrawsCover(d, |population|, count)
    decreases count
  {
    if count == 0 then heap
    else
      var h := WithChildren(ops, heap, population, d, next, count - 1);
      h[next + count - 1 := Child(ops, heap, population, d, count - 1)]
  }

  /** The offspring add exactly the objects `next`, ..., `next + count - 1`. */
  lemma {:induction false} WithChildrenDomain<I, M, X>(ops: Ops<I, M, X>, heap: map<Id, I>, population: seq<Id>, d: GenerationDraws<M, X>, next: Id, count: nat)
    requires Stored(heap, population) && DrawsCover(d, |population|, count)
    ensures var w := WithChildren(ops, heap, population, d, next, count);
            forall id :: id in w <==> id in heap || next <= id < next + count
    decreases count
  {
    if count > 0 {
      WithChildrenDomain(ops, heap, population, d, next, count - 1);
    }
  }

  /** Object `next + k` holds the `k`-th offspring. */
  lemma {:induction false} WithChildrenAt<I, M, X>(ops: Ops<I, M, X>, heap: map<Id, I>, population: seq<Id>, d: GenerationDraws<M, X>, next: Id, count: nat, k: nat)
    requires Stored(heap, population) && DrawsCover(d, |population|, count) && k < count
    ensures var w := WithChildren(ops, heap, population, d, next, count);
            next + k in w && w[next + k] == Child(ops, heap, population, d, k)
    decreases count
  {
    if k < count - 1 {
      WithChildrenAt(ops, heap, population, d, next, count - 1, k);
    }
  }

  /** Objects that existed before the offspring keep their value. */
  lemma {:induction false} WithChildrenKeeps<I, M, X>(ops: Ops<I, M, X>, heap: map<Id, I>, population: seq<Id>, d: GenerationDraws<M, X>, next: Id, count: nat)
    requires Stored(heap, population) && DrawsCover(d, |population|, count) && Below(heap, next)
    ensures var w := WithChildren(ops, heap, population, d, next, count);
            forall id :: id in heap ==> id in w && w[id] == heap[id]
    decreases count
  {
    if count > 0 {
      WithChildrenKeeps(ops, heap, population, d, next, count - 1);
    }
  }

  /** The identities `next`, ..., `next + count - 1` of the objects created in one generation. */
  function FreshIds(next: Id, count: nat): (r: seq<Id>)
    ensures |r| == count && forall k :: 0 <= k < count ==> r[k] == next + k
  {
    if count == 0 then [] else FreshIds(next, count - 1) + [next + count - 1]
  }

  /** The list after `run_generation`: offspring in front, the untouched tail, then the exempt. */
  function NextPopulation(population: seq<Id>, exempt: seq<Id>, next: Id, count: nat): (p: seq<Id>)
    requires count <= |population|
    ensures |p| == |population| + |exempt|
  {
    FreshIds(next, count) + population[count..] + exempt
  }

  /** The offspring identities come first, then the tail of the old list from `count` on, then the exempt. */
  lemma NextPopulationShape(population: seq<Id>, exempt: seq<Id>, next: Id, count: nat)
    requires count <= |population|
    ensures var p := NextPopulation(population, exempt, next, count);
            && (forall i :: 0 <= i < count ==> p[i] == next + i)
            && (forall i :: count <= i < |population| ==> p[i] == population[i])
            && p[|population|..] == exempt
  {
  }

  /** What one generation leaves behind. */
  datatype Generation<I> = Generation(
    heap: map<Id, I>, next: Id, population: seq<Id>,
    scores: seq<real>, mutationProbabilities: seq<real>, matingProbabilities: seq<real>)

  /** Preconditions of `run_generation` as its caller meets them. */
  predicate GenerationReady<I, M, X>(populationSize: nat, heap: map<Id, I>, next: Id, population: seq<Id>, exempt: seq<Id>, d: GenerationDraws<M, X>)
  {
    && Stored(heap, population) && Stored(heap, exempt) && Below(heap, next) && Distinct(exempt)
    && OffspringCount(populationSize, |exempt|) <= |population|
    && DrawsFit(d, |population|, OffspringCount(populationSize, |exempt|))
  }

  /** `run_generation` as a function of its inputs and draws. */
  function GenerationOf<I, M, X>(ops: Ops<I, M, X>, populationSize: nat, heap: map<Id, I>, next: Id, population: seq<Id>, exempt: seq<Id>, d: GenerationDraws<M, X>): (g: Generation<I>)
    requires GenerationReady(populationSize, heap, next, population, exempt, d)
  {
    var count := OffspringCount(populationSize, |exempt|);
    var h := MutatePass(ops, heap, population, exempt, d.mutation);
    Generation(
      WithChildren(ops, h, population, d, next, count),
      next + count,
      NextPopulation(population, exempt, next, count),
      Observed(ops.normalizedRate, ops, heap, population, exempt, d.mutation),
      Observed(ops.mutationProbability, ops, heap, population, exempt, d.mutation),
      Observed(ops.matingProbability, ops, heap, population, exempt, d.mutation))
  }

  /**
   * The list `run_generation` leaves: the first `N - k` entries are new objects, the rest of
   * the old list stays, the `k` exempt objects are appended, and every entry is a live object.
   */
  lemma GenerationList<I, M, X>(ops: Ops<I, M, X>, populationSize: nat, heap: map<Id, I>, next: Id, population: seq<Id>, exempt: seq<Id>, d: GenerationDraws<M, X>)
    requires GenerationReady(populationSize, heap, next, population, exempt, d)
    ensures var g := GenerationOf(ops, populationSize, heap, next, population, exempt, d);
            var count := OffspringCount(populationSize, |exempt|);
            && |g.population| == |population| + |exempt|
            && g.population[|population|..] == exempt
            && (forall i :: count <= i < |population| ==> g.population[i] == population[i])
            && (forall i :: 0 <= i < count ==> g.population[i] !in heap && g.population[i] in g.heap)
            && Stored(g.heap, g.population) && Below(g.heap, g.next) && g.next == next + count
            && (forall id :: id in heap ==> id in g.heap)
  {
    GenerationShape(ops, populationSize, heap, next, population, exempt, d);
    GenerationStore(ops, populationSize, heap, next, population, exempt, d);
  }

  /** The positions of the new list: offspring first, then the rest of the old list, then the exempt objects. */
  lemma GenerationShape<I, M, X>(ops: Ops<I, M, X>, populationSize: nat, heap: map<Id, I>, next: Id, population: seq<Id>, exempt: seq<Id>, d: GenerationDraws<M, X>)
    requires GenerationReady(populationSize, heap, next, population, exempt, d)
    ensures var g := GenerationOf(ops, populationSize, heap, next, population, exempt, d);
            var count := OffspringCount(populationSize, |exempt|);
            && |g.population| == |population| + |exempt|
            && g.population[|population|..] == exempt
            && (forall i :: 0 <= i < count ==> g.population[i] == next + i)
            && (forall i :: count <= i < |population| ==> g.population[i] == population[i])
            && g.next == next + count
  {
    var count := OffspringCount(populationSize, |exempt|);
    var g := GenerationOf(ops, populationSize, heap, next, population, exempt, d);
    assert g.population == NextPopulation(population, exempt, next, count);
    NextPopulationShape(population, exempt, next, count);
  }

  /** The new store keeps every old object, adds the offspring under fresh identities, and holds every listed object. */
  lemma GenerationStore<I, M, X>(ops: Ops<I, M, X>, populationSize: nat, heap: map<Id, I>, next: Id, population: seq<Id>, exempt: seq<Id>, d: GenerationDraws<M, X>)
    requires GenerationReady(populationSize, heap, next, population, exempt, d)
    ensures var g := GenerationOf(ops, populationSize, heap, next, population, exempt, d);
            var count := OffspringCount(populationSize, |exempt|);
            && (forall i :: 0 <= i < count ==> g.population[i] !in heap && g.population[i] in g.heap)
            && Stored(g.heap, g.population) && Below(g.heap, g.next)
            && (forall id :: id in heap ==> id in g.heap)
  {
    var count := OffspringCount(populationSize, |exempt|);
    var h := MutatePass(ops, heap, population, exempt, d.mutation);
    var g := GenerationOf(ops, populationSize, heap, next, population, exempt, d);
    GenerationShape(ops, populationSize, heap, next, population, exempt, d);
    assert g.heap == WithChildren(ops, h, population, d, next, count);
    WithChildrenDomain(ops, h, population, d, next, count);
    StoreGrows(heap, h, g.heap, population, exempt, g.population, next, count);
  }

  /**
   * A store with the same objects as `heap` plus `next`, ..., `next + count - 1` holds every
   * entry of a list made of those new identities, the tail of the old list and the exempt.
   */
  lemma StoreGrows<I>(heap: map<Id, I>, h: map<Id, I>, w: map<Id, I>, population: seq<Id>, exempt: seq<Id>, p: seq<Id>, next: Id, count: nat)
    requires h.Keys == heap.Keys && forall id :: id in w <==> id in h || next <= id < next + count
    requires Stored(heap, population) && Stored(heap, exempt) && Below(heap, next) && count <= |population|
    requires |p| == |population| + |exempt| && p[|population|..] == exempt
    requires forall i :: 0 <= i < count ==> p[i] == next + i
    requires forall i :: count <= i < |population| ==> p[i] == population[i]
    ensures forall i :: 0 <= i < count ==> p[i] !in heap && p[i] in w
    ensures Stored(w, p) && Below(w, next + count)
    ensures forall id :: id in heap ==> id in w
  {
    forall i | 0 <= i < |p|
      ensures p[i] in w
    {
      if i < count {
        assert p[i] == next + i;
      } else if i < |population| {
        assert p[i] == population[i] && population[i] in heap;
      } else {
        assert p[i] == p[|population|..][i - |population|] == exempt[i - |population|];
      }
    }
    forall id | id in w
      ensures id < next + count
    {
      assert id in h || next <= id < next + count;
    }
    forall id | id in heap
      ensures id in w
    {
      assert id in h;
    }
  }

  /** The offspring objects hold `father.reproduce(mother)` of the drawn parents, read after mutation. */
  lemma GenerationChildren<I, M, X>(ops: Ops<I, M, X>, populationSize: nat, heap: map<Id, I>, next: Id, population: seq<Id>, exempt: seq<Id>, d: GenerationDraws<M, X>)
    requires GenerationReady(populationSize, heap, next, population, exempt, d)
    ensures var g := GenerationOf(ops, populationSize, heap, next, population, exempt, d);
            var h := MutatePass(ops, heap, population, exempt, d.mutation);
            forall i :: 0 <= i < OffspringCount(populationSize, |exempt|) ==>
              g.population[i] in g.heap && g.heap[g.population[i]] == Child(ops, h, population, d, i)
  {
    var count := OffspringCount(populationSize, |exempt|);
    var h := MutatePass(ops, heap, population, exempt, d.mutation);
    var g := GenerationOf(ops, populationSize, heap, next, population, exempt, d);
    assert g.heap == WithChildren(ops, h, population, d, next, count);
    assert g.population == NextPopulation(population, exempt, next, count);
    ChildrenInPlace(ops, h, population, exempt, d, next, count);
  }

  /** List entry `i` of the next list designates the object holding the `i`-th offspring. */
  lemma ChildrenInPlace<I, M, X>(ops: Ops<I, M, X>, heap: map<Id, I>, population: seq<Id>, exempt: seq<Id>, d: GenerationDraws<M, X>, next: Id, count: nat)
    requires Stored(heap, population) && DrawsFit(d, |population|, count) && count <= |population|
    ensures var w := WithChildren(ops, heap, population, d, next, count);
            var p := NextPopulation(population, exempt, next, count);
            forall i :: 0 <= i < count ==> p[i] in w && w[p[i]] == Child(ops, heap, population, d, i)
  {
    var w := WithChildren(ops, heap, population, d, next, count);
    var p := NextPopulation(population, exempt, next, count);
    NextPopulationShape(population, exempt, next, count);
    forall i | 0 <= i < count
      ensures p[i] in w && w[p[i]] == Child(ops, heap, population, d, i)
    {
      assert p[i] == next + i;
      WithChildrenAt(ops, heap, population, d, next, count, i);
    }
  }

  /**
   * The exempt objects keep their value, and in a list without repeats every other old object
   * is mutated exactly once, with its own entry's draw.
   */
  lemma GenerationMutations<I, M, X>(ops: Ops<I, M, X>, populationSize: nat, heap: map<Id, I>, next: Id, population: seq<Id>, exempt: seq<Id>, d: GenerationDraws<M, X>)
    requires GenerationReady(populationSize, heap, next, population, exempt, d)
    ensures var g := GenerationOf(ops, populationSize, heap, next, population, exempt, d);
            forall id :: id in exempt ==> id in g.heap && g.heap[id] == heap[id]
    ensures var g := GenerationOf(ops, populationSize, heap, next, population, exempt, d);
            Distinct(population) ==>
              forall i :: 0 <= i < |population| ==>
                population[i] in g.heap && g.heap[population[i]] == if population[i] in exempt then heap[population[i]]
                                         else ops.mutate(heap[population[i]], d.mutation[i])
  {
    var g := GenerationOf(ops, populationSize, heap, next, population, exempt, d);
    var h := MutatePass(ops, heap, population, exempt, d.mutation);
    WithChildrenKeeps(ops, h, population, d, next, OffspringCount(populationSize, |exempt|));
    forall id | id in exempt
      ensures id in g.heap && g.heap[id] == heap[id]
    {
      var k :| 0 <= k < |exempt| && exempt[k] == id;
      MutatePassKeeps(ops, heap, population, exempt, d.mutation, id);
    }
    if Distinct(population) {
      forall i | 0 <= i < |population|
        ensures population[i] in g.heap && g.heap[population[i]] == if population[i] in exempt then heap[population[i]]
                                         else ops.mutate(heap[population[i]], d.mutation[i])
      {
        MutatedOnce(ops, heap, population, exempt, d.mutation, i, |population|);
        assert population[..|population|] == population && d.mutation[..|population|] == d.mutation;
      }
    }
  }

  /** One step of the first loop: entry `i` is mutated unless its object is exempt. */
  method MutateEntry<I, M, X>(ops: Ops<I, M, X>, heap: map<Id, I>, population: seq<Id>, exempt: seq<Id>, draws: seq<M>, i: nat, h: map<Id, I>)
    returns (h': map<Id, I>)
    requires Stored(heap, population) && |draws| == |population| && i < |population|
    requires h == MutatePass(ops, heap, population[..i], exempt, draws[..i])
    ensures h' == MutatePass(ops, heap, population[..i + 1], exempt, draws[..i + 1])
  {
    var id := population[i];
    assert population[..i + 1][..i] == population[..i] && draws[..i + 1][..i] == draws[..i];
    h' := h;
    if id !in exempt {
      h' := h'[id := ops.mutate(h'[id], draws[i])];
    }
  }

  /** Extending the list by one entry extends the collected values by that entry's reading. */
  lemma ObservedStep<I, M, X>(f: I -> real, ops: Ops<I, M, X>, heap: map<Id, I>, population: seq<Id>, exempt: seq<Id>, draws: seq<M>, i: nat)
    requires Stored(heap, population) && |draws| == |population| && i < |population|
    ensures Observed(f, ops, heap, population[..i + 1], exempt, draws[..i + 1]) ==
            Observed(f, ops, heap, population[..i], exempt, draws[..i])
              + [f(MutatePass(ops, heap, population[..i + 1], exempt, draws[..i + 1])[population[i]])]
  {
    assert population[..i + 1][..i] == population[..i] && draws[..i + 1][..i] == draws[..i];
  }

  /** The indices `0, 1, ..., n - 1` that `enumerate` pairs with the list entries. */
  function Indices(n: nat): (r: seq<nat>)
    ensures |r| == n && forall k :: 0 <= k < n ==> r[k] == k
  {
    if n == 0 then [] else Indices(n - 1) + [n - 1]
  }

  /** The three `collect` calls for one list entry holding `x` at index `uid`. */
  method CollectEntry<I, M, X>(ops: Ops<I, M, X>, x: I, item: Id, uid: nat,
                               scoreStats: StatCollector, mutationStats: StatCollector, matingStats: StatCollector)
    requires scoreStats != mutationStats && scoreStats != matingStats && mutationStats != matingStats
    requires scoreStats.Valid() && mutationStats.Valid() && matingStats.Valid()
    modifies scoreStats, mutationStats, matingStats
    ensures scoreStats.Valid() && mutationStats.Valid() && matingStats.Valid()
    ensures scoreStats.values == old(scoreStats.values) + [ops.normalizedRate(x)]
    ensures mutationStats.values == old(mutationStats.values) + [ops.mutationProbability(x)]
    ensures matingStats.values == old(matingStats.values) + [ops.matingProbability(x)]
    ensures scoreStats.items == old(scoreStats.items) + [item] && scoreStats.uids == old(scoreStats.uids) + [uid]
  {
    scoreStats.Collect(ops.normalizedRate(x), item, uid);
    mutationStats.Collect(ops.mutationProbability(x), item, uid);
    matingStats.Collect(ops.matingProbability(x), item, uid);
  }

  /**
   * The state of the first loop once the first `i` entries are handled: `h` is the objects
   * after their mutation steps and each collector holds what was read off those entries.
   */
  ghost predicate CollectedUpTo<I, M, X>(ops: Ops<I, M, X>, heap: map<Id, I>, population: seq<Id>, exempt: seq<Id>, draws: seq<M>,
                                         i: nat, h: map<Id, I>, scoreStats: StatCollector, mutationStats: StatCollector, matingStats: StatCollector)
    requires Stored(heap, population) && |draws| == |population| && i <= |population|
    reads scoreStats, mutationStats, matingStats
  {
    && scoreStats != mutationStats && scoreStats != matingStats && mutationStats != matingStats
    && h == MutatePass(ops, heap, population[..i], exempt, draws[..i])
    && scoreStats.Valid() && mutationStats.Valid() && matingStats.Valid()
    && scoreStats.values == Observed(ops.normalizedRate, ops, heap, population[..i], exempt, draws[..i])
    && mutationStats.values == Observed(ops.mutationProbability, ops, heap, population[..i], exempt, draws[..i])
    && matingStats.values == Observed(ops.matingProbability, ops, heap, population[..i], exempt, draws[..i])
    && scoreStats.items == population[..i] && scoreStats.uids == Indices(i)
  }

  /** One step of the first loop: entry `i` is mutated unless exempt, then its readings are collected. */
  method CollectStep<I, M, X>(ops: Ops<I, M, X>, heap: map<Id, I>, population: seq<Id>, exempt: seq<Id>, draws: seq<M>, i: nat, h: map<Id, I>,
                              scoreStats: StatCollector, mutationStats: StatCollector, matingStats: StatCollector)
    returns (h': map<Id, I>)
    requires Stored(heap, population) && |draws| == |population| && i < |population|
    requires CollectedUpTo(ops, heap, population, exempt, draws, i, h, scoreStats, mutationStats, matingStats)
    modifies scoreStats, mutationStats, matingStats
    ensures CollectedUpTo(ops, heap, population, exempt, draws, i + 1, h', scoreStats, mutationStats, matingStats)
  {
    var id := population[i];
    TakeOneMore(population, i);
    h' := MutateEntry(ops, heap, population, exempt, draws, i, h);
    ObservedStep(ops.normalizedRate, ops, heap, population, exempt, draws, i);
    ObservedStep(ops.mutationProbability, ops, heap, population, exempt, draws, i);
    ObservedStep(ops.matingProbability, ops, heap, population, exempt, draws, i);
    CollectEntry(ops, h'[id], id, i, scoreStats, mutationStats, matingStats);
  }

  /** The first `i + 1` entries are the first `i` and then entry `i`. */
  lemma TakeOneMore<T>(s: seq<T>, i: nat)
    requires i < |s|
    ensures s[..i + 1] == s[..i] + [s[i]]
  {
  }

  /**
   * The first loop of `run_generation`: mutate every entry that is not exempt and collect
   * its score, mutation probability and mating probability under its index.
   */
  method MutateAndCollect<I, M, X>(ops: Ops<I, M, X>, heap: map<Id, I>, population: seq<Id>, exempt: seq<Id>, draws: seq<M>)
    returns (h: map<Id, I>, scoreStats: StatCollector, mutationStats: StatCollector, matingStats: StatCollector)
    requires Stored(heap, population) && |draws| == |population|
    ensures h == MutatePass(ops, heap, population, exempt, draws)
    ensures scoreStats.Valid() && mutationStats.Valid() && matingStats.Valid()
    ensures scoreStats.values == Observed(ops.normalizedRate, ops, heap, population, exempt, draws)
    ensures mutationStats.values == Observed(ops.mutationProbability, ops, heap, population, exempt, draws)
    ensures matingStats.values == Observed(ops.matingProbability, ops, heap, population, exempt, draws)
    ensures scoreStats.items == population && scoreStats.uids == Indices(|population|)
  {
    scoreStats := new StatCollector();
    mutationStats := new StatCollector();
    matingStats := new StatCollector();
    CollectedNothing(ops, heap, population, exempt, draws, scoreStats, mutationStats, matingStats);
    h := CollectAll(ops, heap, population, exempt, draws, scoreStats, mutationStats, matingStats);
    CollectedEverything(ops, heap, population, exempt, draws, h, scoreStats, mutationStats, matingStats);
  }

  /** The loop itself: every entry in turn, into collectors that start out empty. */
  method CollectAll<I, M, X>(ops: Ops<I, M, X>, heap: map<Id, I>, population: seq<Id>, exempt: seq<Id>, draws: seq<M>,
                             scoreStats: StatCollector, mutationStats: StatCollector, matingStats: StatCollector)
    returns (h: map<Id, I>)
    requires Stored(heap, population) && |draws| == |population|
    requires CollectedUpTo(ops, heap, population, exempt, draws, 0, heap, scoreStats, mutationStats, matingStats)
    modifies scoreStats, mutationStats, matingStats
    ensures CollectedUpTo(ops, heap, population, exempt, draws, |population|, h, scoreStats, mutationStats, matingStats)
  {
    h := heap;
    var i := 0;
    while i < |population|
      invariant 0 <= i <= |population|
      invariant CollectedUpTo(ops, heap, population, exempt, draws, i, h, scoreStats, mutationStats, matingStats)
    {
      h := CollectStep(ops, heap, population, exempt, draws, i, h, scoreStats, mutationStats, matingStats);
      i := i + 1;
    }
  }

  /** Before the first loop, with three new collectors, nothing has been handled yet. */
  lemma CollectedNothing<I, M, X>(ops: Ops<I, M, X>, heap: map<Id, I>, population: seq<Id>, exempt: seq<Id>, draws: seq<M>,
                                  scoreStats: StatCollector, mutationStats: StatCollector, matingStats: StatCollector)
    requires Stored(heap, population) && |draws| == |population|
    requires scoreStats != mutationStats && scoreStats != matingStats && mutationStats != matingStats
    requires scoreStats.Valid() && mutationStats.Valid() && matingStats.Valid()
    requires scoreStats.values == [] && mutationStats.values == [] && matingStats.values == []
    requires scoreStats.items == [] && scoreStats.uids == []
    ensures CollectedUpTo(ops, heap, population, exempt, draws, 0, heap, scoreStats, mutationStats, matingStats)
  {
    assert population[..0] == [] && draws[..0] == [];
  }

  /** After the first loop every entry has been handled. */
  lemma CollectedEverything<I, M, X>(ops: Ops<I, M, X>, heap: map<Id, I>, population: seq<Id>, exempt: seq<Id>, draws: seq<M>,
                                     h: map<Id, I>, scoreStats: StatCollector, mutationStats: StatCollector, matingStats: StatCollector)
    requires Stored(heap, population) && |draws| == |population|
    requires CollectedUpTo(ops, heap, population, exempt, draws, |population|, h, scoreStats, mutationStats, matingStats)
    ensures h == MutatePass(ops, heap, population, exempt, draws)
    ensures scoreStats.Valid() && mutationStats.Valid() && matingStats.Valid()
    ensures scoreStats.values == Observed(ops.normalizedRate, ops, heap, population, exempt, draws)
    ensures mutationStats.values == Observed(ops.mutationProbability, ops, heap, population, exempt, draws)
    ensures matingStats.values == Observed(ops.matingProbability, ops, heap, population, exempt, draws)
    ensures scoreStats.items == population && scoreStats.uids == Indices(|population|)
  {
    assert population[..|population|] == population && draws[..|population|] == draws;
  }

  /**
   * The second loop of `run_generation`: the `i`-th drawn pair's offspring becomes a new
   * object (identity `next + i`) that takes the place of list entry `i`.
   */
  method Breed<I, M, X>(ops: Ops<I, M, X>, heap: map<Id, I>, population: seq<Id>, d: GenerationDraws<M, X>, next: Id, count: nat)
    returns (h: map<Id, I>, p: seq<Id>)
    requires Stored(heap, population) && DrawsFit(d, |population|, count) && count <= |population|
    ensures h == WithChildren(ops, heap, population, d, next, count)
    ensures p == FreshIds(next, count) + population[count..]
  {
    h, p := heap, population;
    var j := 0;
    while j < count
      invariant 0 <= j <= count
      invariant BredUpTo(ops, heap, population, d, next, count, j, h, p)
    {
      h, p := BreedStep(ops, heap, population, d, next, count, j, h, p);
      j := j + 1;
    }
    BredAll(population, next, count, p);
  }

  /** Once every offspring holds its entry, the list is the fresh ids followed by the old tail. */
  lemma BredAll(population: seq<Id>, next: Id, count: nat, p: seq<Id>)
    requires count <= |population| && |p| == |population|
    requires forall k :: 0 <= k < count ==> p[k] == next + k
    requires forall k :: count <= k < |population| ==> p[k] == population[k]
    ensures p == FreshIds(next, count) + population[count..]
  {
  }

  /**
   * The state of the second loop once the first `j` offspring exist: they are objects
   * `next`, ..., `next + j - 1` and hold list entries `0`, ..., `j - 1`.
   */
  ghost predicate BredUpTo<I, M, X>(ops: Ops<I, M, X>, heap: map<Id, I>, population: seq<Id>, d: GenerationDraws<M, X>, next: Id, count: nat,
                                    j: nat, h: map<Id, I>, p: seq<Id>)
    requires Stored(heap, population) && DrawsFit(d, |population|, count) && j <= count <= |population|
  {
    && h == WithChildren(ops, heap, population, d, next, j)
    && |p| == |population|
    && (forall k :: 0 <= k < j ==> p[k] == next + k)
    && (forall k :: j <= k < |population| ==> p[k] == population[k])
  }

  /** One step of the second loop: offspring `j` replaces list entry `j`. */
  method BreedStep<I, M, X>(ops: Ops<I, M, X>, heap: map<Id, I>, population: seq<Id>, d: GenerationDraws<M, X>, next: Id, count: nat,
                            j: nat, h: map<Id, I>, p: seq<Id>)
    returns (h': map<Id, I>, p': seq<Id>)
    requires Stored(heap, population) && DrawsFit(d, |population|, count) && j < count <= |population|
    requires BredUpTo(ops, heap, population, d, next, count, j, h, p)
    ensures BredUpTo(ops, heap, population, d, next, count, j + 1, h', p')
  {
    var father, mother := population[d.fathers[j]], population[d.mothers[j]];
    var child := Reproduce(ops, heap[father], heap[mother], father == mother, d.coins[j], d.mating[j]);
    h' := h[next + j := child];
    p' := p[j := next + j];
  }

  /**
   * `run_generation`: mutate every entry not exempt and collect its score and probabilities,
   * draw the parents, overwrite the first `N - k` entries with their offspring, append the
   * exempt objects, and return the three collectors.
   */
  method RunGeneration<I, M, X>(ops: Ops<I, M, X>, populationSize: nat, heap: map<Id, I>, next: Id, population: seq<Id>, exempt: seq<Id>, d: GenerationDraws<M, X>)
    returns (heap': map<Id, I>, next': Id, population': seq<Id>,
             scoreStats: StatCollector, mutationStats: StatCollector, matingStats: StatCollector)
    requires GenerationReady(populationSize, heap, next, population, exempt, d)
    ensures var g := GenerationOf(ops, populationSize, heap, next, population, exempt, d);
            heap' == g.heap && next' == g.next && population' == g.population
    ensures scoreStats.Valid() && mutationStats.Valid() && matingStats.Valid()
    ensures var g := GenerationOf(ops, populationSize, heap, next, population, exempt, d);
            && scoreStats.values == g.scores
            && mutationStats.values == g.mutationProbabilities
            && matingStats.values == g.matingProbabilities
    ensures scoreStats.items == population && scoreStats.uids == Indices(|population|)
  {
    var h;
    h, scoreStats, mutationStats, matingStats := MutateAndCollect(ops, heap, population, exempt, d.mutation);
    var count := OffspringCount(populationSize, |exempt|);
    var p;
    heap', p := Breed(ops, h, population, d, next, count);
    next', population' := next + count, p + exempt;
  }

  // ---------------------------------------------------------------------------------------
  // ExitReasons and the stagnation bookkeeping of run_population
  // ---------------------------------------------------------------------------------------

  /** `ExitReasons`: why a population stopped evolving. */
  datatype ExitReason = KeyboardInterrupt | Success | Blocked

  /** `all_time_best_score`, `no_progress_count` and `generation_count`. */
  datatype Progress = Progress(allTimeBest: Option<real>, noProgress: nat, generation: nat)

  /** The values before the first generation. */
  const Start := Progress(None, 0, 0)

  /** A generation improves when there is no best yet or its greatest score beats it strictly. */
  predicate Improves(p: Progress, greatest: real)
  {
    p.allTimeBest.None? || greatest > p.allTimeBest.value
  }

  /**
   * The bookkeeping after a generation whose greatest score is `greatest`: the new progress
   * values and the exit decided, if any.
   */
  function Track(p: Progress, greatest: real): (r: (Progress, Option<ExitReason>))
    ensures r.0.generation == p.generation + 1
    ensures r.0.noProgress == 0 <==> Improves(p, greatest)
    ensures !Improves(p, greatest) ==> r.0.noProgress == p.noProgress + 1 && r.0.allTimeBest == p.allTimeBest
    ensures r.0.allTimeBest.Some? && greatest <= r.0.allTimeBest.value
    ensures p.allTimeBest.Some? ==> p.allTimeBest.value <= r.0.allTimeBest.value
    ensures r.1 == Some(Success) <==> Improves(p, greatest) && greatest >= 100.0
    ensures r.1 == Some(Blocked) <==> !Improves(p, greatest) && p.generation > 20 && p.noProgress + 1 >= p.generation / 2
    ensures r.1 != Some(KeyboardInterrupt)
  {
    if Improves(p, greatest) then
      (Progress(Some(greatest), 0, p.generation + 1), if greatest >= 100.0 then Some(Success) else None)
    else
      var stalled := p.noProgress + 1;
      (Progress(p.allTimeBest, stalled, p.generation + 1),
       if p.generation > 20 && stalled >= p.generation / 2 then Some(Blocked) else None)
  }

  /** The bookkeeping over the greatest scores of successive generations, up to the first exit. */
  function Replay(p: Progress, greatests: seq<real>): (r: (Progress, Option<ExitReason>))
    decreases |greatests|
  {
    if greatests == [] then (p, None)
    else
      var (p', e) := Track(p, greatests[0]);
      if e.Some? then (p', e) else Replay(p', greatests[1..])
  }

  /** `n` generations that all reach the same greatest score `c`. */
  function Constant(c: real, n: nat): (s: seq<real>)
    ensures |s| == n && forall k :: 0 <= k < n ==> s[k] == c
  {
    if n == 0 then [] else [c] + Constant(c, n - 1)
  }

  /** From generation `k` (1 <= k <= 21) on, a score that never improves is blocked at generation 21. */
  lemma {:induction false} StalledFrom(c: real, k: nat, n: nat)
    requires c < 100.0 && 1 <= k <= 21
    ensures Replay(Progress(Some(c), k - 1, k), Constant(c, n)) ==
            if n >= 22 - k then (Progress(Some(c), 21, 22), Some(Blocked))
            else (Progress(Some(c), k - 1 + n, k + n), None)
    decreases n
  {
    if n > 0 {
      assert Constant(c, n)[1..] == Constant(c, n - 1);
      if k < 21 {
        StalledFrom(c, k + 1, n - 1);
      }
    }
  }

  /**
   * A population whose best score stays at the same value below 100 is declared blocked
   * after exactly 22 generations (the one numbered 21), and not before.
   */
  lemma ConstantScoreBlocks(c: real, n: nat)
    requires c < 100.0 && n >= 1
    ensures Replay(Start, Constant(c, n)) ==
            if n >= 22 then (Progress(Some(c), 21, 22), Some(Blocked))
            else (Progress(Some(c), n - 1, n), None)
  {
    assert Constant(c, n)[1..] == Constant(c, n - 1);
    StalledFrom(c, 1, n - 1);
  }

  // ---------------------------------------------------------------------------------------
  // GeneticEngine.run_population
  // ---------------------------------------------------------------------------------------

  /** The tuple `(greatest, mean, smallest, greatest_id)` recorded for a generation. */
  datatype GenerationStats = GenerationStats(greatest: real, mean: real, smallest: real, greatestId: nat)

  /** What happens at the top of the loop: a keyboard interrupt, or a generation with its draws. */
  datatype GenerationInput<M, X> = Interrupt | Proceed(draws: GenerationDraws<M, X>)

  /** The variables of `run_population` between two generations. */
  datatype RunState<I> = RunState(
    heap: map<Id, I>, next: Id, population: seq<Id>, best: Option<Id>,
    progress: Progress, stats: seq<GenerationStats>, bests: seq<Id>)

  /** The largest recorded greatest score. */
  function BestOf(stats: seq<GenerationStats>): (m: real)
    requires stats != []
    ensures forall k :: 0 <= k < |stats| ==> stats[k].greatest <= m
  {
    if |stats| == 1 then stats[0].greatest
    else
      var m := BestOf(stats[..|stats| - 1]);
      assert forall k :: 0 <= k < |stats| - 1 ==> stats[..|stats| - 1][k] == stats[k];
      if stats[|stats| - 1].greatest > m then stats[|stats| - 1].greatest else m
  }

  /** The largest recorded greatest score is itself one of the recorded greatest scores. */
  lemma {:induction false} BestOfRecorded(stats: seq<GenerationStats>)
    requires stats != []
    ensures exists k :: 0 <= k < |stats| && stats[k].greatest == BestOf(stats)
  {
    var n := |stats|;
    if n == 1 {
      assert stats[0].greatest == BestOf(stats);
    } else if stats[n - 1].greatest > BestOf(stats[..n - 1]) {
      assert stats[n - 1].greatest == BestOf(stats);
    } else {
      BestOfRecorded(stats[..n - 1]);
      var k :| 0 <= k < n - 1 && stats[..n - 1][k].greatest == BestOf(stats[..n - 1]);
      assert stats[k].greatest == BestOf(stats);
    }
  }

  /** Length of the list in the generation numbered `generation`: N, N, N + 1, N + 2, ... */
  function ListLength(populationSize: nat, generation: nat): nat
  {
    populationSize + if generation == 0 then 0 else generation - 1
  }

  /** `{best_individual} if best_individual else set()`. */
  function Exempt(best: Option<Id>): (e: seq<Id>)
    ensures |e| <= 1 && Distinct(e)
  {
    if best.Some? then [best.value] else []
  }

  /** What holds of the variables between generations. */
  predicate RunInvariant<I>(populationSize: nat, s: RunState<I>)
  {
    && populationSize >= 1
    && Stored(s.heap, s.population) && Below(s.heap, s.next)
    && |s.population| == ListLength(populationSize, s.progress.generation)
    && (s.best.None? <==> s.progress.generation == 0)
    && (s.best.Some? ==> s.best.value in s.heap)
    && |s.stats| == s.progress.generation && |s.bests| == s.progress.generation
    && (s.stats == [] ==> s.progress.allTimeBest.None?)
    && (s.stats != [] ==> s.progress.allTimeBest == Some(BestOf(s.stats)))
  }

  /** The draws of the generation numbered `generation` fit the list and offspring count of that generation. */
  predicate DrawsFitGeneration<M, X>(populationSize: nat, generation: nat, d: GenerationDraws<M, X>)
  {
    DrawsFit(d, ListLength(populationSize, generation),
             OffspringCount(populationSize, if generation == 0 then 0 else 1))
  }

  /** Every generation's draws, from generation number `first` on, fit that generation. */
  predicate InputsFit<M, X>(populationSize: nat, first: nat, inputs: seq<GenerationInput<M, X>>)
  {
    forall k :: 0 <= k < |inputs| && inputs[k].Proceed? ==> DrawsFitGeneration(populationSize, first + k, inputs[k].draws)
  }

  /** The inputs after the first one fit the generations from the next one on. */
  lemma InputsFitShift<M, X>(populationSize: nat, first: nat, inputs: seq<GenerationInput<M, X>>)
    requires inputs != [] && InputsFit(populationSize, first, inputs)
    ensures InputsFit(populationSize, first + 1, inputs[1..])
  {
    forall k | 0 <= k < |inputs[1..]| && inputs[1..][k].Proceed?
      ensures DrawsFitGeneration(populationSize, first + 1 + k, inputs[1..][k].draws)
    {
      assert inputs[1..][k] == inputs[k + 1];
    }
  }

  /** The state right after `init_population`. */
  function Initial<I>(individuals: seq<I>): (s: RunState<I>)
  {
    var (heap, population) := InitPopulation(individuals);
    RunState(heap, |individuals|, population, None, Start, [], [])
  }

  /** `init_population` of `N` individuals starts the loop of `run_population` in its invariant. */
  lemma InitialInvariant<I>(populationSize: nat, individuals: seq<I>)
    requires populationSize >= 1 && |individuals| == populationSize
    ensures RunInvariant(populationSize, Initial(individuals))
  {
  }

  /** The statistics one generation records, read off its scores. */
  function StatsOf(scores: seq<real>): (st: GenerationStats)
    requires scores != []
    ensures st.greatestId < |scores|
  {
    GenerationStats(scores[ArgMax(scores)], Sum(scores) / (|scores| as real), scores[ArgMin(scores)], ArgMax(scores))
  }

  /**
   * The recorded greatest and smallest bound every score, the greatest is the score of the
   * first entry reaching it, and the mean is the total over the count.
   */
  lemma StatsOfBounds(scores: seq<real>)
    requires scores != []
    ensures var st := StatsOf(scores);
            && (forall k :: 0 <= k < |scores| ==> st.smallest <= scores[k] <= st.greatest)
            && (forall k :: 0 <= k < st.greatestId ==> scores[k] < st.greatest)
            && st.greatest == scores[st.greatestId] && st.mean == Sum(scores) / (|scores| as real)
  {
    ExtremesAreFirst(scores);
  }

  /**
   * A generation step as `run_population` sees it: from the variables between generations and
   * the generation's draws, the objects, list and collected values `run_generation` leaves.
   */
  type GenerationFn<!I, !M, !X> = (RunState<I>, GenerationDraws<M, X>) --> Generation<I>

  /**
   * What the loop of `run_population` relies on about a generation: one score per list
   * entry, the list of the next generation's length with live entries, `next` still unused,
   * and the objects of the old list still alive.
   */
  predicate GenerationFits<I>(populationSize: nat, s: RunState<I>, g: Generation<I>)
  {
    && |g.scores| == |s.population|
    && |g.population| == ListLength(populationSize, s.progress.generation + 1)
    && Stored(g.heap, g.population) && Below(g.heap, g.next)
    && Stored(g.heap, s.population)
  }

  /** `gen` can run every generation the loop reaches and leaves what the loop relies on. */
  ghost predicate RunsGenerations<I(!new), M(!new), X(!new)>(populationSize: nat, gen: GenerationFn<I, M, X>)
  {
    forall s: RunState<I>, d: GenerationDraws<M, X> ::
      RunInvariant(populationSize, s) && DrawsFitGeneration(populationSize, s.progress.generation, d) ==>
        gen.requires(s, d) && GenerationFits(populationSize, s, gen(s, d))
  }

  /** `run_generation(do_not_mutate={best_individual} or set())`, as a generation step. */
  function RunGenerationFn<I(!new), M(!new), X(!new)>(ops: Ops<I, M, X>, populationSize: nat): (gen: GenerationFn<I, M, X>)
  {
    (s: RunState<I>, d: GenerationDraws<M, X>)
      requires RunInvariant(populationSize, s) && DrawsFitGeneration(populationSize, s.progress.generation, d) =>
      assert GenerationReady(populationSize, s.heap, s.next, s.population, Exempt(s.best), d);
      GenerationOf(ops, populationSize, s.heap, s.next, s.population, Exempt(s.best), d)
  }

  /** `run_generation` leaves what the loop of `run_population` relies on. */
  lemma RunGenerationRuns<I(!new), M(!new), X(!new)>(ops: Ops<I, M, X>, populationSize: nat)
    ensures RunsGenerations(populationSize, RunGenerationFn(ops, populationSize))
  {
    var gen := RunGenerationFn(ops, populationSize);
    forall s: RunState<I>, d: GenerationDraws<M, X> |
      RunInvariant(populationSize, s) && DrawsFitGeneration(populationSize, s.progress.generation, d)
      ensures gen.requires(s, d) && GenerationFits(populationSize, s, gen(s, d))
    {
      var exempt := Exempt(s.best);
      assert GenerationReady(populationSize, s.heap, s.next, s.population, exempt, d);
      GenerationList(ops, populationSize, s.heap, s.next, s.population, exempt, d);
      var g := GenerationOf(ops, populationSize, s.heap, s.next, s.population, exempt, d);
      assert gen(s, d) == g;
      forall i | 0 <= i < |s.population|
        ensures s.population[i] in g.heap
      {
        assert s.population[i] in s.heap;
      }
    }
  }

  /** One pass of the loop body of `run_population` that runs a generation. */
  function Step<I(!new), M(!new), X(!new)>(populationSize: nat, gen: GenerationFn<I, M, X>, s: RunState<I>, d: GenerationDraws<M, X>): (r: (RunState<I>, Option<ExitReason>))
    requires RunsGenerations(populationSize, gen)
    requires RunInvariant(populationSize, s) && DrawsFitGeneration(populationSize, s.progress.generation, d)
    ensures RunInvariant(populationSize, r.0)
    ensures r.0.progress.generation == s.progress.generation + 1
    ensures |r.0.stats| == |s.stats| + 1 && |r.0.bests| == |s.bests| + 1
    ensures r.0.stats[..|s.stats|] == s.stats && r.0.bests[..|s.bests|] == s.bests
    ensures (r.0.progress, r.1) == Track(s.progress, r.0.stats[|s.stats|].greatest)
    ensures r.0.best == Some(r.0.bests[|s.bests|])
  {
    var g := gen(s, d);
    var st := StatsOf(g.scores);
    var best := s.population[st.greatestId];
    var (p, e) := Track(s.progress, st.greatest);
    var r := RunState(g.heap, g.next, g.population, Some(best), p, s.stats + [st], s.bests + [best]);
    assert r.stats[..|s.stats|] == s.stats && r.bests[..|s.bests|] == s.bests;
    assert s.stats != [] ==> BestOf(r.stats) == if st.greatest > BestOf(s.stats) then st.greatest else BestOf(s.stats);
    (r, e)
  }

  /**
   * `run_population` from state `s` on: run generations until SUCCESS, BLOCKED or an
   * interrupt; `None` when the inputs run out first.
   */
  function Evolve<I(!new), M(!new), X(!new)>(populationSize: nat, gen: GenerationFn<I, M, X>, s: RunState<I>, inputs: seq<GenerationInput<M, X>>): (r: (RunState<I>, Option<ExitReason>))
    requires RunsGenerations(populationSize, gen)
    requires RunInvariant(populationSize, s) && InputsFit(populationSize, s.progress.generation, inputs)
    decreases |inputs|
  {
    if inputs == [] then (s, None)
    else if inputs[0].Interrupt? then (s, Some(KeyboardInterrupt))
    else
      var step := Step(populationSize, gen, s, inputs[0].draws);
      if step.1.Some? then step
      else
        InputsFitShift(populationSize, s.progress.generation, inputs);
        Evolve(populationSize, gen, step.0, inputs[1..])
  }

  /** The variables still satisfy the invariant when `run_population` stops. */
  lemma {:induction false} EvolveInvariant<I(!new), M(!new), X(!new)>(populationSize: nat, gen: GenerationFn<I, M, X>, s: RunState<I>, inputs: seq<GenerationInput<M, X>>)
    requires RunsGenerations(populationSize, gen)
    requires RunInvariant(populationSize, s) && InputsFit(populationSize, s.progress.generation, inputs)
    ensures RunInvariant(populationSize, Evolve(populationSize, gen, s, inputs).0)
    decreases |inputs|
  {
    if inputs != [] && inputs[0].Proceed? {
      var (s', e) := Step(populationSize, gen, s, inputs[0].draws);
      if e.None? {
        InputsFitShift(populationSize, s.progress.generation, inputs);
        EvolveInvariant(populationSize, gen, s', inputs[1..]);
        assert Evolve(populationSize, gen, s, inputs) == Evolve(populationSize, gen, s', inputs[1..]);
      }
    }
  }

  /** The greatest score of each recorded generation. */
  function Greatests(stats: seq<GenerationStats>): (gs: seq<real>)
    ensures |gs| == |stats| && forall k :: 0 <= k < |stats| ==> gs[k] == stats[k].greatest
  {
    if stats == [] then [] else Greatests(stats[..|stats| - 1]) + [stats[|stats| - 1].greatest]
  }

  /** Recording one more generation adds its greatest score at the end. */
  lemma GreatestsSnoc(stats: seq<GenerationStats>, st: GenerationStats)
    ensures Greatests(stats + [st]) == Greatests(stats) + [st.greatest]
  {
    assert (stats + [st])[..|stats|] == stats;
  }

  /** A sequence one longer than its prefix `b` is `b` and then its last element. */
  lemma PrefixAndLast<T>(a: seq<T>, b: seq<T>)
    requires |a| == |b| + 1 && a[..|b|] == b
    ensures a == b + [a[|b|]]
  {
  }

  /** While no exit has been decided, one more generation is one more `Track` step. */
  lemma {:induction false} ReplaySnoc(p: Progress, greatests: seq<real>, g: real)
    requires Replay(p, greatests).1.None?
    ensures Replay(p, greatests + [g]) == Track(Replay(p, greatests).0, g)
    decreases |greatests|
  {
    if greatests != [] {
      var (p', e) := Track(p, greatests[0]);
      assert (greatests + [g])[1..] == greatests[1..] + [g];
      ReplaySnoc(p', greatests[1..], g);
    }
  }

  /** A prefix of a prefix is a prefix. */
  lemma PrefixOfPrefix<T>(a: seq<T>, b: seq<T>, c: seq<T>)
    requires |c| <= |b| <= |a| && a[..|b|] == b && b[..|c|] == c
    ensures a[..|c|] == c
  {
    assert a[..|c|] == a[..|b|][..|c|];
  }

  /** The recorded statistics only grow, by one entry per generation run. */
  lemma {:induction false} EvolveHistories<I(!new), M(!new), X(!new)>(populationSize: nat, gen: GenerationFn<I, M, X>, s: RunState<I>, inputs: seq<GenerationInput<M, X>>)
    requires RunsGenerations(populationSize, gen)
    requires RunInvariant(populationSize, s) && InputsFit(populationSize, s.progress.generation, inputs)
    ensures var (r, e) := Evolve(populationSize, gen, s, inputs);
            && |s.stats| <= |r.stats| && r.stats[..|s.stats|] == s.stats
            && (e.None? ==> |r.stats| == |s.stats| + |inputs|)
    decreases |inputs|
  {
    if inputs != [] && inputs[0].Proceed? {
      var (s', e) := Step(populationSize, gen, s, inputs[0].draws);
      if e.None? {
        InputsFitShift(populationSize, s.progress.generation, inputs);
        EvolveHistories(populationSize, gen, s', inputs[1..]);
        var r := Evolve(populationSize, gen, s', inputs[1..]).0;
        assert Evolve(populationSize, gen, s, inputs).0 == r;
        PrefixOfPrefix(r.stats, s'.stats, s.stats);
      }
    } else {
      TakeAll(s.stats);
    }
  }

  /** Taking every element gives the whole sequence. */
  lemma TakeAll<T>(s: seq<T>)
    ensures s[..|s|] == s
  {
  }

  /** The bookkeeping at the end of a run is `Replay` of the greatest scores it recorded. */
  lemma {:induction false} EvolveReplays<I(!new), M(!new), X(!new)>(populationSize: nat, gen: GenerationFn<I, M, X>, s: RunState<I>, inputs: seq<GenerationInput<M, X>>)
    requires RunsGenerations(populationSize, gen)
    requires RunInvariant(populationSize, s) && InputsFit(populationSize, s.progress.generation, inputs)
    requires Replay(Start, Greatests(s.stats)) == (s.progress, None)
    ensures var (r, e) := Evolve(populationSize, gen, s, inputs);
            Replay(Start, Greatests(r.stats)) == (r.progress, if e == Some(KeyboardInterrupt) then None else e)
    decreases |inputs|
  {
    if inputs != [] && inputs[0].Proceed? {
      var (s', e) := Step(populationSize, gen, s, inputs[0].draws);
      StepReplays(populationSize, gen, s, inputs[0].draws);
      if e.None? {
        InputsFitShift(populationSize, s.progress.generation, inputs);
        EvolveReplays(populationSize, gen, s', inputs[1..]);
        assert Evolve(populationSize, gen, s, inputs) == Evolve(populationSize, gen, s', inputs[1..]);
      }
    }
  }

  /** An exit other than an interrupt is decided by the last generation recorded. */
  lemma {:induction false} EvolveDecidesLast<I(!new), M(!new), X(!new)>(populationSize: nat, gen: GenerationFn<I, M, X>, s: RunState<I>, inputs: seq<GenerationInput<M, X>>)
    requires RunsGenerations(populationSize, gen)
    requires RunInvariant(populationSize, s) && InputsFit(populationSize, s.progress.generation, inputs)
    requires Replay(Start, Greatests(s.stats)) == (s.progress, None)
    ensures var (r, e) := Evolve(populationSize, gen, s, inputs);
            e == Some(Success) || e == Some(Blocked) ==>
              r.stats != [] && Replay(Start, Greatests(r.stats[..|r.stats| - 1])).1.None?
    decreases |inputs|
  {
    if inputs != [] && inputs[0].Proceed? {
      var (s', e) := Step(populationSize, gen, s, inputs[0].draws);
      EvolveProceeds(populationSize, gen, s, inputs);
      if e.None? {
        StepReplays(populationSize, gen, s, inputs[0].draws);
        EvolveDecidesLast(populationSize, gen, s', inputs[1..]);
      } else {
        assert s'.stats[..|s'.stats| - 1] == s.stats;
      }
    }
  }

  /** One generation extends `Replay` of the recorded greatest scores by one `Track` step. */
  lemma StepReplays<I(!new), M(!new), X(!new)>(populationSize: nat, gen: GenerationFn<I, M, X>, s: RunState<I>, d: GenerationDraws<M, X>)
    requires RunsGenerations(populationSize, gen)
    requires RunInvariant(populationSize, s) && DrawsFitGeneration(populationSize, s.progress.generation, d)
    requires Replay(Start, Greatests(s.stats)) == (s.progress, None)
    ensures var (s', e) := Step(populationSize, gen, s, d);
            Replay(Start, Greatests(s'.stats)) == (s'.progress, e)
  {
    var (s', e) := Step(populationSize, gen, s, d);
    var st := s'.stats[|s.stats|];
    PrefixAndLast(s'.stats, s.stats);
    GreatestsSnoc(s.stats, st);
    ReplaySnoc(Start, Greatests(s.stats), st.greatest);
  }

  /**
   * While no exit has been decided, `Replay` counts one generation per score, and its best
   * score is at least every score seen and the best it started from.
   */
  lemma {:induction false} ReplayUndecided(p: Progress, greatests: seq<real>)
    requires Replay(p, greatests).1.None?
    ensures var q := Replay(p, greatests).0;
            && q.generation == p.generation + |greatests|
            && (greatests == [] ==> q == p)
            && (greatests != [] ==> q.allTimeBest.Some?)
            && (forall k :: 0 <= k < |greatests| ==> q.allTimeBest.Some? && greatests[k] <= q.allTimeBest.value)
            && (p.allTimeBest.Some? ==> q.allTimeBest.Some? && p.allTimeBest.value <= q.allTimeBest.value)
    decreases |greatests|
  {
    if greatests != [] {
      var (p', e) := Track(p, greatests[0]);
      ReplayUndecided(p', greatests[1..]);
      forall k | 1 <= k < |greatests|
        ensures greatests[k] == greatests[1..][k - 1]
      {
      }
    }
  }

  /**
   * When the scores before the last one decided nothing, SUCCESS means the last score is at
   * least 100 and strictly above every earlier one, and BLOCKED means at least 22 scores.
   */
  lemma ExitConditions(greatests: seq<real>)
    requires greatests != [] && Replay(Start, greatests[..|greatests| - 1]).1.None?
    ensures var e := Replay(Start, greatests).1;
            var last := greatests[|greatests| - 1];
            && (e == Some(Success) ==>
                  last >= 100.0 && forall k :: 0 <= k < |greatests| - 1 ==> greatests[k] < last)
            && (e == Some(Blocked) ==> |greatests| >= 22)
  {
    var n := |greatests|;
    var last, before := greatests[n - 1], greatests[..n - 1];
    assert greatests == before + [last];
    ReplaySnoc(Start, before, last);
    ReplayUndecided(Start, before);
    var q := Replay(Start, before).0;
    assert Replay(Start, greatests) == Track(q, last);
    if Replay(Start, greatests).1 == Some(Success) {
      forall k | 0 <= k < n - 1
        ensures greatests[k] < last
      {
        assert before[k] == greatests[k];
      }
    }
  }

  /** From `init_population` on, a whole run of `run_population` keeps these guarantees. */
  lemma RunPopulationOutcome<I(!new), M(!new), X(!new)>(populationSize: nat, gen: GenerationFn<I, M, X>, individuals: seq<I>, inputs: seq<GenerationInput<M, X>>)
    requires RunsGenerations(populationSize, gen)
    requires populationSize >= 1 && |individuals| == populationSize && InputsFit(populationSize, 0, inputs)
    ensures RunInvariant(populationSize, Initial(individuals))
    ensures var (r, e) := Evolve(populationSize, gen, Initial(individuals), inputs);
            && |r.stats| == |r.bests| == r.progress.generation
            && Replay(Start, Greatests(r.stats)) == (r.progress, if e == Some(KeyboardInterrupt) then None else e)
            && (e == Some(Success) ==>
                  && r.stats != [] && r.stats[|r.stats| - 1].greatest >= 100.0
                  && forall k :: 0 <= k < |r.stats| - 1 ==> r.stats[k].greatest < r.stats[|r.stats| - 1].greatest)
            && (e == Some(Blocked) ==> |r.stats| >= 22)
            && (e.None? ==> |r.stats| == |inputs|)
  {
    var s := Initial(individuals);
    EvolveInvariant(populationSize, gen, s, inputs);
    EvolveHistories(populationSize, gen, s, inputs);
    EvolveReplays(populationSize, gen, s, inputs);
    EvolveDecidesLast(populationSize, gen, s, inputs);
    var (r, e) := Evolve(populationSize, gen, s, inputs);
    if e == Some(Success) || e == Some(Blocked) {
      var gs := Greatests(r.stats);
      assert gs[..|gs| - 1] == Greatests(r.stats[..|r.stats| - 1]);
      ExitConditions(gs);
    }
  }

  /** The suffix of fitting inputs from position `i` on fits the generations from number `i` on. */
  lemma InputsFitSuffix<M, X>(populationSize: nat, inputs: seq<GenerationInput<M, X>>, i: nat)
    requires i <= |inputs| && InputsFit(populationSize, 0, inputs)
    ensures InputsFit(populationSize, i, inputs[i..])
  {
    forall k | 0 <= k < |inputs[i..]| && inputs[i..][k].Proceed?
      ensures DrawsFitGeneration(populationSize, i + k, inputs[i..][k].draws)
    {
      assert inputs[i..][k] == inputs[i + k];
    }
  }

  /** `Evolve` on inputs starting with a generation is one `Step`, then the rest unless it decided an exit. */
  lemma EvolveProceeds<I(!new), M(!new), X(!new)>(populationSize: nat, gen: GenerationFn<I, M, X>, s: RunState<I>, inputs: seq<GenerationInput<M, X>>)
    requires RunsGenerations(populationSize, gen)
    requires RunInvariant(populationSize, s) && InputsFit(populationSize, s.progress.generation, inputs)
    requires inputs != [] && inputs[0].Proceed?
    ensures var (s', e) := Step(populationSize, gen, s, inputs[0].draws);
            && InputsFit(populationSize, s'.progress.generation, inputs[1..])
            && Evolve(populationSize, gen, s, inputs) == if e.Some? then (s', e) else Evolve(populationSize, gen, s', inputs[1..])
  {
    InputsFitShift(populationSize, s.progress.generation, inputs);
  }

  /**
   * `run_generation` followed by what `run_population` reads off `score_stats`: the tuple it
   * records and `best_individual`, the item of the greatest score.
   */
  method RecordGeneration<I, M, X>(ops: Ops<I, M, X>, populationSize: nat, heap: map<Id, I>, next: Id, population: seq<Id>, exempt: seq<Id>, d: GenerationDraws<M, X>)
    returns (heap': map<Id, I>, next': Id, population': seq<Id>, record: GenerationStats, bestIndividual: Id)
    requires GenerationReady(populationSize, heap, next, population, exempt, d) && population != []
    ensures var g := GenerationOf(ops, populationSize, heap, next, population, exempt, d);
            && g.scores != [] && heap' == g.heap && next' == g.next && population' == g.population
            && record == StatsOf(g.scores) && bestIndividual == population[record.greatestId]
  {
    var scoreStats, mutationStats, matingStats;
    heap', next', population', scoreStats, mutationStats, matingStats :=
      RunGeneration(ops, populationSize, heap, next, population, exempt, d);
    assert |scoreStats.values| == |population|;
    bestIndividual := scoreStats.greatestItem.value;
    record := GenerationStats(scoreStats.greatest.value, scoreStats.Mean().value, scoreStats.smallest.value, scoreStats.greatestId.value);
  }

  /** The stagnation bookkeeping of `run_population` after a generation whose greatest score is `greatest`. */
  method TrackProgress(p: Progress, greatest: real) returns (p': Progress, exitReason: Option<ExitReason>)
    ensures (p', exitReason) == Track(p, greatest)
  {
    var allTimeBest, noProgress, generation := p.allTimeBest, p.noProgress, p.generation;
    exitReason := None;
    if allTimeBest.None? || greatest > allTimeBest.value {
      allTimeBest, noProgress := Some(greatest), 0;
      if allTimeBest.value >= 100.0 {
        exitReason := Some(Success);
      }
    } else {
      noProgress := noProgress + 1;
      if generation > 20 && noProgress >= generation / 2 {
        exitReason := Some(Blocked);
      }
    }
    generation := generation + 1;
    p' := Progress(allTimeBest, noProgress, generation);
  }

  /** `Step` with `run_generation` as the generation step, spelled out. */
  lemma StepOf<I(!new), M(!new), X(!new)>(ops: Ops<I, M, X>, populationSize: nat, s: RunState<I>, d: GenerationDraws<M, X>)
    requires RunInvariant(populationSize, s) && DrawsFitGeneration(populationSize, s.progress.generation, d)
    ensures GenerationReady(populationSize, s.heap, s.next, s.population, Exempt(s.best), d)
    ensures RunsGenerations(populationSize, RunGenerationFn(ops, populationSize))
    ensures var g := GenerationOf(ops, populationSize, s.heap, s.next, s.population, Exempt(s.best), d);
            var st := StatsOf(g.scores);
            var t := Track(s.progress, st.greatest);
            Step(populationSize, RunGenerationFn(ops, populationSize), s, d) ==
              (RunState(g.heap, g.next, g.population, Some(s.population[st.greatestId]), t.0, s.stats + [st], s.bests + [s.population[st.greatestId]]), t.1)
  {
    RunGenerationRuns(ops, populationSize);
    var g := GenerationOf(ops, populationSize, s.heap, s.next, s.population, Exempt(s.best), d);
    assert RunGenerationFn(ops, populationSize)(s, d) == g;
  }

  /**
   * The body of the `try` of `run_population`: run a generation that spares the best
   * individual, record its statistics and best individual, and update the stagnation
   * counters, deciding SUCCESS or BLOCKED.
   */
  method RunPopulationStep<I(!new), M(!new), X(!new)>(ops: Ops<I, M, X>, populationSize: nat, s: RunState<I>, d: GenerationDraws<M, X>)
    returns (s': RunState<I>, exitReason: Option<ExitReason>)
    requires RunInvariant(populationSize, s) && DrawsFitGeneration(populationSize, s.progress.generation, d)
    ensures RunsGenerations(populationSize, RunGenerationFn(ops, populationSize))
    ensures (s', exitReason) == Step(populationSize, RunGenerationFn(ops, populationSize), s, d)
  {
    StepOf(ops, populationSize, s, d);
    var heap, next, population, record, bestIndividual :=
      RecordGeneration(ops, populationSize, s.heap, s.next, s.population, Exempt(s.best), d);
    var progress;
    progress, exitReason := TrackProgress(s.progress, record.greatest);
    s' := RunState(heap, next, population, Some(bestIndividual), progress, s.stats + [record], s.bests + [bestIndividual]);
  }

  /**
   * The loop of `run_population` after consuming `inputs[..i]`: either it has stopped with
   * `exitReason` and `r` is the outcome, or the outcome is that of evolving `r` on the rest.
   */
  ghost predicate Running<I(!new), M(!new), X(!new)>(populationSize: nat, gen: GenerationFn<I, M, X>, outcome: (RunState<I>, Option<ExitReason>),
                                                     inputs: seq<GenerationInput<M, X>>, i: nat, r: RunState<I>, exitReason: Option<ExitReason>)
    requires RunsGenerations(populationSize, gen)
  {
    && i <= |inputs| && RunInvariant(populationSize, r)
    && (exitReason.Some? ==> outcome == (r, exitReason))
    && (exitReason.None? ==>
          && r.progress.generation == i && InputsFit(populationSize, i, inputs[i..])
          && outcome == Evolve(populationSize, gen, r, inputs[i..]))
  }

  /** One pass of the loop of `run_population`: an interrupt stops it, otherwise a generation runs. */
  method RunPopulationIteration<I(!new), M(!new), X(!new)>(ops: Ops<I, M, X>, populationSize: nat, ghost outcome: (RunState<I>, Option<ExitReason>),
                                                           inputs: seq<GenerationInput<M, X>>, i: nat, r: RunState<I>)
    returns (r': RunState<I>, exitReason: Option<ExitReason>)
    requires RunsGenerations(populationSize, RunGenerationFn(ops, populationSize))
    requires i < |inputs| && Running(populationSize, RunGenerationFn(ops, populationSize), outcome, inputs, i, r, None)
    ensures Running(populationSize, RunGenerationFn(ops, populationSize), outcome, inputs, i + 1, r', exitReason)
  {
    ghost var gen := RunGenerationFn(ops, populationSize);
    if inputs[i].Interrupt? {
      r', exitReason := r, Some(KeyboardInterrupt);
    } else {
      EvolveProceeds(populationSize, gen, r, inputs[i..]);
      assert inputs[i..][1..] == inputs[i + 1..];
      r', exitReason := RunPopulationStep(ops, populationSize, r, inputs[i].draws);
    }
  }

  /**
   * `run_population`: from a freshly initialised population, run generations until SUCCESS,
   * BLOCKED or an interrupt (or until the inputs run out), and return the final variables with
   * the recorded statistics and best individuals.
   */
  method RunPopulation<I(!new), M(!new), X(!new)>(ops: Ops<I, M, X>, populationSize: nat, individuals: seq<I>, inputs: seq<GenerationInput<M, X>>)
    returns (r: RunState<I>, exitReason: Option<ExitReason>)
    requires populationSize >= 1 && |individuals| == populationSize && InputsFit(populationSize, 0, inputs)
    ensures RunsGenerations(populationSize, RunGenerationFn(ops, populationSize))
    ensures RunInvariant(populationSize, Initial(individuals))
    ensures (r, exitReason) == Evolve(populationSize, RunGenerationFn(ops, populationSize), Initial(individuals), inputs)
  {
    RunGenerationRuns(ops, populationSize);
    ghost var outcome := Evolve(populationSize, RunGenerationFn(ops, populationSize), Initial(individuals), inputs);
    r := Initial(individuals);
    exitReason := None;
    var i := 0;
    assert inputs[0..] == inputs;
    while i < |inputs| && exitReason.None?
      invariant Running(populationSize, RunGenerationFn(ops, populationSize), outcome, inputs, i, r, exitReason)
      decreases |inputs| - i
    {
      r, exitReason := RunPopulationIteration(ops, populationSize, outcome, inputs, i, r);
      i := i + 1;
    }
    if exitReason.None? {
      assert inputs[i..] == [];
    }
  }

  // ---------------------------------------------------------------------------------------
  // GeneticEngine.run
  // ---------------------------------------------------------------------------------------

  /** The outcomes of one `run_population` call: the constructed individuals and what each generation meets. */
  datatype Attempt<I, M, X> = Attempt(individuals: seq<I>, inputs: seq<GenerationInput<M, X>>)

  /** An attempt starts from `N` individuals and its draws fit every generation. */
  predicate AttemptFits<I, M, X>(populationSize: nat, a: Attempt<I, M, X>)
  {
    |a.individuals| == populationSize && InputsFit(populationSize, 0, a.inputs)
  }

  /** What `run_population` returns for one attempt. */
  function Outcome<I(!new), M(!new), X(!new)>(populationSize: nat, gen: GenerationFn<I, M, X>, a: Attempt<I, M, X>): (RunState<I>, Option<ExitReason>)
    requires RunsGenerations(populationSize, gen) && populationSize >= 1 && AttemptFits(populationSize, a)
  {
    InitialInvariant(populationSize, a.individuals);
    Evolve(populationSize, gen, Initial(a.individuals), a.inputs)
  }

  /** What `run_population` returns for each attempt. */
  function Outcomes<I(!new), M(!new), X(!new)>(populationSize: nat, gen: GenerationFn<I, M, X>, attempts: seq<Attempt<I, M, X>>): (os: seq<(RunState<I>, Option<ExitReason>)>)
    requires RunsGenerations(populationSize, gen) && populationSize >= 1
    requires forall k :: 0 <= k < |attempts| ==> AttemptFits(populationSize, attempts[k])
    ensures |os| == |attempts|
    ensures forall k :: 0 <= k < |attempts| ==> os[k] == Outcome(populationSize, gen, attempts[k])
  {
    seq(|attempts|, k requires 0 <= k < |attempts| => Outcome(populationSize, gen, attempts[k]))
  }

  /**
   * `run` over the outcomes of successive populations: one stopped as BLOCKED is replaced by
   * the next, any other stop ends the run with that population's results; the last outcome
   * is kept when no population is left.
   */
  function Restarts<T>(outcomes: seq<(T, Option<ExitReason>)>): (T, Option<ExitReason>)
    requires outcomes != []
  {
    if outcomes[0].1 == Some(Blocked) && |outcomes| > 1 then Restarts(outcomes[1..]) else outcomes[0]
  }

  /**
   * Outcome `k` is the result: every earlier population ended BLOCKED, and this one did not
   * unless it is the last.
   */
  ghost predicate PickedAt<T>(outcomes: seq<(T, Option<ExitReason>)>, k: nat)
    requires k < |outcomes|
  {
    && Restarts(outcomes) == outcomes[k]
    && (forall j :: 0 <= j < k ==> outcomes[j].1 == Some(Blocked))
    && (k < |outcomes| - 1 ==> outcomes[k].1 != Some(Blocked))
  }

  /**
   * The result of `run` is that of the first population that did not end BLOCKED, every
   * population before it having ended BLOCKED.
   */
  lemma {:induction false} RestartsPicksFirstUnblocked<T>(outcomes: seq<(T, Option<ExitReason>)>)
    requires outcomes != []
    ensures exists k :: 0 <= k < |outcomes| && PickedAt(outcomes, k)
  {
    if outcomes[0].1 == Some(Blocked) && |outcomes| > 1 {
      var rest := outcomes[1..];
      RestartsPicksFirstUnblocked(rest);
      var k :| 0 <= k < |rest| && PickedAt(rest, k);
      forall j | 0 <= j < k + 1
        ensures outcomes[j].1 == Some(Blocked)
      {
        if j > 0 {
          assert outcomes[j] == rest[j - 1];
        }
      }
      assert PickedAt(outcomes, k + 1);
    } else {
      assert PickedAt(outcomes, 0);
    }
  }

  /**
   * `run`: evolve populations until one stops for another reason than BLOCKED (or the attempts
   * run out), and return the last population's best individuals and statistics, together with
   * the individuals those ids stand for.
   */
  method Run<I(!new), M(!new), X(!new)>(ops: Ops<I, M, X>, populationSize: nat, attempts: seq<Attempt<I, M, X>>)
    returns (bestIndividuals: seq<Id>, populationStats: seq<GenerationStats>, heap: map<Id, I>)
    requires populationSize >= 1 && attempts != []
    requires forall k :: 0 <= k < |attempts| ==> AttemptFits(populationSize, attempts[k])
    ensures RunsGenerations(populationSize, RunGenerationFn(ops, populationSize))
    ensures var o := Restarts(Outcomes(populationSize, RunGenerationFn(ops, populationSize), attempts));
            bestIndividuals == o.0.bests && populationStats == o.0.stats && heap == o.0.heap
  {
    RunGenerationRuns(ops, populationSize);
    ghost var outcomes := Outcomes(populationSize, RunGenerationFn(ops, populationSize), attempts);
    ghost var outcome := Restarts(outcomes);
    var keepRunning := true;
    var i := 0;
    bestIndividuals, populationStats, heap := [], [], map[];
    while keepRunning
      invariant 0 <= i <= |attempts|
      invariant keepRunning ==> i < |attempts| && outcome == Restarts(outcomes[i..])
      invariant !keepRunning ==> bestIndividuals == outcome.0.bests && populationStats == outcome.0.stats && heap == outcome.0.heap
      decreases |attempts| - i
    {
      var r, exitReason := RunPopulation(ops, populationSize, attempts[i].individuals, attempts[i].inputs);
      bestIndividuals, populationStats, heap := r.bests, r.stats, r.heap;
      assert outcomes[i..][0] == outcomes[i] && outcomes[i..][1..] == outcomes[i + 1..];
      if exitReason != Some(Blocked) || i == |attempts| - 1 {
        keepRunning := false;
      }
      i := i + 1;
    }
  }
}
