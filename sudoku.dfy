/**
 * The 6x6 Sudoku individual of `SudokuSolver/sudoku.py`.
 *
 * A grid holds its given cells and its cells (a set of `Cell` objects, kept here as a
 * sequence in iteration order), and its two probabilities. Every random outcome the Python
 * code draws is an input: the index draws of `random.shuffle`, the `random()` gate and
 * `randint` value of each mutation, and the `choice`/`randint` results and `zip` pairing of
 * `mate`.
 */
module Sudoku {
  import opened Base
  import opened Cells
  import opened Tally

  const Width: nat := 6
  const Height: nat := 6
  const SquareWidth: nat := 3
  const SquareHeight: nat := 2
  /** `max(width, height)`: the number of values a cell can take. */
  const ValueNumber: nat := Max(Width, Height)
  /** `min(width, height)`: the number of passes of `build_random_valid_sudoku_values`. */
  const Passes: nat := Min(Width, Height)

  /** The class attributes `mutation_probability` and `mating_probability`. */
  const DefaultMutationProbability: real := 0.03
  const DefaultMatingProbability: real := 0.5

  /** The three coherence assertions of the constructor hold for the grid's dimensions. */
  lemma GeometryCoherent()
    ensures Width % SquareWidth == 0 && Height % SquareHeight == 0 && SquareWidth * SquareHeight == Width
  {
  }

  /** `floor`: the smallest score of a grid holding one cell per position. */
  function Floor(): (f: int)
    ensures f == 108
  {
    var w, h, sw, sh, v := Width, Height, SquareWidth, SquareHeight, ValueNumber;
    (1 * w) * (1 * w) + (1 * h) * (1 * h) + (1 * sw * sh) * (1 * sw * sh) + (0 * v) * (0 * v)
  }

  /** `maxi`: the largest score of a grid of 36 cells. */
  function Maxi(): (m: int)
    ensures m == 3924
  {
    var w, h, sw, sh, v := Width, Height, SquareWidth, SquareHeight, ValueNumber;
    (v * w) * (v * w) + (v * h) * (v * h) + (v * sw * sh) * (v * sw * sh) + (1 * v) * (1 * v)
  }

  // ---------------------------------------------------------------------------------------
  // Construction

  /** A failed `assert` in the constructor. */
  datatype SetupError = AssertionError

  /**
   * The cells `__init__` builds from the given cells: the givens followed by one new
   * `None`-valued cell per uncovered position. It fails when a given cell lies off the board
   * or when the cells do not number 36, which happens exactly when two givens share a position.
   */
  function Layout(given: seq<Cell>): (r: Result<seq<Cell>, SetupError>)
    ensures r.Ok? <==> (forall c :: c in given ==> OnBoard(c.position, Width, Height)) && Distinct(Positions(given))
    ensures r.Ok? ==> r.value == given + MissingCells(given, Width, Height) && |r.value| == Width * Height
  {
    CellCount(given, Width, Height);
    if !forall c :: c in given ==> OnBoard(c.position, Width, Height) then Err(AssertionError)
    else if |given| + |MissingCells(given, Width, Height)| != Width * Height then Err(AssertionError)
    else Ok(given + MissingCells(given, Width, Height))
  }

  /** The loops of `__init__` that check the givens, add the missing cells and count them. */
  method BuildCells(given: seq<Cell>) returns (r: Result<seq<Cell>, SetupError>)
    ensures r == Layout(given)
  {
    for k := 0 to |given|
      invariant forall c :: c in given[..k] ==> OnBoard(c.position, Width, Height)
    {
      if !(0 <= given[k].position.x < Width) || !(0 <= given[k].position.y < Height) {
        return Err(AssertionError);
      }
      assert given[..k + 1] == given[..k] + [given[k]];
    }
    assert given[..|given|] == given;
    var cells := AddMissingCells(given, given, Width, Height);
    if |cells| != Width * Height {
      return Err(AssertionError);
    }
    return Ok(cells);
  }

  // ---------------------------------------------------------------------------------------
  // build_random_valid_sudoku_values

  /** The values `1..i` that pass `p` (counting from 0) appends: those given at most `p` times. */
  function PassValues(given: seq<Option<int>>, p: nat, i: nat): seq<int>
  {
    if i == 0 then []
    else PassValues(given, p, i - 1) + (if Count(given, Some(i)) <= p then [i] else [])
  }

  /**
   * The list `build_random_valid_sudoku_values` returns after `passes` passes over the
   * values `1..n`: each pass emits a value unless a given copy of it is left to consume.
   */
  function Owed(given: seq<Option<int>>, passes: nat, n: nat): seq<int>
  {
    if passes == 0 then [] else Owed(given, passes - 1, n) + PassValues(given, passes - 1, n)
  }

  /** Python's `list.remove`: drop the first occurrence. */
  function RemoveFirst<T(==)>(s: seq<T>, x: T): (r: seq<T>)
    requires x in s
    ensures multiset(r) == multiset(s) - multiset{x}
  {
    if s[0] == x then
      assert s == [s[0]] + s[1..];
      s[1..]
    else
      assert s == [s[0]] + s[1..];
      [s[0]] + RemoveFirst(s[1..], x)
  }

  /** How many copies of `v` are left in `given_values` in pass `p` once the values below `i` were handled. */
  ghost function Left(given: seq<Option<int>>, p: nat, i: nat, v: Option<int>): int
  {
    if v.Some? && 1 <= v.value <= ValueNumber then Max(Count(given, v) - (if v.value < i then p + 1 else p), 0)
    else Count(given, v)
  }

  /** `remaining` holds what pass `p` has left of the given values once it has handled the values below `i`. */
  ghost predicate PassState(given: seq<Option<int>>, p: nat, i: nat, remaining: seq<Option<int>>)
  {
    forall v :: multiset(remaining)[v] == Left(given, p, i, v)
  }

  /** Handling value `i` consumes one copy of it exactly when one is left. */
  lemma LeftStep(given: seq<Option<int>>, p: nat, i: nat)
    requires 1 <= i <= ValueNumber
    ensures forall v :: Left(given, p, i + 1, v) ==
                        Left(given, p, i, v) - (if v == Some(i) && Left(given, p, i, v) > 0 then 1 else 0)
  {
  }

  /** The end of one pass is the start of the next. */
  lemma LeftPass(given: seq<Option<int>>, p: nat, i: nat)
    requires i == ValueNumber + 1
    ensures forall v :: Left(given, p, i, v) == Left(given, p + 1, 1, v)
  {
  }

  /** One pass of the outer loop of `build_random_valid_sudoku_values`. */
  method OwedPass(givenValues: seq<Option<int>>, p: nat, remaining: seq<Option<int>>)
    returns (remaining': seq<Option<int>>, emitted: seq<int>)
    requires PassState(givenValues, p, 1, remaining)
    ensures PassState(givenValues, p + 1, 1, remaining')
    ensures emitted == PassValues(givenValues, p, ValueNumber)
  {
    remaining' := remaining;
    emitted := [];
    for i := 1 to ValueNumber + 1
      invariant emitted == PassValues(givenValues, p, i - 1)
      invariant PassState(givenValues, p, i, remaining')
    {
      LeftStep(givenValues, p, i);
      assert multiset(remaining')[Some(i)] == Left(givenValues, p, i, Some(i));
      if Some(i) in remaining' {
        remaining' := RemoveFirst(remaining', Some(i));
      } else {
        emitted := emitted + [i];
      }
    }
    LeftPass(givenValues, p, ValueNumber + 1);
  }

  /** `build_random_valid_sudoku_values`, on the list of the given cells' values. */
  method OwedValues(givenValues: seq<Option<int>>) returns (numbers: seq<int>)
    ensures numbers == Owed(givenValues, Passes, ValueNumber)
  {
    var remaining := givenValues;
    numbers := [];
    forall v | true
      ensures multiset(remaining)[v] == Left(givenValues, 0, 1, v)
    {
      CountMultiset(givenValues, v);
    }
    for p := 0 to Passes
      invariant numbers == Owed(givenValues, p, ValueNumber)
      invariant PassState(givenValues, p, 1, remaining)
    {
      var emitted;
      remaining, emitted := OwedPass(givenValues, p, remaining);
      numbers := numbers + emitted;
    }
  }

  /** A pass emits value `i` once when `i` is given at most `p` times, and emits nothing outside `1..n`. */
  lemma {:induction false} PassValuesCount(given: seq<Option<int>>, p: nat, n: nat, x: int)
    ensures Count(PassValues(given, p, n), x) == if 1 <= x <= n && Count(given, Some(x)) <= p then 1 else 0
  {
    if n > 0 {
      var earlier := PassValues(given, p, n - 1);
      var step: seq<int> := if Count(given, Some(n)) <= p then [n] else [];
      PassValuesCount(given, p, n - 1, x);
      CountAppend(earlier, step, x);
      assert Count(step, x) == if x == n && Count(given, Some(n)) <= p then 1 else 0 by {
        if step != [] {
          assert step[..0] == [];
        }
      }
    }
  }

  /**
   * After `passes` passes the list holds value `i` (for `i` in `1..ValueNumber`) `passes`
   * minus its given count times, or not at all, and holds no other value.
   */
  lemma {:induction false} OwedCount(given: seq<Option<int>>, passes: nat, n: nat, x: int)
    ensures Count(Owed(given, passes, n), x) ==
            if 1 <= x <= n then Max(passes - Count(given, Some(x)), 0) else 0
  {
    if passes > 0 {
      var earlier, pass := Owed(given, passes - 1, n), PassValues(given, passes - 1, n);
      OwedCount(given, passes - 1, n, x);
      PassValuesCount(given, passes - 1, n, x);
      CountAppend(earlier, pass, x);
      assert Count(Owed(given, passes, n), x) == Count(earlier, x) + Count(pass, x);
    }
  }

  /**
   * `build_random_valid_sudoku_values` owes value `i` exactly `6 - min(count, 6)` times,
   * where `count` is how often the givens hold `i`, and owes nothing outside `1..6`.
   */
  lemma OwedValuesCount(given: seq<Option<int>>, x: int)
    ensures Count(Owed(given, Passes, ValueNumber), x) ==
            if 1 <= x <= ValueNumber then Passes - Min(Count(given, Some(x)), Passes) else 0
  {
    OwedCount(given, Passes, ValueNumber, x);
  }

  // ---------------------------------------------------------------------------------------
  // random.shuffle

  /** The draws of `random.shuffle` on a list of length `n`: for each index `i >= 1`, a `j <= i`. */
  predicate ShuffleDrawsFit(draws: seq<nat>, n: nat)
  {
    |draws| == n && forall i :: 1 <= i < n ==> draws[i] <= i
  }

  /** Swap two entries. */
  function Swap<T>(s: seq<T>, i: nat, j: nat): (r: seq<T>)
    requires i < |s| && j < |s|
    ensures |r| == |s|
  {
    s[i := s[j]][j := s[i]]
  }

  /** Swapping two entries keeps the same entries. */
  lemma SwapPermutes<T>(s: seq<T>, i: nat, j: nat)
    requires i < |s| && j < |s|
    ensures multiset(Swap(s, i, j)) == multiset(s)
  {
  }

  /** The list once `random.shuffle` has handled the indices from the last one down to `i`: the same entries, each as often. */
  function ShuffledFrom<T>(s: seq<T>, draws: seq<nat>, i: nat): (r: seq<T>)
    requires 1 <= i && ShuffleDrawsFit(draws, |s|)
    ensures |r| == |s| && multiset(r) == multiset(s)
    decreases |s| - i
  {
    if i >= |s| then s
    else
      var before := ShuffledFrom(s, draws, i + 1);
      SwapPermutes(before, i, draws[i]);
      Swap(before, i, draws[i])
  }

  /** `random.shuffle`: for `i` from the last index down to 1, swap entries `i` and `draws[i]`. */
  method Shuffle<T>(s: seq<T>, draws: seq<nat>) returns (r: seq<T>)
    requires ShuffleDrawsFit(draws, |s|)
    ensures r == ShuffledFrom(s, draws, 1)
    ensures multiset(r) == multiset(s)
  {
    r := s;
    if |s| <= 1 {
      return;
    }
    var i := |s|;
    while i > 1
      invariant 1 <= i <= |s| && r == ShuffledFrom(s, draws, i)
    {
      r := Swap(r, i - 1, draws[i - 1]);
      i := i - 1;
    }
  }

  // ---------------------------------------------------------------------------------------
  // randomly_fill and mutate

  /** How many cells before index `i` are not original given cells. */
  function FreeRank(cells: seq<Cell>, i: nat): (n: nat)
    requires i <= |cells|
    ensures n <= i
  {
    if i == 0 then 0 else FreeRank(cells, i - 1) + (if cells[i - 1].given then 0 else 1)
  }

  /** The cells once the `k`-th cell outside the given cells has received `values[k]`, while values last. */
  function Filled(cells: seq<Cell>, values: seq<int>): (r: seq<Cell>)
    ensures |r| == |cells|
  {
    seq(|cells|, i requires 0 <= i < |cells| =>
      if !cells[i].given && FreeRank(cells, i) < |values| then cells[i].(value := Some(values[FreeRank(cells, i)]))
      else cells[i])
  }

  /**
   * Filling keeps every position and every given cell, writes into the cells outside the
   * givens the values in order, and leaves the free cells past the last value untouched.
   */
  lemma FilledMeaning(cells: seq<Cell>, values: seq<int>)
    ensures var r := Filled(cells, values);
            forall i :: 0 <= i < |cells| ==>
              && r[i].position == cells[i].position && r[i].given == cells[i].given
              && (cells[i].given ==> r[i] == cells[i])
              && (!cells[i].given ==> r[i].value == if FreeRank(cells, i) < |values| then Some(values[FreeRank(cells, i)]) else cells[i].value)
  {
  }

  /** The `random()` gates lie in `[0, 1)` and the `randint` results in `1..ValueNumber`. */
  predicate MutationDrawsFit(draws: seq<MutationDraw>, n: nat)
  {
    |draws| == n && forall i :: 0 <= i < n ==> 0.0 <= draws[i].gate < 1.0 && 1 <= draws[i].value <= ValueNumber
  }

  /** The cells after `mutate`: a cell outside the givens whose gate is below the probability takes its drawn value. */
  function Mutated(cells: seq<Cell>, draws: seq<MutationDraw>, probability: real): (r: seq<Cell>)
    requires |draws| == |cells|
    ensures |r| == |cells|
  {
    seq(|cells|, i requires 0 <= i < |cells| =>
      if !cells[i].given && draws[i].gate < probability then cells[i].(value := Some(draws[i].value)) else cells[i])
  }

  /**
   * Mutation never touches an original given cell nor any position, changes a cell only
   * when its gate is below the probability, and writes only values in `1..ValueNumber`.
   */
  lemma MutatedMeaning(cells: seq<Cell>, draws: seq<MutationDraw>, probability: real)
    requires MutationDrawsFit(draws, |cells|)
    ensures var r := Mutated(cells, draws, probability);
            forall i :: 0 <= i < |cells| ==>
              && r[i].position == cells[i].position && r[i].given == cells[i].given
              && (cells[i].given || draws[i].gate >= probability ==> r[i] == cells[i])
              && (r[i] != cells[i] ==> r[i].value.Some? && 1 <= r[i].value.value <= ValueNumber)
  {
  }

  /** The loop of `randomly_fill`: the `k`-th cell outside the givens takes `values[k]`, while values last. */
  method FillCells(cells: seq<Cell>, values: seq<int>) returns (filled: seq<Cell>)
    ensures filled == Filled(cells, values)
    ensures Positions(filled) == Positions(cells)
  {
    filled := cells;
    var rank := 0;
    for i := 0 to |filled|
      invariant |filled| == |cells| && rank == FreeRank(cells, i)
      invariant forall k :: 0 <= k < i ==> filled[k] == Filled(cells, values)[k]
      invariant forall k :: i <= k < |filled| ==> filled[k] == cells[k]
    {
      if !filled[i].given {
        if rank < |values| {
          filled := filled[i := filled[i].(value := Some(values[rank]))];
        }
        rank := rank + 1;
      }
    }
    assert filled == Filled(cells, values);
  }

  /** The loop of `mutate`: a cell outside the givens whose gate is below the probability takes its drawn value. */
  method MutateCells(cells: seq<Cell>, draws: seq<MutationDraw>, probability: real) returns (mutated: seq<Cell>)
    requires |draws| == |cells|
    ensures mutated == Mutated(cells, draws, probability)
    ensures Positions(mutated) == Positions(cells)
  {
    mutated := cells;
    for i := 0 to |mutated|
      invariant |mutated| == |cells|
      invariant forall k :: 0 <= k < i ==> mutated[k] == Mutated(cells, draws, probability)[k]
      invariant forall k :: i <= k < |mutated| ==> mutated[k] == cells[k]
    {
      if !mutated[i].given && draws[i].gate < probability {
        mutated := mutated[i := mutated[i].(value := Some(draws[i].value))];
      }
    }
    assert mutated == Mutated(cells, draws, probability);
  }

  // ---------------------------------------------------------------------------------------
  // clone and mate

  /** `position.coordinates[axis]`. */
  function Coordinate(p: Position, axis: nat): int
  {
    if axis == 0 then p.x else p.y
  }

  /** `zip`'s pairing of two cell sets of size `n`: the `i`-th cell of one meets cell `pairing[i]` of the other. */
  predicate IsPairing(pairing: seq<nat>, n: nat)
  {
    |pairing| == n && Distinct(pairing) && forall i :: 0 <= i < n ==> pairing[i] < n
  }

  /**
   * The child's cells in `mate`: for each pair, a copy of this parent's cell if its
   * coordinate on the crossover axis is below the split, else a copy of the other parent's cell.
   */
  function MatedCells(mine: seq<Cell>, theirs: seq<Cell>, pairing: seq<nat>, axis: nat, split: int): (r: seq<Cell>)
    requires IsPairing(pairing, |mine|) && |theirs| == |mine|
    ensures |r| == |mine|
    ensures forall i :: 0 <= i < |mine| ==>
              r[i] == if Coordinate(mine[i].position, axis) < split then Copy(mine[i]) else Copy(theirs[pairing[i]])
  {
    seq(|mine|, i requires 0 <= i < |mine| =>
      if Coordinate(mine[i].position, axis) < split then Copy(mine[i]) else Copy(theirs[pairing[i]]))
  }

  /** The outcomes of `mate`'s draws: the two `choice`s of parent, the crossover axis and the split. */
  datatype MateDraws = MateDraws(mutationFromSelf: bool, matingFromSelf: bool, crossoverType: nat, split: int, pairing: seq<nat>)

  /** `crossover_type` is `choice([0, 1])`; the split is `randint(0, extent - 2)`; the pairing is a bijection. */
  predicate MateDrawsFit(d: MateDraws, n: nat)
  {
    && d.crossoverType <= 1
    && 0 <= d.split <= (if d.crossoverType == 1 then Width - 2 else Height - 2)
    && IsPairing(d.pairing, n)
  }

  // ---------------------------------------------------------------------------------------
  // _rate

  /**
   * `(x // square_width, y // square_height)`. Python's `//` floors; by a positive divisor
   * that is Dafny's `/` on every integer, negative ones included.
   */
  function SquareKey(p: Position): (int, int)
  {
    (p.x / SquareWidth, p.y / SquareHeight)
  }

  /** The `(square_key, value)` pair of every cell, in order. */
  function SquarePairs(cells: seq<Cell>): (pairs: seq<((int, int), Option<int>)>)
    ensures |pairs| == |cells| && forall i :: 0 <= i < |cells| ==> pairs[i] == (SquareKey(cells[i].position), cells[i].value)
  {
    seq(|cells|, i requires 0 <= i < |cells| => (SquareKey(cells[i].position), cells[i].value))
  }

  /** `{6: 1, 5: 0.5, 4: 0.25}.get(count, 0)`. */
  function Credit(count: int): real
  {
    if count == ValueNumber then 1.0
    else if count == ValueNumber - 1 then 0.5
    else if count == ValueNumber - 2 then 0.25
    else 0.0
  }

  /** The credits of the counts of the listed keys, added up. */
  function SumOfCredits<K(==)>(keys: seq<K>, entries: map<K, nat>): real
  {
    if keys == [] then 0.0
    else SumOfCredits(keys[..|keys| - 1], entries) + Credit(CountAt(entries, keys[|keys| - 1]))
  }

  /** The multiplicity term: the credits of `values_count`, the count of each value (`None` included) among the cells. */
  function Multiplicity(cells: seq<Cell>): real
  {
    var d := Counted(Values(cells));
    SumOfCredits(d.keys, d.entries)
  }

  /** The sum of the four terms of `_rate`, each squared. */
  function Score(rows: nat, columns: nat, squares: nat, multiplicity: real): real
  {
    (rows * rows + columns * columns + squares * squares) as real + multiplicity * multiplicity
  }

  /** The score `_rate` returns for the cells. */
  function RateOf(cells: seq<Cell>): real
  {
    Score(Distinctness(RowPairs(cells)), Distinctness(ColumnPairs(cells)), Distinctness(SquarePairs(cells)), Multiplicity(cells))
  }

  /** The doc comment's example: a row holding 1, 2, 5, 4, 2 is worth 4. */
  lemma RowExample()
    ensures Distinctness([(0, Some(1)), (0, Some(2)), (0, Some(5)), (0, Some(4)), (0, Some(2))]) == 4
  {
    var row := [(0, Some(1)), (0, Some(2)), (0, Some(5)), (0, Some(4)), (0, Some(2))];
    var one, two, three, four := {Some(1)}, {Some(1), Some(2)}, {Some(1), Some(2), Some(5)}, {Some(1), Some(2), Some(5), Some(4)};
    assert row[..0] == [];
    GroupedStep(row, 0);
    assert Grouped(row[..1]) == Dict([0], map[0 := one]);
    GroupedStep(row, 1);
    assert one + {Some(2)} == two;
    assert map[0 := one][0 := two] == map[0 := two];
    assert Grouped(row[..2]) == Dict([0], map[0 := two]);
    GroupedStep(row, 2);
    assert two + {Some(5)} == three;
    assert map[0 := two][0 := three] == map[0 := three];
    assert Grouped(row[..3]) == Dict([0], map[0 := three]);
    GroupedStep(row, 3);
    assert three + {Some(4)} == four;
    assert map[0 := three][0 := four] == map[0 := four];
    assert Grouped(row[..4]) == Dict([0], map[0 := four]);
    GroupedStep(row, 4);
    assert four + {Some(2)} == four;
    assert map[0 := four][0 := four] == map[0 := four];
    assert row[..5] == row;
    assert Grouped(row) == Dict([0], map[0 := four]);
    assert SumOfSizes([0], map[0 := four]) == |four| by {
      assert [0][..0] == [];
    }
  }

  /** A count earns at most a sixth of itself in credit, and exactly a sixth only when it is 6. */
  lemma CreditBound(count: int)
    requires count >= 1
    ensures 0.0 <= Credit(count) && ValueNumber as real * Credit(count) <= count as real
    ensures ValueNumber as real * Credit(count) == count as real <==> count == ValueNumber
  {
  }

  /** The credits of counts of at least one add up to at most a sixth of the counts, with equality when every count is 6. */
  lemma {:induction false} SumOfCreditsBound<K>(keys: seq<K>, entries: map<K, nat>)
    requires forall k :: k in keys ==> k in entries && entries[k] >= 1
    ensures 0.0 <= SumOfCredits(keys, entries)
    ensures ValueNumber as real * SumOfCredits(keys, entries) <= SumOfCounts(keys, entries) as real
    ensures ValueNumber as real * SumOfCredits(keys, entries) == SumOfCounts(keys, entries) as real <==>
            forall k :: k in keys ==> CountAt(entries, k) == ValueNumber
  {
    assert ValueNumber == 6;
    if keys != [] {
      var n := |keys| - 1;
      SumOfCreditsBound(keys[..n], entries);
      CreditBound(entries[keys[n]]);
      assert keys == keys[..n] + [keys[n]];
    }
  }

  /**
   * The multiplicity term is at most a sixth of the number of cells, and is exactly that when
   * every value present among the cells occurs 6 times.
   */
  lemma MultiplicityBound(cells: seq<Cell>)
    ensures 0.0 <= Multiplicity(cells)
    ensures ValueNumber as real * Multiplicity(cells) <= |cells| as real
    ensures ValueNumber as real * Multiplicity(cells) == |cells| as real <==>
            forall v :: v in Values(cells) ==> Count(Values(cells), v) == ValueNumber
  {
    var vs := Values(cells);
    CountedCredits(vs);
    EveryCountSix(vs);
  }

  /** The credits of a dict of counts are at most a sixth of the number of keys counted, with equality when every count is 6. */
  lemma CountedCredits<K(!new)>(ks: seq<K>)
    ensures var d := Counted(ks);
            && 0.0 <= SumOfCredits(d.keys, d.entries)
            && ValueNumber as real * SumOfCredits(d.keys, d.entries) <= |ks| as real
            && (ValueNumber as real * SumOfCredits(d.keys, d.entries) == |ks| as real <==>
                forall k :: k in d.keys ==> CountAt(d.entries, k) == ValueNumber)
  {
    assert ValueNumber == 6;
    var d := Counted(ks);
    CountedKeys(ks);
    CountedSum(ks);
    forall k | k in d.keys
      ensures k in d.entries && d.entries[k] >= 1
    {
      CountPositive(ks, k);
    }
    SumOfCreditsBound(d.keys, d.entries);
  }

  /** Every key of the dict of counts has count 6 exactly when every listed value occurs 6 times. */
  lemma EveryCountSix(vs: seq<Option<int>>)
    ensures (forall k :: k in Counted(vs).keys ==> CountAt(Counted(vs).entries, k) == ValueNumber) <==>
            (forall v :: v in vs ==> Count(vs, v) == ValueNumber)
  {
    var d := Counted(vs);
    CountedKeys(vs);
    if forall k :: k in d.keys ==> CountAt(d.entries, k) == ValueNumber {
      forall v | v in vs
        ensures Count(vs, v) == ValueNumber
      {
        assert v in d.keys;
      }
    }
    if forall v :: v in vs ==> Count(vs, v) == ValueNumber {
      forall k | k in d.keys
        ensures CountAt(d.entries, k) == ValueNumber
      {
        assert k in vs;
      }
    }
  }

  /** Every row, column and square repeats no value, and every value present occurs 6 times. */
  ghost predicate Perfect(cells: seq<Cell>)
  {
    && NoRepeats(RowPairs(cells)) && NoRepeats(ColumnPairs(cells)) && NoRepeats(SquarePairs(cells))
    && forall v :: v in Values(cells) ==> Count(Values(cells), v) == ValueNumber
  }

  /** Squaring keeps the order of naturals and tells them apart. */
  lemma SquareBound(a: nat, b: nat)
    requires a <= b
    ensures a * a <= b * b && (a * a == b * b <==> a == b)
  {
    if a < b {
      assert a * a <= a * b < b * b;
    }
  }

  /** The score of three sums of at most 36 and a multiplicity term of at most 6 is at most 3924, and is 3924 only at the bounds. */
  lemma ScoreAtMost(r: nat, c: nat, s: nat, m: real)
    requires r <= 36 && c <= 36 && s <= 36 && 0.0 <= m <= 6.0
    ensures Score(r, c, s, m) <= 3924.0
    ensures Score(r, c, s, m) == 3924.0 <==> r == 36 && c == 36 && s == 36 && m == 6.0
  {
    SquareBound(r, 36);
    SquareBound(c, 36);
    SquareBound(s, 36);
    assert m * m <= 36.0 && (m * m == 36.0 <==> m == 6.0) by {
      if m < 6.0 {
        assert m * m <= m * 6.0 < 36.0;
      }
    }
  }

  /** `maxi` is the largest score of 36 cells, reached exactly by a perfect grid. */
  lemma RateAtMostMaxi(cells: seq<Cell>)
    requires |cells| == Width * Height
    ensures RateOf(cells) <= Maxi() as real
    ensures RateOf(cells) == Maxi() as real <==> Perfect(cells)
  {
    assert ValueNumber == 6 && |cells| == 36;
    var r, c, s := Distinctness(RowPairs(cells)), Distinctness(ColumnPairs(cells)), Distinctness(SquarePairs(cells));
    var m := Multiplicity(cells);
    DistinctnessBound(RowPairs(cells));
    DistinctnessBound(ColumnPairs(cells));
    DistinctnessBound(SquarePairs(cells));
    MultiplicityBound(cells);
    ScoreAtMost(r, c, s, m);
    assert Perfect(cells) <==> r == 36 && c == 36 && s == 36 && m == 6.0;
  }

  /** Every board position is the position of one of the cells. */
  ghost predicate CoversBoard(cells: seq<Cell>)
  {
    forall p :: OnBoard(p, Width, Height) ==> p in Positions(cells)
  }

  /** Cells covering the board hold every row key `0..5`, so at least 6 distinct values over the rows. */
  lemma RowsPresent(cells: seq<Cell>)
    requires CoversBoard(cells)
    ensures Distinctness(RowPairs(cells)) >= Width
  {
    var lines := {0, 1, 2, 3, 4, 5};
    forall k | k in lines
      ensures k in Keys(RowPairs(cells))
    {
      assert Position(k, 0) in Positions(cells);
      var i :| 0 <= i < |cells| && Positions(cells)[i] == Position(k, 0);
      assert Keys(RowPairs(cells))[i] == k;
    }
    DistinctnessAtLeastKeys(RowPairs(cells), lines);
  }

  /** Cells covering the board hold every column key `0..5`, so at least 6 distinct values over the columns. */
  lemma ColumnsPresent(cells: seq<Cell>)
    requires CoversBoard(cells)
    ensures Distinctness(ColumnPairs(cells)) >= Height
  {
    var lines := {0, 1, 2, 3, 4, 5};
    forall k | k in lines
      ensures k in Keys(ColumnPairs(cells))
    {
      assert Position(0, k) in Positions(cells);
      var j :| 0 <= j < |cells| && Positions(cells)[j] == Position(0, k);
      assert Keys(ColumnPairs(cells))[j] == k;
    }
    DistinctnessAtLeastKeys(ColumnPairs(cells), lines);
  }

  /** Cells covering the board hold every one of the six square keys, so at least 6 distinct values over the squares. */
  lemma SquaresPresent(cells: seq<Cell>)
    requires CoversBoard(cells)
    ensures Distinctness(SquarePairs(cells)) >= (Width / SquareWidth) * (Height / SquareHeight)
  {
    var squares := {(0, 0), (0, 1), (0, 2), (1, 0), (1, 1), (1, 2)};
    forall k | k in squares
      ensures k in Keys(SquarePairs(cells))
    {
      var p := Position(SquareWidth * k.0, SquareHeight * k.1);
      assert SquareKey(p) == k;
      assert p in Positions(cells);
      var i :| 0 <= i < |cells| && Positions(cells)[i] == p;
      assert Keys(SquarePairs(cells))[i] == k;
    }
    DistinctnessAtLeastKeys(SquarePairs(cells), squares);
  }

  /** The score of three sums of at least 6 is at least 108. */
  lemma ScoreAtLeast(r: nat, c: nat, s: nat, m: real)
    requires r >= 6 && c >= 6 && s >= 6 && m >= 0.0
    ensures Score(r, c, s, m) >= 108.0
  {
    SquareBound(6, r);
    SquareBound(6, c);
    SquareBound(6, s);
  }

  /** `floor` is the smallest score of cells covering the board: each of the 6 rows, columns and squares holds a value. */
  lemma RateAtLeastFloor(cells: seq<Cell>)
    requires CoversBoard(cells)
    ensures RateOf(cells) >= Floor() as real
  {
    RowsPresent(cells);
    ColumnsPresent(cells);
    SquaresPresent(cells);
    MultiplicityBound(cells);
    ScoreAtLeast(Distinctness(RowPairs(cells)), Distinctness(ColumnPairs(cells)), Distinctness(SquarePairs(cells)), Multiplicity(cells));
  }

  // ---------------------------------------------------------------------------------------
  // __str__

  /** `letters[value]` raised: the value has no letter. */
  datatype RenderError = KeyError

  /** `letters`: `-` for no value and `a` to `z` for 1 to 26; any other value has none. */
  function Letter(v: Option<int>): Result<char, RenderError>
  {
    match v
    case None => Ok('-')
    case Some(i) => if 1 <= i <= 26 then Ok(('a' as int + i - 1) as char) else Err(KeyError)
  }

  /** `str.upper` on the characters `Letter` yields. */
  function Upper(c: char): char
  {
    if 'a' <= c <= 'z' then (c as int - 32) as char else c
  }

  /** The character a cell writes into its slot: its letter, upper-cased when it is written as a given cell. */
  function Mark(c: Cell, upper: bool): Result<char, RenderError>
  {
    match Letter(c.value)
    case Err(e) => Err(e)
    case Ok(ch) => Ok(if upper then Upper(ch) else ch)
  }

  /**
   * A mark shows the value it stands for: two cells with the same mark hold the same value,
   * and a value is shown upper-cased only when it was written as a given cell.
   */
  lemma MarksTellValuesApart(c: Cell, d: Cell, upper: bool, upper': bool)
    requires Mark(c, upper).Ok? && Mark(c, upper) == Mark(d, upper')
    ensures c.value == d.value
    ensures c.value.Some? ==> upper == upper'
  {
  }

  /** A table of `height` rows of `width` slots. */
  predicate Table(slots: seq<seq<char>>)
  {
    |slots| == Height && forall y :: 0 <= y < Height ==> |slots[y]| == Width
  }

  /** Every cell lies on the board. */
  predicate AllOnBoard(cells: seq<Cell>)
  {
    forall c :: c in cells ==> OnBoard(c.position, Width, Height)
  }

  /** Cells at the same positions as cells on the board are on the board. */
  lemma OnBoardAtSamePositions(before: seq<Cell>, after: seq<Cell>)
    requires AllOnBoard(before) && Positions(after) == Positions(before)
    ensures AllOnBoard(after)
  {
    forall c | c in after
      ensures OnBoard(c.position, Width, Height)
    {
      var i :| 0 <= i < |after| && after[i] == c;
      assert before[i] in before && Positions(after)[i] == Positions(before)[i];
    }
  }

  /** `[[0 for __ in range(width)] for _ in range(height)]`: every slot shows `0`. */
  function Blank(): (slots: seq<seq<char>>)
    ensures Table(slots)
    ensures forall x, y :: 0 <= x < Width && 0 <= y < Height ==> slots[y][x] == '0'
  {
    seq(Height, _ => seq(Width, _ => '0'))
  }

  /** The table after writing each cell's mark, in order, into `slots[y][x]`; a cell without a letter raises. */
  function Written(slots: seq<seq<char>>, cells: seq<Cell>, upper: bool): (r: Result<seq<seq<char>>, RenderError>)
    requires Table(slots) && AllOnBoard(cells)
    ensures r.Ok? ==> Table(r.value)
  {
    if cells == [] then Ok(slots)
    else
      var n := |cells| - 1;
      match Written(slots, cells[..n], upper)
      case Err(e) => Err(e)
      case Ok(t) =>
        match Mark(cells[n], upper)
        case Err(e) => Err(e)
        case Ok(ch) =>
          var p := cells[n].position;
          Ok(t[p.y := t[p.y][p.x := ch]])
  }

  /** The last of the cells at position `p`, if any. */
  function LastAt(cells: seq<Cell>, p: Position): (r: Option<Cell>)
    ensures r.Some? <==> p in Positions(cells)
    ensures r.Some? ==> r.value in cells && r.value.position == p
  {
    if cells == [] then None
    else
      var n := |cells| - 1;
      assert cells == cells[..n] + [cells[n]];
      assert Positions(cells) == Positions(cells[..n]) + [cells[n].position];
      if cells[n].position == p then Some(cells[n]) else LastAt(cells[..n], p)
  }

  /**
   * Writing succeeds exactly when every cell has a letter, and then each slot shows the mark
   * of the last cell at its position, or what it showed before when no cell is there.
   */
  lemma {:induction false} WrittenMeaning(slots: seq<seq<char>>, cells: seq<Cell>, upper: bool)
    requires Table(slots) && AllOnBoard(cells)
    ensures Written(slots, cells, upper).Ok? <==> forall c :: c in cells ==> Mark(c, upper).Ok?
    ensures Written(slots, cells, upper).Ok? ==>
              forall x, y :: 0 <= x < Width && 0 <= y < Height ==>
                Ok(Written(slots, cells, upper).value[y][x]) ==
                (if LastAt(cells, Position(x, y)).Some? then Mark(LastAt(cells, Position(x, y)).value, upper) else Ok(slots[y][x]))
  {
    if cells != [] {
      var n := |cells| - 1;
      var front := cells[..n];
      assert cells == front + [cells[n]];
      WrittenMeaning(slots, front, upper);
      if Written(slots, cells, upper).Ok? {
        var t := Written(slots, front, upper).value;
        var p := cells[n].position;
        forall x, y | 0 <= x < Width && 0 <= y < Height
          ensures Ok(Written(slots, cells, upper).value[y][x]) ==
                  (if LastAt(cells, Position(x, y)).Some? then Mark(LastAt(cells, Position(x, y)).value, upper) else Ok(slots[y][x]))
        {
          if p != Position(x, y) {
            assert Written(slots, cells, upper).value[y][x] == t[y][x];
          }
        }
      }
    }
  }

  /** `self.cells - self.given_cells`: the cells that are not original given cells, in order. */
  function Free(cells: seq<Cell>): (r: seq<Cell>)
    ensures forall c :: c in r <==> c in cells && !c.given
  {
    if cells == [] then []
    else
      var n := |cells| - 1;
      assert cells == cells[..n] + [cells[n]];
      Free(cells[..n]) + if cells[n].given then [] else [cells[n]]
  }

  /** The table `__str__` fills: first the letters of the cells outside the givens, then the upper-cased letters of the given cells. */
  function Slots(cells: seq<Cell>, givens: seq<Cell>): Result<seq<seq<char>>, RenderError>
    requires AllOnBoard(cells) && AllOnBoard(givens)
  {
    match Written(Blank(), Free(cells), false)
    case Err(e) => Err(e)
    case Ok(t) => Written(t, givens, true)
  }

  /**
   * The table exists exactly when every cell has a letter; then a slot shows the upper-cased
   * letter of the given cell there, else the letter of the last other cell there, else `0`.
   */
  lemma SlotsMeaning(cells: seq<Cell>, givens: seq<Cell>)
    requires AllOnBoard(cells) && AllOnBoard(givens)
    ensures Slots(cells, givens).Ok? <==>
              (forall c :: c in cells && !c.given ==> Letter(c.value).Ok?) && (forall c :: c in givens ==> Letter(c.value).Ok?)
    ensures Slots(cells, givens).Ok? ==>
              forall x, y :: 0 <= x < Width && 0 <= y < Height ==>
                Ok(Slots(cells, givens).value[y][x]) ==
                (if LastAt(givens, Position(x, y)).Some? then Mark(LastAt(givens, Position(x, y)).value, true)
                 else if LastAt(Free(cells), Position(x, y)).Some? then Mark(LastAt(Free(cells), Position(x, y)).value, false)
                 else Ok('0'))
  {
    WrittenMeaning(Blank(), Free(cells), false);
    if Written(Blank(), Free(cells), false).Ok? {
      WrittenMeaning(Written(Blank(), Free(cells), false).value, givens, true);
    }
  }

  /** `row.insert(stride * i + i, bar)` for `i` from 0 to `count - 1`; an index past the end appends. */
  function Inserted<T>(s: seq<T>, bar: T, count: nat, stride: nat): (r: seq<T>)
    ensures |r| == |s| + count
  {
    if count == 0 then s
    else
      var r := Inserted(s, bar, count - 1, stride);
      var k := Min(stride * (count - 1) + (count - 1), |r|);
      r[..k] + [bar] + r[k..]
  }

  /** `" ".join(items)` for items of one character each. */
  function Spaced(items: seq<char>): (line: string)
    ensures |line| == if items == [] then 0 else 2 * |items| - 1
    ensures forall i :: 0 <= i < |items| ==> line[2 * i] == items[i]
    ensures forall i :: 0 <= i < |items| - 1 ==> line[2 * i + 1] == ' '
  {
    if |items| <= 1 then items
    else Spaced(items[..|items| - 1]) + [' ', items[|items| - 1]]
  }

  /** The rule `__str__` puts between bands: `1 + width * 2 + (width // square_width) * 2` dashes. */
  function Rule(): string
  {
    seq(1 + Width * 2 + (Width / SquareWidth) * 2, _ => '-')
  }

  /** A row of slots laid out: a bar before every group of `square_width` slots and at the end, all separated by spaces. */
  function RowLine(row: seq<char>): string
  {
    Spaced(Inserted(row, '|', Width / SquareWidth + 1, SquareWidth))
  }

  /** The lines of `__str__`: each row laid out, and a rule before every band of `square_height` rows and at the end. */
  function Lines(slots: seq<seq<char>>): seq<string>
    requires Table(slots)
  {
    Inserted(RowLines(slots), Rule(), Height / SquareHeight + 1, SquareHeight)
  }

  /** `"\n".join(lines)`. */
  function Joined(lines: seq<string>): string
  {
    if |lines| <= 1 then (if lines == [] then "" else lines[0])
    else Joined(lines[..|lines| - 1]) + "\n" + lines[|lines| - 1]
  }

  /** The text `__str__` returns, or the `KeyError` it raises. */
  function Rendered(cells: seq<Cell>, givens: seq<Cell>): Result<string, RenderError>
    requires AllOnBoard(cells) && AllOnBoard(givens)
  {
    match Slots(cells, givens)
    case Err(e) => Err(e)
    case Ok(t) => Ok(Joined(Lines(t)))
  }

  /**
   * A row of six slots is laid out on 17 characters: bars at 0, 8 and 16, and slot `x` at
   * `2 * (x + x / 3 + 1)`, with spaces between.
   */
  lemma RowLineLayout(row: seq<char>)
    requires |row| == Width
    ensures |RowLine(row)| == 1 + Width * 2 + (Width / SquareWidth) * 2
    ensures RowLine(row)[0] == '|' && RowLine(row)[8] == '|' && RowLine(row)[16] == '|'
    ensures forall x :: 0 <= x < Width ==> RowLine(row)[2 * (x + x / SquareWidth + 1)] == row[x]
    ensures forall i :: 0 <= i < 8 ==> RowLine(row)[2 * i + 1] == ' '
  {
    var one := Inserted(row, '|', 1, 3);
    assert Inserted(row, '|', 0, 3) == row && Min(0, |row|) == 0;
    assert one == row[..0] + ['|'] + row[0..];
    assert one == ['|'] + row;
    var two := Inserted(row, '|', 2, 3);
    assert two == one[..4] + ['|'] + one[4..];
    assert two == ['|'] + row[..3] + ['|'] + row[3..];
    var items := Inserted(row, '|', 3, 3);
    assert items == two[..8] + ['|'] + two[8..];
    assert items == ['|'] + row[..3] + ['|'] + row[3..] + ['|'];
    assert items[0] == '|' && items[4] == '|' && items[8] == '|';
    forall x | 0 <= x < Width
      ensures items[x + x / SquareWidth + 1] == row[x]
    {
    }
  }

  /** Inserting a bar before every two of six entries and at the end. */
  lemma BandsInserted<T>(s: seq<T>, bar: T)
    requires |s| == Height
    ensures Inserted(s, bar, 4, 2) == [bar, s[0], s[1], bar, s[2], s[3], bar, s[4], s[5], bar]
  {
    var one := Inserted(s, bar, 1, 2);
    assert Inserted(s, bar, 0, 2) == s && Min(0, |s|) == 0;
    assert one == s[..0] + [bar] + s[0..];
    assert one == [bar, s[0], s[1], s[2], s[3], s[4], s[5]];
    var two := Inserted(s, bar, 2, 2);
    assert two == one[..3] + [bar] + one[3..];
    assert two == [bar, s[0], s[1], bar, s[2], s[3], s[4], s[5]];
    var three := Inserted(s, bar, 3, 2);
    assert three == two[..6] + [bar] + two[6..];
    assert three == [bar, s[0], s[1], bar, s[2], s[3], bar, s[4], s[5]];
    var four := Inserted(s, bar, 4, 2);
    assert four == three[..9] + [bar] + three[9..];
  }

  /** The rows of the table, each laid out. */
  function RowLines(slots: seq<seq<char>>): (rows: seq<string>)
    requires Table(slots)
    ensures |rows| == Height && forall y :: 0 <= y < Height ==> rows[y] == RowLine(slots[y])
  {
    seq(Height, y requires 0 <= y < Height => RowLine(slots[y]))
  }

  /**
   * The lines: a rule at lines 0, 3, 6 and 9, and row `y` laid out at line `y + y / 2 + 1`.
   */
  lemma LinesLayout(slots: seq<seq<char>>)
    requires Table(slots)
    ensures |Lines(slots)| == Height + Height / SquareHeight + 1
    ensures Lines(slots)[0] == Rule() && Lines(slots)[3] == Rule() && Lines(slots)[6] == Rule() && Lines(slots)[9] == Rule()
    ensures forall y :: 0 <= y < Height ==> Lines(slots)[y + y / SquareHeight + 1] == RowLine(slots[y])
  {
    var rows := RowLines(slots);
    BandsInserted(rows, Rule());
  }

  /** Every line of the layout is 17 characters long. */
  lemma LineWidths(slots: seq<seq<char>>)
    requires Table(slots)
    ensures forall i :: 0 <= i < |Lines(slots)| ==> |Lines(slots)[i]| == 1 + Width * 2 + (Width / SquareWidth) * 2
  {
    var rows := RowLines(slots);
    BandsInserted(rows, Rule());
    forall y | 0 <= y < Height
      ensures |rows[y]| == 1 + Width * 2 + (Width / SquareWidth) * 2
    {
      RowLineLayout(slots[y]);
    }
  }

  /** The loops of `__str__` that write each cell's letter, or its upper-cased letter, into the table. */
  method WriteMarks(slots: seq<seq<char>>, cells: seq<Cell>, upper: bool) returns (r: Result<seq<seq<char>>, RenderError>)
    requires Table(slots) && AllOnBoard(cells)
    ensures r == Written(slots, cells, upper)
  {
    var table := slots;
    for i := 0 to |cells|
      invariant Written(slots, cells[..i], upper) == Ok(table)
    {
      var cell := cells[i];
      assert cells[..i + 1][..i] == cells[..i];
      var letter := Letter(cell.value);
      if letter.Err? {
        assert cell in cells && Mark(cell, upper).Err?;
        WrittenMeaning(slots, cells, upper);
        assert Written(slots, cells, upper) == Err(KeyError) by {
          match Written(slots, cells, upper).error
          case KeyError =>
        }
        return Err(KeyError);
      }
      var mark := if upper then Upper(letter.value) else letter.value;
      table := table[cell.position.y := table[cell.position.y][cell.position.x := mark]];
    }
    assert cells[..|cells|] == cells;
    return Ok(table);
  }

  /** `row.insert(...)` for every bar, then `" ".join(...)`. */
  method LayOutRow(row: seq<char>) returns (line: string)
    ensures line == RowLine(row)
  {
    var items := row;
    for i := 0 to Width / SquareWidth + 1
      invariant items == Inserted(row, '|', i, SquareWidth)
    {
      var k := Min(SquareWidth * i + i, |items|);
      items := items[..k] + ['|'] + items[k..];
    }
    line := Spaced(items);
  }

  /** The layout loops of `__str__`: each row laid out, then a rule inserted before every band and at the end. */
  method LayOut(slots: seq<seq<char>>) returns (lines: seq<string>)
    requires Table(slots)
    ensures lines == Lines(slots)
  {
    var rows: seq<string> := [];
    for y := 0 to Height
      invariant |rows| == y && forall k :: 0 <= k < y ==> rows[k] == RowLine(slots[k])
    {
      var line := LayOutRow(slots[y]);
      rows := rows + [line];
    }
    assert rows == RowLines(slots);
    lines := rows;
    for i := 0 to Height / SquareHeight + 1
      invariant lines == Inserted(rows, Rule(), i, SquareHeight)
    {
      var k := Min(SquareHeight * i + i, |lines|);
      lines := lines[..k] + [Rule()] + lines[k..];
    }
  }

  // ---------------------------------------------------------------------------------------
  // The individual

  class Sudoku {
    var givenCells: seq<Cell>
    var cells: seq<Cell>
    var mutationProbability: real
    var matingProbability: real

    /** The state every constructed grid keeps: valid givens, all of them original objects, and 36 cells on the board. */
    ghost predicate Valid()
      reads this
    {
      && Layout(givenCells).Ok?
      && (forall c :: c in givenCells ==> c.given)
      && |cells| == Width * Height
      && AllOnBoard(cells)
    }

    /** The values `randomly_fill` hands out for these givens. */
    function OwedHere(): seq<int>
      reads this
    {
      Owed(Values(givenCells), Passes, ValueNumber)
    }

    /**
     * `__init__` once its assertions have passed: the givens and one new cell per uncovered
     * position, then `randomly_fill` with the given shuffle draws.
     */
    constructor(givenCells: seq<Cell>, layout: seq<Cell>, shuffleDraws: seq<nat>)
      requires Layout(givenCells) == Ok(layout)
      requires forall c :: c in givenCells ==> c.given
      requires ShuffleDrawsFit(shuffleDraws, |Owed(Values(givenCells), Passes, ValueNumber)|)
      ensures Valid() && CoversBoard(cells)
      ensures this.givenCells == givenCells
      ensures cells == Filled(layout, ShuffledFrom(Owed(Values(givenCells), Passes, ValueNumber), shuffleDraws, 1))
      ensures mutationProbability == DefaultMutationProbability && matingProbability == DefaultMatingProbability
    {
      this.givenCells := givenCells;
      cells := layout;
      mutationProbability := DefaultMutationProbability;
      matingProbability := DefaultMatingProbability;
      new;
      CellsCoverBoard(givenCells, Width, Height);
      CoverIsExact(cells);
      RandomlyFill(shuffleDraws);
      CoverIsExact(cells);
    }

    /** A grid whose fields are set directly: the fresh grid of `clone` and `mate` once its cells are replaced. */
    constructor Replacing(givenCells: seq<Cell>, cells: seq<Cell>, mutationProbability: real, matingProbability: real)
      ensures this.givenCells == givenCells && this.cells == cells
      ensures this.mutationProbability == mutationProbability && this.matingProbability == matingProbability
    {
      this.givenCells := givenCells;
      this.cells := cells;
      this.mutationProbability := mutationProbability;
      this.matingProbability := matingProbability;
    }

    /** `randomly_fill`: shuffle the owed values and hand them, in order, to the cells outside the givens. */
    method RandomlyFill(shuffleDraws: seq<nat>)
      modifies this
      requires Valid() && ShuffleDrawsFit(shuffleDraws, |OwedHere()|)
      ensures Valid()
      ensures cells == Filled(old(cells), ShuffledFrom(old(OwedHere()), shuffleDraws, 1))
      ensures Positions(cells) == Positions(old(cells))
      ensures givenCells == old(givenCells)
      ensures mutationProbability == old(mutationProbability) && matingProbability == old(matingProbability)
    {
      var values := OwedValues(Values(givenCells));
      values := Shuffle(values, shuffleDraws);
      cells := FillCells(cells, values);
      OnBoardAtSamePositions(old(cells), cells);
    }

    /** `mutate`: each cell outside the givens whose gate is below `mutation_probability` takes its drawn value. */
    method Mutate(draws: seq<MutationDraw>)
      modifies this
      requires Valid() && MutationDrawsFit(draws, |cells|)
      ensures Valid()
      ensures cells == Mutated(old(cells), draws, mutationProbability)
      ensures Positions(cells) == Positions(old(cells))
      ensures givenCells == old(givenCells)
      ensures mutationProbability == old(mutationProbability) && matingProbability == old(matingProbability)
    {
      cells := MutateCells(cells, draws, mutationProbability);
      OnBoardAtSamePositions(old(cells), cells);
    }

    /**
     * `_rate`: one pass over the cells fills the dicts of rows, columns and squares and the
     * value counts; the four sums are then squared and added.
     */
    method Rate() returns (score: real)
      ensures score == RateOf(cells)
    {
      var rows: Dict<int, set<Option<int>>> := Dict([], map[]);
      var columns: Dict<int, set<Option<int>>> := Dict([], map[]);
      var squares: Dict<(int, int), set<Option<int>>> := Dict([], map[]);
      var valuesCount: Dict<Option<int>, nat> := Dict([], map[]);
      for i := 0 to |cells|
        invariant rows == Grouped(RowPairs(cells)[..i])
        invariant columns == Grouped(ColumnPairs(cells)[..i])
        invariant squares == Grouped(SquarePairs(cells)[..i])
        invariant valuesCount == Counted(Values(cells)[..i])
      {
        var cell := cells[i];
        GroupedStep(RowPairs(cells), i);
        GroupedStep(ColumnPairs(cells), i);
        GroupedStep(SquarePairs(cells), i);
        CountedStep(Values(cells), i);
        rows := AddToSet(rows, cell.position.x, cell.value);
        columns := AddToSet(columns, cell.position.y, cell.value);
        squares := AddToSet(squares, SquareKey(cell.position), cell.value);
        valuesCount := Increment(valuesCount, cell.value);
      }
      assert RowPairs(cells)[..|cells|] == RowPairs(cells);
      assert ColumnPairs(cells)[..|cells|] == ColumnPairs(cells);
      assert SquarePairs(cells)[..|cells|] == SquarePairs(cells);
      assert Values(cells)[..|cells|] == Values(cells);
      score := Score(SumOfSizes(rows.keys, rows.entries), SumOfSizes(columns.keys, columns.entries),
                     SumOfSizes(squares.keys, squares.entries), SumOfCredits(valuesCount.keys, valuesCount.entries));
    }

    /** `__str__`: the letters of the cells outside the givens, then the upper-cased letters of the given cells, laid out. */
    method Render() returns (r: Result<string, RenderError>)
      requires Valid()
      ensures r == Rendered(cells, givenCells)
    {
      var free := WriteMarks(Blank(), Free(cells), false);
      if free.Err? {
        return Err(free.error);
      }
      var slots := WriteMarks(free.value, givenCells, true);
      if slots.Err? {
        return Err(slots.error);
      }
      var lines := LayOut(slots.value);
      r := Ok(Joined(lines));
    }

    /** `clone`: a new grid on the same givens whose cells are copies of these, with the same probabilities. */
    method Clone() returns (child: Sudoku)
      requires Valid()
      ensures fresh(child) && child.Valid()
      ensures child.givenCells == givenCells && child.cells == Copies(cells)
      ensures Positions(child.cells) == Positions(cells)
      ensures child.mutationProbability == mutationProbability && child.matingProbability == matingProbability
    {
      child := new Sudoku.Replacing(givenCells, Copies(cells), mutationProbability, matingProbability);
    }

    /** `mate`: a new grid on these givens whose cells are the crossover of the two parents' cells. */
    method Mate(other: Sudoku, d: MateDraws) returns (child: Sudoku)
      requires Valid() && other.Valid() && MateDrawsFit(d, |cells|)
      ensures fresh(child) && child.Valid()
      ensures child.givenCells == givenCells
      ensures child.cells == MatedCells(cells, other.cells, d.pairing, d.crossoverType, d.split)
      ensures child.mutationProbability == if d.mutationFromSelf then mutationProbability else other.mutationProbability
      ensures child.matingProbability == if d.matingFromSelf then matingProbability else other.matingProbability
    {
      var mutation := if d.mutationFromSelf then mutationProbability else other.mutationProbability;
      var mating := if d.matingFromSelf then matingProbability else other.matingProbability;
      child := new Sudoku.Replacing(givenCells, MatedCells(cells, other.cells, d.pairing, d.crossoverType, d.split), mutation, mating);
    }
  }

  /** `Sudoku(given_cells)`: the constructor's assertions, then the grid. */
  method NewSudoku(givenCells: seq<Cell>, shuffleDraws: seq<nat>) returns (r: Result<Sudoku, SetupError>)
    requires forall c :: c in givenCells ==> c.given
    requires ShuffleDrawsFit(shuffleDraws, |Owed(Values(givenCells), Passes, ValueNumber)|)
    ensures r.Ok? <==> Layout(givenCells).Ok?
    ensures r.Ok? ==> fresh(r.value) && r.value.Valid() && r.value.givenCells == givenCells && CoversBoard(r.value.cells)
    ensures r.Ok? ==> r.value.cells == Filled(Layout(givenCells).value, ShuffledFrom(Owed(Values(givenCells), Passes, ValueNumber), shuffleDraws, 1))
  {
    var layout := BuildCells(givenCells);
    if layout.Err? {
      return Err(layout.error);
    }
    var s := new Sudoku(givenCells, layout.value, shuffleDraws);
    return Ok(s);
  }

  // ---------------------------------------------------------------------------------------
  // Cells that cover the board

  /** 36 cells that cover the board lie on it and sit at 36 different positions. */
  lemma CoverIsExact(cells: seq<Cell>)
    requires |cells| == Width * Height && CoversBoard(cells)
    ensures Distinct(Positions(cells))
    ensures forall i :: 0 <= i < |cells| ==> OnBoard(cells[i].position, Width, Height)
  {
    var ps := Positions(cells);
    var board := Elements(Board(Width, Height));
    BoardListsEachPositionOnce(Width, Height);
    ElementsCard(Board(Width, Height));
    ElementsCard(ps);
    SubsetCard(board, Elements(ps));
    forall i | 0 <= i < |cells|
      ensures OnBoard(cells[i].position, Width, Height)
    {
      assert ps[i] in Elements(ps);
    }
  }

  // ---------------------------------------------------------------------------------------
  // mate pairs the parents' cells by iteration order

  /** A grid listing the board in the constructor's order, every cell holding `v`. */
  function UniformGrid(v: int): (cells: seq<Cell>)
    ensures |cells| == Width * Height
    ensures forall k :: 0 <= k < |cells| ==> cells[k] == Cell(Position(k / Height, k % Height), Some(v), false)
  {
    seq(Width * Height, k requires 0 <= k < Width * Height => Cell(Position(k / Height, k % Height), Some(v), false))
  }

  /** A `zip` pairing that meets cell 6 of one grid with cell 0 of the other, and cell 0 with cell 6, and keeps every other index. */
  function CrossedPairing(): (pairing: seq<nat>)
    ensures |pairing| == Width * Height
    ensures forall k :: 0 <= k < |pairing| ==> pairing[k] == if k == 0 then 6 else if k == 6 then 0 else k
  {
    seq(Width * Height, k requires 0 <= k < Width * Height => if k == 0 then 6 else if k == 6 then 0 else k)
  }

  /**
   * Two grids that each cover the board, and an admissible draw of `mate` (rows split at 1,
   * the sets iterated in the crossed order), give a child with two cells at `(0, 0)` and none
   * at `(1, 0)`.
   */
  lemma MateByIterationOrderLosesPosition()
    ensures CoversBoard(UniformGrid(1)) && CoversBoard(UniformGrid(2))
    ensures MateDrawsFit(MateDraws(true, true, 0, 1, CrossedPairing()), Width * Height)
    ensures var child := MatedCells(UniformGrid(1), UniformGrid(2), CrossedPairing(), 0, 1);
            child[0].position == Position(0, 0) && child[6].position == Position(0, 0) && !CoversBoard(child)
  {
    forall v, p | OnBoard(p, Width, Height)
      ensures p in Positions(UniformGrid(v))
    {
      assert Positions(UniformGrid(v))[p.x * Height + p.y] == p;
    }
    var pairing := CrossedPairing();
    forall i, j | 0 <= i < j < |pairing|
      ensures pairing[i] != pairing[j]
    {
    }
    var child := MatedCells(UniformGrid(1), UniformGrid(2), pairing, 0, 1);
    assert Position(1, 0) !in Positions(child);
  }

  /** The index of the first cell at position `p`. */
  function IndexOf(cells: seq<Cell>, p: Position): (k: nat)
    requires p in Positions(cells)
    ensures k < |cells| && cells[k].position == p
    ensures forall j :: 0 <= j < k ==> cells[j].position != p
  {
    if cells[0].position == p then 0
    else
      assert p in Positions(cells[1..]) by {
        var i :| 0 <= i < |cells| && Positions(cells)[i] == p;
        assert Positions(cells[1..])[i - 1] == p;
      }
      1 + IndexOf(cells[1..], p)
  }

  /** The pairing `mate` evidently intends: each cell meets the other parent's cell at the same position. */
  function PairByPosition(mine: seq<Cell>, theirs: seq<Cell>): (pairing: seq<nat>)
    requires forall i :: 0 <= i < |mine| ==> mine[i].position in Positions(theirs)
    ensures |pairing| == |mine|
    ensures forall i :: 0 <= i < |mine| ==> pairing[i] < |theirs| && theirs[pairing[i]].position == mine[i].position
  {
    seq(|mine|, i requires 0 <= i < |mine| => IndexOf(theirs, mine[i].position))
  }

  /**
   * Paired by position, two grids covering the board give a pairing `zip` could produce and
   * a child at exactly the first parent's positions, which covers the board and so scores
   * at least `floor`.
   */
  lemma MateByPositionKeepsBoard(mine: seq<Cell>, theirs: seq<Cell>, axis: nat, split: int)
    requires |mine| == Width * Height && |theirs| == Width * Height
    requires CoversBoard(mine) && CoversBoard(theirs)
    ensures forall i :: 0 <= i < |mine| ==> mine[i].position in Positions(theirs)
    ensures IsPairing(PairByPosition(mine, theirs), |mine|)
    ensures Positions(MatedCells(mine, theirs, PairByPosition(mine, theirs), axis, split)) == Positions(mine)
    ensures CoversBoard(MatedCells(mine, theirs, PairByPosition(mine, theirs), axis, split))
    ensures RateOf(MatedCells(mine, theirs, PairByPosition(mine, theirs), axis, split)) >= Floor() as real
  {
    CoverIsExact(mine);
    var pairing := PairByPosition(mine, theirs);
    forall i, j | 0 <= i < j < |pairing|
      ensures pairing[i] != pairing[j]
    {
      assert Positions(mine)[i] != Positions(mine)[j];
    }
    var child := MatedCells(mine, theirs, pairing, axis, split);
    assert Positions(child) == Positions(mine);
    RateAtLeastFloor(child);
  }

  // ---------------------------------------------------------------------------------------
  // clone and mate copy the given cells too

  /**
   * A grid holding one given cell with value 3: `mutate` leaves it alone, but once the grid
   * is cloned, a gate of 0 and a drawn 5 overwrite the copy of that given cell.
   */
  lemma CloneExposesGivenCells()
    ensures var grid := [Cell(Position(0, 0), Some(3), true)];
            var draws := [MutationDraw(0.0, 5)];
            && MutationDrawsFit(draws, |grid|)
            && Mutated(grid, draws, DefaultMutationProbability) == grid
            && Mutated(Copies(grid), draws, DefaultMutationProbability)[0].value == Some(5)
  {
  }

  /**
   * The same happens in `mate`: a one-cell grid whose given cell is kept below the split
   * passes a copy of it to the child, and the mutation that spares the parent's given cell
   * overwrites the child's.
   */
  lemma MateExposesGivenCells()
    ensures var mine := [Cell(Position(0, 0), Some(3), true)];
            var theirs := [Cell(Position(0, 0), Some(4), true)];
            var draws := [MutationDraw(0.0, 5)];
            && IsPairing([0], |mine|) && MutationDrawsFit(draws, |mine|)
            && Mutated(mine, draws, DefaultMutationProbability) == mine
            && Mutated(MatedCells(mine, theirs, [0], 0, 1), draws, DefaultMutationProbability)[0].value == Some(5)
  {
  }

  /** The copy `clone` evidently intends: a cell outside the givens is copied, a given cell is kept as the same object. */
  function Duplicate(c: Cell): (d: Cell)
    ensures d.position == c.position && d.value == c.value && d.given == c.given
  {
    if c.given then c else Copy(c)
  }

  /** The cells of the intended clone. */
  function Duplicates(cells: seq<Cell>): (r: seq<Cell>)
    ensures |r| == |cells| && forall i :: 0 <= i < |cells| ==> r[i] == Duplicate(cells[i])
  {
    seq(|cells|, i requires 0 <= i < |cells| => Duplicate(cells[i]))
  }

  /** The parent cell `mate` takes for pair `i`: this parent's below the split, else the partner's. */
  function Parent(mine: seq<Cell>, theirs: seq<Cell>, pairing: seq<nat>, axis: nat, split: int, i: nat): Cell
    requires IsPairing(pairing, |mine|) && |theirs| == |mine| && i < |mine|
  {
    if Coordinate(mine[i].position, axis) < split then mine[i] else theirs[pairing[i]]
  }

  /** The cells of the intended `mate`: each child cell is the Duplicate of the parent cell taken for its pair. */
  function MatedDuplicates(mine: seq<Cell>, theirs: seq<Cell>, pairing: seq<nat>, axis: nat, split: int): (r: seq<Cell>)
    requires IsPairing(pairing, |mine|) && |theirs| == |mine|
    ensures |r| == |mine|
  {
    seq(|mine|, i requires 0 <= i < |mine| => Duplicate(Parent(mine, theirs, pairing, axis, split, i)))
  }

  /**
   * The intended child holds the same positions and values as the child `mate` builds, and
   * no mutation of it ever changes a cell taken from a given cell of either parent.
   */
  lemma MatedDuplicatesProtectGivenCells(mine: seq<Cell>, theirs: seq<Cell>, pairing: seq<nat>, axis: nat, split: int,
                                         draws: seq<MutationDraw>, probability: real)
    requires IsPairing(pairing, |mine|) && |theirs| == |mine| && |draws| == |mine|
    ensures var child := MatedDuplicates(mine, theirs, pairing, axis, split);
            var written := MatedCells(mine, theirs, pairing, axis, split);
            && Positions(child) == Positions(written) && Values(child) == Values(written)
            && forall i :: 0 <= i < |mine| && Parent(mine, theirs, pairing, axis, split, i).given ==>
                 Mutated(child, draws, probability)[i] == Parent(mine, theirs, pairing, axis, split, i)
  {
  }

  /** The intended clone keeps every position and value, and no mutation of it ever changes a given cell. */
  lemma DuplicatesProtectGivenCells(cells: seq<Cell>, draws: seq<MutationDraw>, probability: real)
    requires |draws| == |cells|
    ensures Positions(Duplicates(cells)) == Positions(cells) && Values(Duplicates(cells)) == Values(cells)
    ensures forall i :: 0 <= i < |cells| && cells[i].given ==> Mutated(Duplicates(cells), draws, probability)[i] == cells[i]
  {
  }
}
