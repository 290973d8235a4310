/**
 * The older 9x9 `Grid` individual of the root `sudoku.py`.
 *
 * It shares `Position` and `Cell` with the 6x6 grid. Its constructor completes the given
 * cells the same way but asserts only the final count; `randomly_fill` draws every free
 * value on its own; `rate` adds the distinct values of the rows, of the columns and of the
 * nine classes keyed `(x % 3, y % 3)`, without squaring; `mutate` reassigns every cell whose
 * gate falls below `mutation_probability`, given cells included, and the grid never sets that
 * probability, so it keeps the inherited 1.
 */
module LegacyGrid {
  import opened Base
  import opened Cells
  import opened Tally

  /** `dimensions`: the board is 9 by 9. */
  const Dimension: nat := 9
  /** `randint(1, 9)`: the largest value a cell takes. */
  const ValueNumber: nat := 9
  /** The class attribute `Individual.mutation_probability`, which `Grid` inherits. */
  const InheritedMutationProbability: real := 1.0

  /** A failed `assert` in the constructor. */
  datatype SetupError = AssertionError

  /**
   * The cells `__init__` builds: the givens followed by one new `None`-valued cell per
   * uncovered position. Only the count of 81 is asserted, and that alone fails exactly when a
   * given cell lies off the board or two givens share a position.
   */
  function Layout(given: seq<Cell>): (r: Result<seq<Cell>, SetupError>)
    ensures r.Ok? <==> (forall c :: c in given ==> OnBoard(c.position, Dimension, Dimension)) && Distinct(Positions(given))
    ensures r.Ok? ==> r.value == given + MissingCells(given, Dimension, Dimension) && |r.value| == Dimension * Dimension
  {
    CellCount(given, Dimension, Dimension);
    if |given| + |MissingCells(given, Dimension, Dimension)| == Dimension * Dimension then
      Ok(given + MissingCells(given, Dimension, Dimension))
    else
      Err(AssertionError)
  }

  /** The loops of `__init__` that add the missing cells, and its count assertion. */
  method BuildCells(given: seq<Cell>) returns (r: Result<seq<Cell>, SetupError>)
    ensures r == Layout(given)
  {
    var cells := AddMissingCells(given, given, Dimension, Dimension);
    if |cells| != Dimension * Dimension {
      return Err(AssertionError);
    }
    return Ok(cells);
  }

  /** The `randint(1, 9)` results drawn for `n` cells. */
  predicate FillDrawsFit(draws: seq<int>, n: nat)
  {
    |draws| == n && forall i :: 0 <= i < n ==> 1 <= draws[i] <= ValueNumber
  }

  /** The cells after `randomly_fill`: every cell that is not an original given cell takes its drawn value. */
  function Refilled(cells: seq<Cell>, draws: seq<int>): (r: seq<Cell>)
    requires |draws| == |cells|
    ensures |r| == |cells|
  {
    seq(|cells|, i requires 0 <= i < |cells| => if cells[i].given then cells[i] else cells[i].(value := Some(draws[i])))
  }

  /** Filling keeps every position and every given cell, and puts a value in `1..9` in every other cell. */
  lemma RefilledMeaning(cells: seq<Cell>, draws: seq<int>)
    requires FillDrawsFit(draws, |cells|)
    ensures var r := Refilled(cells, draws);
            forall i :: 0 <= i < |cells| ==>
              && r[i].position == cells[i].position && r[i].given == cells[i].given
              && (cells[i].given ==> r[i] == cells[i])
              && (!cells[i].given ==> r[i].value.Some? && 1 <= r[i].value.value <= ValueNumber)
  {
  }

  /** The loop of `randomly_fill`. */
  method RefillCells(cells: seq<Cell>, draws: seq<int>) returns (filled: seq<Cell>)
    requires |draws| == |cells|
    ensures filled == Refilled(cells, draws)
    ensures Positions(filled) == Positions(cells)
  {
    filled := cells;
    for i := 0 to |filled|
      invariant |filled| == |cells|
      invariant forall k :: 0 <= k < i ==> filled[k] == Refilled(cells, draws)[k]
      invariant forall k :: i <= k < |filled| ==> filled[k] == cells[k]
    {
      if !filled[i].given {
        filled := filled[i := filled[i].(value := Some(draws[i]))];
      }
    }
    assert filled == Refilled(cells, draws);
  }

  /** The `random()` gates lie in `[0, 1)` and the `randint(1, 9)` values in `1..9`. */
  predicate MutationDrawsFit(draws: seq<MutationDraw>, n: nat)
  {
    |draws| == n && forall i :: 0 <= i < n ==> 0.0 <= draws[i].gate < 1.0 && 1 <= draws[i].value <= ValueNumber
  }

  /** The cells after `mutate`: every cell whose gate is below the probability takes its drawn value. */
  function Reassigned(cells: seq<Cell>, draws: seq<MutationDraw>, probability: real): (r: seq<Cell>)
    requires |draws| == |cells|
    ensures |r| == |cells|
  {
    seq(|cells|, i requires 0 <= i < |cells| =>
      if draws[i].gate < probability then cells[i].(value := Some(draws[i].value)) else cells[i])
  }

  /** The loop of `mutate`. */
  method ReassignCells(cells: seq<Cell>, draws: seq<MutationDraw>, probability: real) returns (mutated: seq<Cell>)
    requires |draws| == |cells|
    ensures mutated == Reassigned(cells, draws, probability)
    ensures Positions(mutated) == Positions(cells)
  {
    mutated := cells;
    for i := 0 to |mutated|
      invariant |mutated| == |cells|
      invariant forall k :: 0 <= k < i ==> mutated[k] == Reassigned(cells, draws, probability)[k]
      invariant forall k :: i <= k < |mutated| ==> mutated[k] == cells[k]
    {
      if draws[i].gate < probability {
        mutated := mutated[i := mutated[i].(value := Some(draws[i].value))];
      }
    }
    assert mutated == Reassigned(cells, draws, probability);
  }

  /**
   * With the inherited probability of 1 every gate passes, so every cell takes its drawn
   * value in `1..9`, the original given cells included.
   */
  lemma InheritedProbabilityReassignsEveryCell(cells: seq<Cell>, draws: seq<MutationDraw>)
    requires MutationDrawsFit(draws, |cells|)
    ensures var r := Reassigned(cells, draws, InheritedMutationProbability);
            forall i :: 0 <= i < |cells| ==>
              r[i].position == cells[i].position && r[i].given == cells[i].given && r[i].value == Some(draws[i].value)
  {
  }

  /** `(x % 3, y % 3)`. Python's `%` by a positive divisor is never negative, like Dafny's. */
  function ModuloKey(p: Position): (int, int)
  {
    (p.x % 3, p.y % 3)
  }

  /** The `(square_key, value)` pair of every cell, in order. */
  function ModuloPairs(cells: seq<Cell>): (pairs: seq<((int, int), Option<int>)>)
    ensures |pairs| == |cells| && forall i :: 0 <= i < |cells| ==> pairs[i] == (ModuloKey(cells[i].position), cells[i].value)
  {
    seq(|cells|, i requires 0 <= i < |cells| => (ModuloKey(cells[i].position), cells[i].value))
  }

  /** The score `rate` returns: the distinct values of the rows, the columns and the modulo classes, added up. */
  function RateOf(cells: seq<Cell>): nat
  {
    Distinctness(RowPairs(cells)) + Distinctness(ColumnPairs(cells)) + Distinctness(ModuloPairs(cells))
  }

  /**
   * The score is at most three times the number of cells (243 for 81 cells), and is exactly
   * that when no row, column or modulo class repeats a value.
   */
  lemma RateAtMost(cells: seq<Cell>)
    ensures RateOf(cells) <= 3 * |cells|
    ensures RateOf(cells) == 3 * |cells| <==>
            NoRepeats(RowPairs(cells)) && NoRepeats(ColumnPairs(cells)) && NoRepeats(ModuloPairs(cells))
  {
    DistinctnessBound(RowPairs(cells));
    DistinctnessBound(ColumnPairs(cells));
    DistinctnessBound(ModuloPairs(cells));
  }

  /** Every board position is the position of one of the cells. */
  ghost predicate CoversBoard(cells: seq<Cell>)
  {
    forall p :: OnBoard(p, Dimension, Dimension) ==> p in Positions(cells)
  }

  /** The nine row keys, which are also the nine column keys. */
  const LineKeys: set<int> := {0, 1, 2, 3, 4, 5, 6, 7, 8}
  /** The nine modulo keys. */
  const ClassKeys: set<(int, int)> := {(0, 0), (0, 1), (0, 2), (1, 0), (1, 1), (1, 2), (2, 0), (2, 1), (2, 2)}

  /** There are nine keys of each kind. */
  lemma KeyCounts()
    ensures |LineKeys| == Dimension && |ClassKeys| == 9
  {
  }

  /** Cells covering the board hold every row key `0..8`. */
  lemma RowsPresent(cells: seq<Cell>)
    requires CoversBoard(cells)
    ensures Distinctness(RowPairs(cells)) >= Dimension
  {
    var lines := LineKeys;
    KeyCounts();
    forall k | k in lines
      ensures k in Keys(RowPairs(cells))
    {
      assert Position(k, 0) in Positions(cells);
      var i :| 0 <= i < |cells| && Positions(cells)[i] == Position(k, 0);
      assert Keys(RowPairs(cells))[i] == k;
    }
    DistinctnessAtLeastKeys(RowPairs(cells), lines);
  }

  /** Cells covering the board hold every column key `0..8`. */
  lemma ColumnsPresent(cells: seq<Cell>)
    requires CoversBoard(cells)
    ensures Distinctness(ColumnPairs(cells)) >= Dimension
  {
    var lines := LineKeys;
    KeyCounts();
    forall k | k in lines
      ensures k in Keys(ColumnPairs(cells))
    {
      assert Position(0, k) in Positions(cells);
      var j :| 0 <= j < |cells| && Positions(cells)[j] == Position(0, k);
      assert Keys(ColumnPairs(cells))[j] == k;
    }
    DistinctnessAtLeastKeys(ColumnPairs(cells), lines);
  }

  /** Cells covering the board hold all nine modulo keys. */
  lemma ClassesPresent(cells: seq<Cell>)
    requires CoversBoard(cells)
    ensures Distinctness(ModuloPairs(cells)) >= 9
  {
    var classes := ClassKeys;
    KeyCounts();
    forall k | k in classes
      ensures k in Keys(ModuloPairs(cells))
    {
      var p := Position(k.0, k.1);
      assert ModuloKey(p) == k;
      assert p in Positions(cells);
      var i :| 0 <= i < |cells| && Positions(cells)[i] == p;
      assert Keys(ModuloPairs(cells))[i] == k;
    }
    DistinctnessAtLeastKeys(ModuloPairs(cells), classes);
  }

  /** Cells covering the board score at least 27. */
  lemma RateAtLeast(cells: seq<Cell>)
    requires CoversBoard(cells)
    ensures RateOf(cells) >= 27
  {
    RowsPresent(cells);
    ColumnsPresent(cells);
    ClassesPresent(cells);
  }

  class Grid {
    var givenCells: seq<Cell>
    var cells: seq<Cell>
    var mutationProbability: real

    /** The state every constructed grid keeps: valid givens, all of them original objects, and 81 cells. */
    ghost predicate Valid()
      reads this
    {
      && Layout(givenCells).Ok?
      && (forall c :: c in givenCells ==> c.given)
      && |cells| == Dimension * Dimension
    }

    /** `__init__` once its assertion has passed: the givens and one new cell per uncovered position, then `randomly_fill`. */
    constructor(givenCells: seq<Cell>, layout: seq<Cell>, fillDraws: seq<int>)
      requires Layout(givenCells) == Ok(layout)
      requires forall c :: c in givenCells ==> c.given
      requires FillDrawsFit(fillDraws, |layout|)
      ensures Valid() && CoversBoard(cells)
      ensures this.givenCells == givenCells && cells == Refilled(layout, fillDraws)
      ensures mutationProbability == InheritedMutationProbability
    {
      this.givenCells := givenCells;
      cells := layout;
      mutationProbability := InheritedMutationProbability;
      new;
      CellsCoverBoard(givenCells, Dimension, Dimension);
      RandomlyFill(fillDraws);
    }

    /** A grid whose cells are set directly: the fresh grid of `clone` once its cells are replaced. */
    constructor Replacing(givenCells: seq<Cell>, cells: seq<Cell>)
      ensures this.givenCells == givenCells && this.cells == cells
      ensures mutationProbability == InheritedMutationProbability
    {
      this.givenCells := givenCells;
      this.cells := cells;
      mutationProbability := InheritedMutationProbability;
    }

    /** `randomly_fill`: every cell that is not an original given cell takes its drawn value. */
    method RandomlyFill(draws: seq<int>)
      modifies this
      requires Valid() && FillDrawsFit(draws, |cells|)
      ensures Valid()
      ensures cells == Refilled(old(cells), draws)
      ensures Positions(cells) == Positions(old(cells))
      ensures givenCells == old(givenCells) && mutationProbability == old(mutationProbability)
    {
      cells := RefillCells(cells, draws);
    }

    /** `rate`: one pass over the cells fills the dicts of rows, columns and modulo classes; the three sums are added. */
    method Rate() returns (score: nat)
      ensures score == RateOf(cells)
    {
      var rows: Dict<int, set<Option<int>>> := Dict([], map[]);
      var columns: Dict<int, set<Option<int>>> := Dict([], map[]);
      var squares: Dict<(int, int), set<Option<int>>> := Dict([], map[]);
      for i := 0 to |cells|
        invariant rows == Grouped(RowPairs(cells)[..i])
        invariant columns == Grouped(ColumnPairs(cells)[..i])
        invariant squares == Grouped(ModuloPairs(cells)[..i])
      {
        var cell := cells[i];
        GroupedStep(RowPairs(cells), i);
        GroupedStep(ColumnPairs(cells), i);
        GroupedStep(ModuloPairs(cells), i);
        rows := AddToSet(rows, cell.position.x, cell.value);
        columns := AddToSet(columns, cell.position.y, cell.value);
        squares := AddToSet(squares, ModuloKey(cell.position), cell.value);
      }
      assert RowPairs(cells)[..|cells|] == RowPairs(cells);
      assert ColumnPairs(cells)[..|cells|] == ColumnPairs(cells);
      assert ModuloPairs(cells)[..|cells|] == ModuloPairs(cells);
      score := SumOfSizes(rows.keys, rows.entries) + SumOfSizes(columns.keys, columns.entries) + SumOfSizes(squares.keys, squares.entries);
    }

    /** `mutate`: every cell, given cells included, whose gate is below `mutation_probability` takes its drawn value. */
    method Mutate(draws: seq<MutationDraw>)
      modifies this
      requires Valid() && MutationDrawsFit(draws, |cells|)
      ensures Valid()
      ensures cells == Reassigned(old(cells), draws, mutationProbability)
      ensures Positions(cells) == Positions(old(cells))
      ensures givenCells == old(givenCells) && mutationProbability == old(mutationProbability)
    {
      cells := ReassignCells(cells, draws, mutationProbability);
    }

    /** `clone`: a new grid on the same givens whose cells are copies of these; its probability is the inherited one. */
    method Clone() returns (child: Grid)
      requires Valid()
      ensures fresh(child) && child.Valid()
      ensures child.givenCells == givenCells && child.cells == Copies(cells)
      ensures Positions(child.cells) == Positions(cells)
      ensures child.mutationProbability == InheritedMutationProbability
    {
      child := new Grid.Replacing(givenCells, Copies(cells));
    }

    /** `mate`: a clone of this grid; the other parent plays no part. */
    method Mate(other: Grid) returns (child: Grid)
      requires Valid()
      ensures fresh(child) && child.Valid()
      ensures child.givenCells == givenCells && child.cells == Copies(cells)
      ensures child.mutationProbability == InheritedMutationProbability
    {
      child := Clone();
    }
  }

  /** `Grid(given_cells)`: the constructor's assertion, then the grid. */
  method NewGrid(givenCells: seq<Cell>, fillDraws: seq<int>) returns (r: Result<Grid, SetupError>)
    requires forall c :: c in givenCells ==> c.given
    requires FillDrawsFit(fillDraws, Dimension * Dimension)
    ensures r.Ok? <==> Layout(givenCells).Ok?
    ensures r.Ok? ==> fresh(r.value) && r.value.Valid() && r.value.givenCells == givenCells && CoversBoard(r.value.cells)
    ensures r.Ok? ==> r.value.cells == Refilled(Layout(givenCells).value, fillDraws)
  {
    var layout := BuildCells(givenCells);
    if layout.Err? {
      return Err(layout.error);
    }
    var g := new Grid(givenCells, layout.value, fillDraws);
    return Ok(g);
  }
}
