/**
 * The `Position` and `Cell` objects shared by both Sudoku individuals, and the way both
 * constructors complete a set of given cells into a full board.
 *
 * A `Cell` object has no `__eq__`/`__hash__`, so a set of cells is a set of object
 * identities. The model keeps a grid's cells as a sequence (one entry per object, in the
 * set's iteration order) and records the only identity fact the programs ever test: whether
 * the object is one of the original given cells (`cell in given_cells`). `copy` makes a new
 * object, which is never one of them.
 */
module Cells {
  import opened Base

  /** `Position.coordinates`. */
  datatype Position = Position(x: int, y: int)

  /** A `Cell` object: its position, its value (`None` until filled) and whether it is an original given cell. */
  datatype Cell = Cell(position: Position, value: Option<int>, given: bool)

  /** The `random()` gate and the `randint` value a `mutate` draws for one cell. */
  datatype MutationDraw = MutationDraw(gate: real, value: int)

  /** `Cell.copy`: a new object with the same position and value, which is not one of the given objects. */
  function Copy(c: Cell): (d: Cell)
    ensures d.position == c.position && d.value == c.value && !d.given
  {
    Cell(c.position, c.value, false)
  }

  /** `Cell.build`: one new given cell per `(x, y, value)` triple. */
  function Build(data: seq<(int, int, int)>): (cells: seq<Cell>)
    ensures |cells| == |data|
    ensures forall i :: 0 <= i < |data| ==>
              cells[i].given && cells[i].position == Position(data[i].0, data[i].1) && cells[i].value == Some(data[i].2)
  {
    seq(|data|, i requires 0 <= i < |data| => Cell(Position(data[i].0, data[i].1), Some(data[i].2), true))
  }

  /** The positions of the cells, in order. */
  function Positions(cells: seq<Cell>): (ps: seq<Position>)
    ensures |ps| == |cells| && forall i :: 0 <= i < |cells| ==> ps[i] == cells[i].position
  {
    seq(|cells|, i requires 0 <= i < |cells| => cells[i].position)
  }

  /** The values of the cells, in order. */
  function Values(cells: seq<Cell>): (vs: seq<Option<int>>)
    ensures |vs| == |cells| && forall i :: 0 <= i < |cells| ==> vs[i] == cells[i].value
  {
    seq(|cells|, i requires 0 <= i < |cells| => cells[i].value)
  }

  /** `cell.copy()` for every cell, in order. */
  function Copies(cells: seq<Cell>): (r: seq<Cell>)
    ensures |r| == |cells|
    ensures forall i :: 0 <= i < |cells| ==> r[i] == Copy(cells[i])
  {
    seq(|cells|, i requires 0 <= i < |cells| => Copy(cells[i]))
  }

  /** The `(row_key, value)` pair of every cell, in order: the row key is `coordinates[0]`. */
  function RowPairs(cells: seq<Cell>): (pairs: seq<(int, Option<int>)>)
    ensures |pairs| == |cells| && forall i :: 0 <= i < |cells| ==> pairs[i] == (cells[i].position.x, cells[i].value)
  {
    seq(|cells|, i requires 0 <= i < |cells| => (cells[i].position.x, cells[i].value))
  }

  /** The `(column_key, value)` pair of every cell, in order: the column key is `coordinates[1]`. */
  function ColumnPairs(cells: seq<Cell>): (pairs: seq<(int, Option<int>)>)
    ensures |pairs| == |cells| && forall i :: 0 <= i < |cells| ==> pairs[i] == (cells[i].position.y, cells[i].value)
  {
    seq(|cells|, i requires 0 <= i < |cells| => (cells[i].position.y, cells[i].value))
  }

  /** The coordinates `(i, j)` for one `i` and every `j in range(h)`, in order. */
  function Column(i: int, h: nat): (c: seq<Position>)
    ensures |c| == h && forall j :: 0 <= j < h ==> c[j] == Position(i, j)
  {
    seq(h, j requires 0 <= j < h => Position(i, j))
  }

  /** The coordinates `for i in range(w): for j in range(h): (i, j)`, in that order. */
  function Board(w: nat, h: nat): (b: seq<Position>)
  {
    if w == 0 then [] else Board(w - 1, h) + Column(w - 1, h)
  }

  /** The board lists `w * h` coordinates. */
  lemma {:induction false} BoardSize(w: nat, h: nat)
    ensures |Board(w, h)| == w * h
  {
    if w > 0 {
      BoardSize(w - 1, h);
    }
  }

  /** The position lies on a `w` by `h` board. */
  predicate OnBoard(p: Position, w: nat, h: nat)
  {
    0 <= p.x < w && 0 <= p.y < h
  }

  /** The board lists every on-board position exactly once. */
  lemma {:induction false} BoardListsEachPositionOnce(w: nat, h: nat)
    ensures forall p :: p in Board(w, h) <==> OnBoard(p, w, h)
    ensures Distinct(Board(w, h))
  {
    if w > 0 {
      var front := Board(w - 1, h);
      var col := Column(w - 1, h);
      BoardListsEachPositionOnce(w - 1, h);
      forall p | OnBoard(p, w, h) && p.x == w - 1
        ensures p in col
      {
        assert col[p.y] == p;
      }
      forall i, j | 0 <= i < j < |front + col|
        ensures (front + col)[i] != (front + col)[j]
      {
        if i < |front| && j >= |front| {
          assert front[i] in front;
        }
      }
    }
  }

  /** The positions of `ps` that are not in `covered`, in order. */
  function Uncovered(ps: seq<Position>, covered: set<Position>): (u: seq<Position>)
  {
    if ps == [] then []
    else if ps[|ps| - 1] in covered then Uncovered(ps[..|ps| - 1], covered)
    else Uncovered(ps[..|ps| - 1], covered) + [ps[|ps| - 1]]
  }

  /** Keeping the uncovered positions of a list without repeats gives a list without repeats of exactly those positions. */
  lemma {:induction false} UncoveredElements(ps: seq<Position>, covered: set<Position>)
    requires Distinct(ps)
    ensures Distinct(Uncovered(ps, covered))
    ensures Elements(Uncovered(ps, covered)) == Elements(ps) - covered
  {
    if ps != [] {
      var n := |ps| - 1;
      assert Distinct(ps[..n]);
      UncoveredElements(ps[..n], covered);
      assert ps == ps[..n] + [ps[n]];
      assert Elements(ps) == Elements(ps[..n]) + {ps[n]};
      DistinctSnoc(ps[..n], ps[n]);
      if ps[n] !in covered {
        DistinctSnoc(Uncovered(ps[..n], covered), ps[n]);
        assert ps[n] !in Elements(Uncovered(ps[..n], covered));
        assert Elements(Uncovered(ps, covered)) == Elements(Uncovered(ps[..n], covered)) + {ps[n]};
      }
    }
  }

  /** The positions of the given cells, as the constructors' `coordinates` set. */
  function Covered(given: seq<Cell>): (covered: set<Position>)
    ensures forall p :: p in covered <==> p in Positions(given)
  {
    set c | c in given :: c.position
  }

  /** The cells the constructors add: one `None`-valued new cell per board position no given cell covers. */
  function MissingCells(given: seq<Cell>, w: nat, h: nat): (cells: seq<Cell>)
  {
    Blanks(Uncovered(Board(w, h), Covered(given)))
  }

  /** A new `None`-valued cell at each of the positions, in order. */
  function Blanks(ps: seq<Position>): (cells: seq<Cell>)
    ensures |cells| == |ps| && forall i :: 0 <= i < |ps| ==> cells[i] == Cell(ps[i], None, false)
  {
    seq(|ps|, i requires 0 <= i < |ps| => Cell(ps[i], None, false))
  }

  /**
   * The given cells and the missing cells together number `w * h` exactly when no two given
   * cells share a position and every given cell lies on the board.
   */
  lemma CellCount(given: seq<Cell>, w: nat, h: nat)
    ensures |given| + |MissingCells(given, w, h)| == w * h <==>
            Distinct(Positions(given)) && forall c :: c in given ==> OnBoard(c.position, w, h)
  {
    var ps := Positions(given);
    var covered := Covered(given);
    var onBoard := Elements(Board(w, h)) * covered;
    MissingCount(given, w, h);
    assert covered == Elements(ps);
    ElementsCard(ps);
    SubsetCard(onBoard, covered);
    BoardListsEachPositionOnce(w, h);
    if Distinct(ps) && forall c :: c in given ==> OnBoard(c.position, w, h) {
      forall p | p in covered
        ensures p in onBoard
      {
        var i :| 0 <= i < |ps| && ps[i] == p;
        assert given[i] in given;
      }
      assert onBoard == covered;
    }
    if |given| + |MissingCells(given, w, h)| == w * h {
      assert onBoard == covered;
      forall c | c in given
        ensures OnBoard(c.position, w, h)
      {
        var i :| 0 <= i < |given| && given[i] == c;
        assert ps[i] in onBoard;
      }
    }
  }

  /** The missing cells number the board's positions less those some given cell covers. */
  lemma MissingCount(given: seq<Cell>, w: nat, h: nat)
    ensures |Elements(Board(w, h)) * Covered(given)| <= w * h
    ensures |MissingCells(given, w, h)| == w * h - |Elements(Board(w, h)) * Covered(given)|
  {
    var covered := Covered(given);
    var board := Elements(Board(w, h));
    BoardSize(w, h);
    BoardListsEachPositionOnce(w, h);
    ElementsCard(Board(w, h));
    UncoveredElements(Board(w, h), covered);
    ElementsCard(Uncovered(Board(w, h), covered));
    assert board == (board - covered) + (board * covered);
  }

  /** Every board position is the position of a given cell or of a missing cell. */
  lemma CellsCoverBoard(given: seq<Cell>, w: nat, h: nat)
    ensures forall p :: OnBoard(p, w, h) ==> p in Positions(given + MissingCells(given, w, h))
  {
    var covered := Covered(given);
    var u := Uncovered(Board(w, h), covered);
    BoardListsEachPositionOnce(w, h);
    UncoveredElements(Board(w, h), covered);
    var all := Positions(given + MissingCells(given, w, h));
    forall p | OnBoard(p, w, h)
      ensures p in all
    {
      if p in covered {
        var i :| 0 <= i < |given| && Positions(given)[i] == p;
        assert all[i] == p;
      } else {
        assert p in Elements(u);
        var i :| 0 <= i < |u| && u[i] == p;
        assert all[|given| + i] == p;
      }
    }
  }

  /**
   * The constructors' nested loops: for every board position not in `covered`, in board
   * order, add a new `None`-valued cell.
   */
  method AddMissingCells(cells: seq<Cell>, given: seq<Cell>, w: nat, h: nat) returns (cells': seq<Cell>)
    ensures cells' == cells + MissingCells(given, w, h)
  {
    var covered := Covered(given);
    cells' := cells;
    for i := 0 to w
      invariant cells' == cells + Blanks(Uncovered(Board(i, h), covered))
    {
      ghost var acc := cells';
      cells' := AddColumnCells(cells', i, h, covered);
      MissingStep(cells, acc, cells', i, h, covered);
    }
  }

  /** One more column of the board adds the new cells of its uncovered positions. */
  lemma MissingStep(cells: seq<Cell>, acc: seq<Cell>, acc': seq<Cell>, i: nat, h: nat, covered: set<Position>)
    requires acc == cells + Blanks(Uncovered(Board(i, h), covered))
    requires acc' == acc + Blanks(Uncovered(Column(i, h), covered))
    ensures acc' == cells + Blanks(Uncovered(Board(i + 1, h), covered))
  {
    var before := Uncovered(Board(i, h), covered);
    UncoveredAppend(Board(i, h), Column(i, h), covered);
    BlanksAppend(before, Uncovered(Column(i, h), covered));
  }

  /** The inner loop of the constructors: for every `j in range(h)` with `(i, j)` uncovered, add a new `None`-valued cell. */
  method AddColumnCells(cells: seq<Cell>, i: int, h: nat, covered: set<Position>) returns (cells': seq<Cell>)
    ensures cells' == cells + Blanks(Uncovered(Column(i, h), covered))
  {
    cells' := cells;
    for j := 0 to h
      invariant cells' == cells + Blanks(Uncovered(Column(i, h)[..j], covered))
    {
      assert Column(i, h)[..j + 1][..j] == Column(i, h)[..j];
      ghost var before := Uncovered(Column(i, h)[..j], covered);
      if Position(i, j) !in covered {
        assert Blanks(before + [Position(i, j)]) == Blanks(before) + [Cell(Position(i, j), None, false)];
        cells' := cells' + [Cell(Position(i, j), None, false)];
      }
    }
    assert Column(i, h)[..h] == Column(i, h);
  }

  /** The new cells of two lists of positions are those of each, one after the other. */
  lemma BlanksAppend(ps: seq<Position>, qs: seq<Position>)
    ensures Blanks(ps + qs) == Blanks(ps) + Blanks(qs)
  {
  }

  /** Keeping the uncovered positions of two lists one after the other is keeping those of each. */
  lemma {:induction false} UncoveredAppend(ps: seq<Position>, qs: seq<Position>, covered: set<Position>)
    ensures Uncovered(ps + qs, covered) == Uncovered(ps, covered) + Uncovered(qs, covered)
    decreases |qs|
  {
    if qs != [] {
      var n := |qs| - 1;
      assert (ps + qs)[..|ps + qs| - 1] == ps + qs[..n];
      UncoveredAppend(ps, qs[..n], covered);
    } else {
      assert ps + qs == ps;
    }
  }
}
