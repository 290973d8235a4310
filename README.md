# SudokuSolver in Dafny

A Dafny model of the genetic-algorithm engine of SudokuSolver and of the three individuals it
evolves: the 6×6 sudoku grid, the legacy 9×9 grid and the string matcher.

Randomness is passed in as data. Every `random()`, `randint`, `choice`, `choices` and
`shuffle` outcome becomes an argument, so each operation is a deterministic function of its
inputs and draws. Preconditions such as `DrawsFit` say that the draws are ones the Python
generator can produce (`randint(1, 6)` lies in `1..6`, and so on).

## Modules

- **Base** (`base.dfy`): `Option`, `Result`, counting and distinctness over sequences.
- **Cells** (`cells.dfy`): the `Position`/`Cell` records both grids share, and the
  construction step that adds an empty cell at every board position the given cells leave
  free.
  - A cell carries a `given` flag. It stands for Python's object identity: a cell "is in
    `given_cells`" exactly when it is one of the given objects.
  - `Copy` clears the flag, because `Cell.copy` builds a new object.
- **Tally** (`tally.dfy`): the dictionaries that `_rate` and `rate` build while they walk
  the cells.
  - `Grouped` models key → set of values; `Counted` models value → count.
  - Proves how their sizes relate to the walked pairs: a sum of set sizes equals the number
    of pairs exactly when no (key, value) pair repeats.
- **Genetic** (`genetic.dfy`): `Individual.normalized_rate` and `reproduce`,
  `StatCollector`, and `GeneticEngine.init_population`, `run_generation`,
  `run_population` and `run`.
  - The engine is generic in the individual type. Its operations arrive as an `Ops` record.
  - The population is a list of object references (`Id`s) into a `map<Id, I>`. This keeps
    the Python aliasing: the elite object exempted from mutation is appended to the list,
    and so it can appear twice.
  - After the first generation the list grows by one entry per generation. The offspring
    overwrite the first `POPULATION_SIZE - 1` entries, the rest of the previous list stays,
    and the best object is appended. The model keeps this (`ListLength`).
  - `run_population` appears twice: as the loop method `RunPopulation`, and as a function
    `Evolve` over a stream of per-generation inputs. Each input is either a keyboard
    interrupt or the draws of one generation.
- **Sudoku** (`sudoku.dfy`): the 6×6 `Sudoku` individual of `SudokuSolver/sudoku.py`.
  - `floor` and `maxi`; construction with its coherence assertions.
  - `build_random_valid_sudoku_values`, `randomly_fill` and `mutate`.
  - `mate` and `clone`.
  - `_rate` (square distinct-value sums plus the squared multiplicity credit).
  - `__str__` (letters, upper case for given cells, bars and rules).
- **LegacyGrid** (`legacy_grid.dfy`): the 9×9 `Grid` of the top-level `sudoku.py`.
  - Its `rate` groups the third term by coordinates modulo 3. This is not by 3×3 box.
    The model follows the code.
  - It inherits a mutation probability of 1, so `mutate` rewrites every cell, given ones
    included.
- **StringMatch** (`string_match.dfy`): the `String` individual that evolves a name toward
  `"loremipsumdolorsitamet"`.

The main results:
- Normalised scores are 0 at `floor` and 100 at `maxi`, and increase with the rate. Every
  6×6 grid built by the constructor rates between `floor` (108) and `maxi` (3924). The
  maximum is reached exactly by a perfect grid.
- The filling values are exactly the values the givens leave owed, up to permutation.
- `run_population`'s recorded history replays through the progress check. `SUCCESS` means
  the last generation strictly beat all earlier ones and reached 100. `BLOCKED` needs at
  least 22 generations, and a constant score blocks after exactly 22.
- `run` returns the first population that did not end `BLOCKED`, or the last attempt when
  every attempt ended `BLOCKED`.

## Model

| member | source | states |
|---|---|---|
| Cells.Copy | SudokuSolver/sudoku.py:36-37 | a copy keeps position and value but is a new object, hence never one of the given cells |
| Cells.Build | SudokuSolver/sudoku.py:25-30 | one given cell per tuple, at `(x, y)` holding `value` |
| Cells.Copies | SudokuSolver/sudoku.py:114 | the clone's cells are the element-wise copies of the parent's cells |
| Cells.RowPairs | SudokuSolver/sudoku.py:160 | each cell contributes its row key `x` with its value, in order |
| Cells.ColumnPairs | SudokuSolver/sudoku.py:161 | each cell contributes its column key `y` with its value, in order |
| Cells.Covered | SudokuSolver/sudoku.py:82-85 | the coordinate set holds exactly the positions of the given cells |
| Cells.BoardListsEachPositionOnce | SudokuSolver/sudoku.py:87-89 | the nested loops visit every board position, and only those, exactly once |
| Cells.UncoveredElements | SudokuSolver/sudoku.py:87-90 | the added positions are the board positions not covered by a given cell, each added once |
| Cells.CellCount | SudokuSolver/sudoku.py:92 | the cell count equals `width * height` if and only if the given positions are distinct and all on the board |
| Cells.MissingCount | SudokuSolver/sudoku.py:87-90 | the number of added cells is the board size minus the number of on-board given positions |
| Cells.CellsCoverBoard | SudokuSolver/sudoku.py:79-90 | after construction every board position holds a cell |
| Cells.AddMissingCells | SudokuSolver/sudoku.py:87-90 | the loops append exactly one empty non-given cell per uncovered position, in column-major order |
| Cells.AddColumnCells | SudokuSolver/sudoku.py:88-90 | the inner loop appends the empty cells of one column's uncovered positions |
| Tally.AddToSet | SudokuSolver/sudoku.py:167-169 | one `if key not in d: d[key] = set()` / `d[key].add(value)` step; AddToSetGrows shows it adds one to the total size exactly when the value is new for its key |
| Tally.Grouped | SudokuSolver/sudoku.py:167-175 | the dict of sets the three grouping loops build, keys in insertion order; GroupedKeys, GroupedValues and GroupedSize state its keys, its sets and its total size |
| Tally.Increment | SudokuSolver/sudoku.py:176-178 | one `if key not in d: d[key] = 0` / `d[key] += 1` step; IncrementGrows shows it adds one to the total of the counts |
| Tally.Counted | SudokuSolver/sudoku.py:176-178 | the `values_count` dict, keys in insertion order; CountedKeys and CountedSum state its keys, its counts and their total |
| Tally.GroupedKeys | SudokuSolver/sudoku.py:167-175 | the grouping dictionary has a key exactly for each key met, each key listed once |
| Tally.GroupedValues | SudokuSolver/sudoku.py:167-175 | each key maps to the set of values paired with it |
| Tally.GroupedSize | SudokuSolver/sudoku.py:179-182 | the sum of set sizes is at most the number of cells, with equality if and only if no (key, value) pair repeats |
| Tally.DistinctnessBound | SudokuSolver/sudoku.py:179-182 | a distinct-value sum is at most the number of cells, and equal exactly when no value repeats in any group |
| Tally.DistinctnessAtLeastKeys | SudokuSolver/sudoku.py:179-182 | a distinct-value sum is at least the number of groups present |
| Tally.CountedKeys | SudokuSolver/sudoku.py:176-178 | `values_count` maps exactly the values met, each to its number of occurrences |
| Tally.CountedSum | SudokuSolver/sudoku.py:176-178 | the counts add up to the number of cells |
| Sudoku.GeometryCoherent | SudokuSolver/sudoku.py:58-60 | the 6×6 grid with 3×2 squares passes the three coherence assertions |
| Sudoku.Floor | SudokuSolver/sudoku.py:63-68 | `floor` is 108; RateAtLeastFloor shows no grid covering the board (so no constructed grid) rates below it |
| Sudoku.Maxi | SudokuSolver/sudoku.py:69-74 | `maxi` is 3924; RateAtMostMaxi shows it bounds every rate and is reached exactly by perfect grids |
| Sudoku.Layout | SudokuSolver/sudoku.py:79-92 | construction succeeds if and only if the given cells lie on the board at distinct positions, and then yields the givens plus one empty cell per free position, 36 cells in all |
| Sudoku.BuildCells | SudokuSolver/sudoku.py:79-92 | the constructor's loops and assertions compute Layout, failing exactly when an assertion fails |
| Sudoku.RemoveFirst | SudokuSolver/sudoku.py:105 | `list.remove` takes away one occurrence of the value |
| Sudoku.PassValues | SudokuSolver/sudoku.py:103-107 | the values one pass of the inner loop appends; OwedPass states which values those are |
| Sudoku.Owed | SudokuSolver/sudoku.py:97-108 | the list `build_random_valid_sudoku_values` returns after its passes; OwedCount and OwedValuesCount state how often each value occurs in it |
| Sudoku.OwedPass | SudokuSolver/sudoku.py:103-107 | one pass over `1..6` emits each value no remaining given occurrence accounts for, and consumes one occurrence of each other value |
| Sudoku.OwedValues | SudokuSolver/sudoku.py:97-108 | the method returns the owed values as the specification function defines them |
| Sudoku.OwedCount | SudokuSolver/sudoku.py:97-108 | over `p` passes, value `x` in `1..n` is emitted `p` minus its given count times (never negative), and nothing else is emitted |
| Sudoku.OwedValuesCount | SudokuSolver/sudoku.py:97-108 | each value `1..6` is owed six times less the number of givens holding it; no other value is owed |
| Sudoku.ShuffledFrom | SudokuSolver/sudoku.py:139 | the Fisher-Yates shuffle `random.shuffle` performs yields a permutation of its input |
| Sudoku.Shuffle | SudokuSolver/sudoku.py:139 | the in-place shuffle loop computes ShuffledFrom and permutes the list |
| Sudoku.Filled | SudokuSolver/sudoku.py:140-141 | filling keeps the number of cells |
| Sudoku.FilledMeaning | SudokuSolver/sudoku.py:136-141 | given cells are untouched; the k-th free cell takes the k-th shuffled value, or keeps its value when the values run out (zip) |
| Sudoku.FillCells | SudokuSolver/sudoku.py:140-141 | the fill loop computes Filled and keeps every position |
| Sudoku.Mutated | SudokuSolver/sudoku.py:196-199 | mutation keeps the number of cells |
| Sudoku.MutatedMeaning | SudokuSolver/sudoku.py:192-199 | given cells and cells whose draw is not below the probability are unchanged; a changed cell holds a value in `1..6`; positions never change |
| Sudoku.MutateCells | SudokuSolver/sudoku.py:196-199 | the mutation loop computes Mutated and keeps every position |
| Sudoku.MatedCells | SudokuSolver/sudoku.py:127-133 | a child cell copies the father's cell when its coordinate on the crossover axis is below the split, otherwise the copy of its zip partner in the mother |
| Sudoku.SquarePairs | SudokuSolver/sudoku.py:162-166 | each cell contributes its square key `(x // 3, y // 2)` with its value |
| Sudoku.RowExample | SudokuSolver/sudoku.py:147 | the documented example: a row holding 1, 2, 5, 4, 2 is worth 4 |
| Sudoku.Credit | SudokuSolver/sudoku.py:185 | the credit of a value count: 1, 0.5 and 0.25 for counts 6, 5 and 4, otherwise 0; CreditBound bounds it by count/6 |
| Sudoku.CreditBound | SudokuSolver/sudoku.py:185 | a credit is at most count/6, and exactly count/6 only for a count of 6 |
| Sudoku.SumOfCreditsBound | SudokuSolver/sudoku.py:183-189 | six times the credit sum is at most the total count, with equality exactly when every key counts 6 |
| Sudoku.CountedCredits | SudokuSolver/sudoku.py:176-189 | six times the multiplicity term is at most the number of cells, with equality exactly when every value occurs 6 times |
| Sudoku.EveryCountSix | SudokuSolver/sudoku.py:149-150 | every dictionary count is 6 if and only if every value occurs 6 times among the cells |
| Sudoku.Multiplicity | SudokuSolver/sudoku.py:176-189 | the multiplicity term: the credits of the count of each value among the cells, added up; MultiplicityBound bounds it |
| Sudoku.MultiplicityBound | SudokuSolver/sudoku.py:183-189 | the multiplicity term lies between 0 and the number of cells divided by 6, reaching the top exactly when every present value occurs 6 times |
| Sudoku.Score | SudokuSolver/sudoku.py:179-190 | the sum of the squares of the three distinct-value sums and of the multiplicity term; ScoreAtMost and ScoreAtLeast bound it |
| Sudoku.RateOf | SudokuSolver/sudoku.py:143-190 | the score `_rate` returns for a list of cells; RateAtMostMaxi and RateAtLeastFloor bound it, and Sudoku.Sudoku.Rate computes it |
| Sudoku.ScoreAtMost | SudokuSolver/sudoku.py:179-190 | with sums of at most 36 and multiplicity at most 6, the score is at most 3924, and 3924 exactly at those bounds |
| Sudoku.RateAtMostMaxi | SudokuSolver/sudoku.py:69-74 | every 36-cell grid rates at most `maxi`, and rates `maxi` if and only if it is perfect (no repeat in any row, column or square, and every value six times) |
| Sudoku.RowsPresent | SudokuSolver/sudoku.py:157-169 | a grid covering the board has distinct-value row sum at least 6 |
| Sudoku.ColumnsPresent | SudokuSolver/sudoku.py:157-172 | a grid covering the board has distinct-value column sum at least 6 |
| Sudoku.SquaresPresent | SudokuSolver/sudoku.py:157-175 | a grid covering the board has distinct-value square sum at least 6, one per square |
| Sudoku.ScoreAtLeast | SudokuSolver/sudoku.py:179-190 | sums of at least 6 give a score of at least 108 |
| Sudoku.RateAtLeastFloor | SudokuSolver/sudoku.py:63-68 | every grid covering the board rates at least `floor` |
| Sudoku.MarksTellValuesApart | SudokuSolver/sudoku.py:212-220 | the rendered letter determines the cell value, and its case tells given cells apart |
| Sudoku.Blank | SudokuSolver/sudoku.py:214 | the starting table is 6 rows of 6 `0` entries |
| Sudoku.Written | SudokuSolver/sudoku.py:215-220 | writing letters keeps the table's shape |
| Sudoku.WrittenMeaning | SudokuSolver/sudoku.py:215-220 | writing fails (KeyError) exactly when some value has no letter; otherwise each slot shows the mark of the last cell written there, or stays as it was |
| Sudoku.Free | SudokuSolver/sudoku.py:215 | `cells - given_cells` holds exactly the non-given cells |
| Sudoku.SlotsMeaning | SudokuSolver/sudoku.py:212-220 | each slot shows the upper-case letter of a given cell there, else the lower-case letter of a free cell there, else `0`; failure exactly on a value outside the letter table |
| Sudoku.Inserted | SudokuSolver/sudoku.py:221-223 | inserting bars adds exactly `count` entries |
| Sudoku.Spaced | SudokuSolver/sudoku.py:224 | `" ".join` puts the items at even offsets with single spaces between them |
| Sudoku.RowLineLayout | SudokuSolver/sudoku.py:221-224 | a rendered row is 17 characters, with bars at 0, 8 and 16 and the value of column x at offset `2(x + x//3 + 1)` |
| Sudoku.BandsInserted | SudokuSolver/sudoku.py:225-226 | rules go before every second row and at the end |
| Sudoku.RowLines | SudokuSolver/sudoku.py:221-224 | one rendered line per table row |
| Sudoku.LinesLayout | SudokuSolver/sudoku.py:221-227 | the picture has 10 lines; lines 0, 3, 6 and 9 are rules, and row y is line `y + y//2 + 1` |
| Sudoku.LineWidths | SudokuSolver/sudoku.py:226 | every line, rule or row, is 17 characters wide |
| Sudoku.WriteMarks | SudokuSolver/sudoku.py:215-220 | the writing loop computes Written |
| Sudoku.LayOutRow | SudokuSolver/sudoku.py:221-224 | the bar-insertion loop computes RowLine |
| Sudoku.LayOut | SudokuSolver/sudoku.py:221-227 | the row and rule loops compute Lines |
| Sudoku.Sudoku.constructor | SudokuSolver/sudoku.py:51-95 | a built grid covers the board and holds the given cells, filled with the shuffled owed values, with default probabilities 0.03 and 0.5 |
| Sudoku.Sudoku.Replacing | SudokuSolver/sudoku.py:114-116 | a grid whose cells and probabilities are set by `clone` or `mate` |
| Sudoku.Sudoku.RandomlyFill | SudokuSolver/sudoku.py:136-141 | the free cells take the shuffled owed values; positions, givens and probabilities are unchanged, and the grid stays Valid |
| Sudoku.Sudoku.Mutate | SudokuSolver/sudoku.py:192-199 | cells become Mutated under the grid's own probability; positions, givens and probabilities are unchanged, and the grid stays Valid |
| Sudoku.Sudoku.Rate | SudokuSolver/sudoku.py:143-190 | the dictionary-building loop returns RateOf; for a grid covering the board (every constructed grid) that score lies between `floor` and `maxi` (RateAtLeastFloor, RateAtMostMaxi) |
| Sudoku.Rendered | SudokuSolver/sudoku.py:207-227 | the text `__str__` returns, or the KeyError it raises on a value without a letter; Sudoku.Sudoku.Render computes it |
| Sudoku.Sudoku.Render | SudokuSolver/sudoku.py:207-227 | the ASCII picture, or KeyError on a value without a letter |
| Sudoku.Sudoku.Clone | SudokuSolver/sudoku.py:110-117 | a fresh grid with the same givens and probabilities, whose cells are copies at the same positions |
| Sudoku.Sudoku.Mate | SudokuSolver/sudoku.py:119-134 | a fresh grid whose probabilities each come from the chosen parent and whose cells are MatedCells of the crossover |
| Sudoku.NewSudoku | SudokuSolver/sudoku.py:51-95 | construction succeeds if and only if Layout does, giving a grid that covers the board, filled as the constructor says |
| Sudoku.CoverIsExact | SudokuSolver/sudoku.py:92 | 36 cells covering the 36 positions sit at distinct on-board positions |
| Sudoku.UniformGrid | SudokuSolver/sudoku.py:130-133 | a 36-cell grid holding one value everywhere, in column-major order |
| Sudoku.CrossedPairing | SudokuSolver/sudoku.py:130-133 | a zip pairing that swaps entries 0 and 6, as two sets' iteration orders may |
| Sudoku.MateByIterationOrderLosesPosition | SudokuSolver/sudoku.py:130-133 | as written: pairing by iteration order can give a child two cells at (0, 0) and none at (1, 0), so it no longer covers the board |
| Sudoku.IndexOf | SudokuSolver/sudoku.py:130-133 | the first index of the cell at a position |
| Sudoku.PairByPosition | SudokuSolver/sudoku.py:130-133 | corrected: each cell is paired with the other parent's cell at the same position |
| Sudoku.MateByPositionKeepsBoard | SudokuSolver/sudoku.py:119-134 | corrected: mating by position keeps the parent's positions, covers the board and rates at least `floor` |
| Sudoku.CloneExposesGivenCells | SudokuSolver/sudoku.py:114 | as written: a mutation that leaves a given cell alone overwrites its copy in a clone |
| Sudoku.Duplicate | SudokuSolver/sudoku.py:36-37 | corrected copy: keeps position, value and whether the cell is given |
| Sudoku.Duplicates | SudokuSolver/sudoku.py:114 | corrected clone cells: the element-wise Duplicate |
| Sudoku.DuplicatesProtectGivenCells | SudokuSolver/sudoku.py:192-199 | corrected: duplicates keep positions and values, and mutation leaves every given cell of them untouched |
| Sudoku.MateExposesGivenCells | SudokuSolver/sudoku.py:130-133 | as written: a mutation that leaves a parent's given cell alone overwrites the copy of it that `mate` passes to the child |
| Sudoku.MatedDuplicates | SudokuSolver/sudoku.py:130-133 | corrected mate cells: the Duplicate of the parent cell each pair takes |
| Sudoku.MatedDuplicatesProtectGivenCells | SudokuSolver/sudoku.py:192-199 | corrected: the child has the positions and values `mate` gives it, and mutation leaves every cell taken from a given cell of either parent untouched |
| LegacyGrid.Layout | sudoku.py:37-46 | construction succeeds if and only if the given cells lie on the 9×9 board at distinct positions, then giving 81 cells |
| LegacyGrid.BuildCells | sudoku.py:39-46 | the constructor's loops and assertion compute Layout |
| LegacyGrid.Refilled | sudoku.py:49-52 | filling keeps the number of cells |
| LegacyGrid.RefilledMeaning | sudoku.py:49-52 | given cells are untouched; every other cell takes its own draw in `1..9`; positions never change |
| LegacyGrid.RefillCells | sudoku.py:49-52 | the fill loop computes Refilled |
| LegacyGrid.Reassigned | sudoku.py:75-78 | mutation keeps the number of cells |
| LegacyGrid.ReassignCells | sudoku.py:75-78 | the mutation loop computes Reassigned and keeps positions |
| LegacyGrid.InheritedProbabilityReassignsEveryCell | sudoku.py:75-78 | with the inherited probability 1, every cell, given ones included, takes its draw |
| LegacyGrid.ModuloPairs | sudoku.py:59 | each cell contributes its class `(x % 3, y % 3)` with its value |
| LegacyGrid.RateOf | sudoku.py:54-73 | the score `rate` returns: the distinct values of rows, columns and modulo classes added up; RateAtMost and RateAtLeast bound it |
| LegacyGrid.RateAtMost | sudoku.py:54-73 | the rate is at most three times the number of cells, reaching it if and only if no row, column or modulo class repeats a value |
| LegacyGrid.RowsPresent | sudoku.py:56-62 | a grid covering the board has distinct-value row sum at least 9 |
| LegacyGrid.ColumnsPresent | sudoku.py:56-65 | a grid covering the board has distinct-value column sum at least 9 |
| LegacyGrid.ClassesPresent | sudoku.py:56-68 | a grid covering the board has distinct-value class sum at least 9 |
| LegacyGrid.RateAtLeast | sudoku.py:54-73 | a grid covering the board rates at least 27 |
| LegacyGrid.Grid.constructor | sudoku.py:37-47 | a built grid covers the board, holds the givens, is randomly filled, and has mutation probability 1 |
| LegacyGrid.Grid.Replacing | sudoku.py:30-31 | a grid whose cells are set by `clone` |
| LegacyGrid.Grid.RandomlyFill | sudoku.py:49-52 | cells become Refilled; positions, givens and probability are unchanged, and the grid stays Valid |
| LegacyGrid.Grid.Rate | sudoku.py:54-73 | the dictionary-building loop returns RateOf, the score bounded by RateAtMost and RateAtLeast |
| LegacyGrid.Grid.Mutate | sudoku.py:75-78 | cells become Reassigned under the grid's probability; positions and givens are unchanged, and the grid stays Valid |
| LegacyGrid.Grid.Clone | sudoku.py:29-32 | a fresh grid with the same givens whose cells are copies at the same positions |
| LegacyGrid.Grid.Mate | sudoku.py:34-35 | mating ignores the partner and clones |
| LegacyGrid.NewGrid | sudoku.py:37-47 | construction succeeds if and only if Layout does, giving a grid that covers the board |
| StringMatch.Matches | string_match.py:22-23 | the number of agreeing positions is at most the length of either string |
| StringMatch.MatchesSelf | string_match.py:22-23 | a string agrees with itself everywhere |
| StringMatch.MatchesAllIff | string_match.py:22-23 | the score equals the goal's length if and only if the name starts with the goal |
| StringMatch.GoalScoresMaximum | string_match.py:8 | the goal has 22 characters, scores 22 and no name scores more |
| StringMatch.Mutated | string_match.py:13-20 | mutation keeps the length, changes nothing when the gate draw is at least 0.1, and otherwise changes only positions whose own draw hits them, to a lowercase letter |
| StringMatch.Spliced | string_match.py:31-33 | the child is the father's prefix then the mother's suffix, cut to 22 characters |
| StringMatch.String.constructor | string_match.py:10-11 | an individual holding the given name |
| StringMatch.String.Rate | string_match.py:22-23 | the rate is at most 22 and at most the name's length, and 22 exactly when the name starts with the goal |
| StringMatch.String.Mutate | string_match.py:13-20 | the name becomes Mutated |
| StringMatch.String.Clone | string_match.py:28-29 | a fresh individual with the same name and rate |
| StringMatch.String.Mate | string_match.py:31-33 | a fresh individual named by Spliced at the two cut points |
| Genetic.NormalizedRate | genetic.py:43-56 | missing `floor` raises first, then missing `maxi`, then equal bounds divide by zero; otherwise the result times `maxi - floor` equals `(rate - floor) * 100` |
| Genetic.NormalizedRateEndpoints | genetic.py:43-56 | `floor` normalises to 0 and `maxi` to 100 |
| Genetic.NormalizedRateIncreasing | genetic.py:43-56 | a higher rate gives a strictly higher normalised score |
| Genetic.NormalizedRateBetweenBounds | genetic.py:43-56 | a rate between `floor` and `maxi` normalises into `[0, 100]` |
| Genetic.Reproduce | genetic.py:78-85 | the individual clones itself when paired with itself or when the draw exceeds its mating probability, and otherwise mates |
| Genetic.DefaultProbabilityAlwaysMates | genetic.py:83-85 | with the default mating probability 1, two distinct individuals always mate |
| Genetic.ExtremesAreFirst | genetic.py:104-112 | the recorded maximum and minimum bound every value and are their first occurrences, because only strict improvements replace them |
| Genetic.AppendStep | genetic.py:104-113 | one collection adds the value to the sum, and moves the maximum or minimum only on a strict improvement |
| Genetic.GreatestCollected | genetic.py:105-108 | a strictly larger value takes the maximum, so the fields keep the first maximum of everything collected, with its item and uid |
| Genetic.SmallestCollected | genetic.py:109-111 | a strictly smaller value takes the minimum, so the fields keep the first minimum of everything collected, with its item |
| Genetic.Collected | genetic.py:103-112 | one `collect` keeps sum, count, first maximum and first minimum consistent with the collected values |
| Genetic.StatCollector.constructor | genetic.py:96-102 | an empty collector |
| Genetic.StatCollector.Collect | genetic.py:104-113 | the value is appended and the sum, count and extremes stay those of all collected values |
| Genetic.StatCollector.Mean | genetic.py:115-117 | the average of the collected values; none when nothing was collected |
| Genetic.InitPopulation | genetic.py:145-153 | `POPULATION_SIZE` distinct new objects holding the given individuals |
| Genetic.MutatePass | genetic.py:168-173 | mutating in turn never creates or destroys objects |
| Genetic.MutatePassKeeps | genetic.py:168-173 | exempt objects and objects outside the list are not mutated |
| Genetic.Observed | genetic.py:175-181 | one observation per list entry |
| Genetic.ObservedEntry | genetic.py:175-181 | entry k is observed just after its own mutation |
| Genetic.MutatedOnce | genetic.py:168-173 | in a list without repeats, each non-exempt object is mutated exactly once with its own draw |
| Genetic.ScoresSeeFinalValues | genetic.py:168-181 | in a list without repeats, each recorded score is that of the object's final value after the pass |
| Genetic.Child | genetic.py:83-85 | the offspring of the i-th drawn pair, as `father.reproduce(mother)` makes it |
| Genetic.WithChildren | genetic.py:190-196 | the objects once the first `count` offspring exist as new objects; WithChildrenDomain, WithChildrenAt and WithChildrenKeeps state which objects those are |
| Genetic.WithChildrenDomain | genetic.py:190-196 | breeding adds exactly the next `count` object ids |
| Genetic.WithChildrenAt | genetic.py:190-196 | offspring k is father k's `reproduce` with mother k |
| Genetic.WithChildrenKeeps | genetic.py:190-196 | breeding leaves existing objects unchanged |
| Genetic.NextPopulation | genetic.py:190-199 | the new list is the old length plus the exempt ones |
| Genetic.NextPopulationShape | genetic.py:190-199 | offspring take the first `count` entries, the old tail stays, and the exempt object is appended |
| Genetic.GenerationOf | genetic.py:155-202 | `run_generation` as a function of its inputs and draws; GenerationList, GenerationShape, GenerationStore, GenerationChildren and GenerationMutations state what it produces |
| Genetic.GenerationList | genetic.py:155-202 | after a generation the list holds fresh offspring first, the old tail, then the exempt ones, every entry live, and no old object is lost |
| Genetic.GenerationShape | genetic.py:190-199 | the layout of the new list and the next free id |
| Genetic.GenerationStore | genetic.py:190-199 | offspring are new live objects, every entry is live, and old objects remain |
| Genetic.GenerationChildren | genetic.py:190-196 | each offspring is bred from the mutated parents |
| Genetic.ChildrenInPlace | genetic.py:190-196 | the i-th list entry holds the i-th offspring |
| Genetic.GenerationMutations | genetic.py:168-173 | exempt objects keep their value; in a list without repeats every other entry is mutated once |
| Genetic.MutateEntry | genetic.py:171-173 | one loop step extends the mutation pass by one entry |
| Genetic.CollectEntry | genetic.py:178-181 | the three collectors each receive the entry's score, mutation and mating probability |
| Genetic.CollectStep | genetic.py:168-181 | one loop iteration keeps the collected-so-far invariant |
| Genetic.MutateAndCollect | genetic.py:163-181 | the first loop mutates in order and feeds each collector exactly the observed sequence |
| Genetic.CollectAll | genetic.py:168-181 | the loop runs the invariant from nothing collected to everything collected |
| Genetic.CollectedNothing | genetic.py:163-167 | fresh collectors satisfy the loop invariant at entry |
| Genetic.CollectedEverything | genetic.py:168-181 | at exit the collectors hold the observed scores and probabilities, with the list as items and indices as uids |
| Genetic.Breed | genetic.py:190-196 | the breeding loop produces WithChildren and puts the offspring at the head of the list |
| Genetic.BreedStep | genetic.py:196 | one loop iteration adds one offspring in place |
| Genetic.RunGeneration | genetic.py:155-202 | `run_generation` produces the specified new objects, list and collected statistics |
| Genetic.Track | genetic.py:249-268 | counts generations; resets the stall count exactly on a strict improvement; SUCCESS exactly on improving to at least 100; BLOCKED exactly when stalled after generation 20 for half the generations |
| Genetic.StalledFrom | genetic.py:259-266 | a stalled run at generation k blocks after exactly `22 - k` more non-improving generations |
| Genetic.ConstantScoreBlocks | genetic.py:249-268 | a constant score below 100 stops as BLOCKED after exactly 22 generations |
| Genetic.BestOf | genetic.py:250-252 | the all-time best bounds every recorded greatest score |
| Genetic.BestOfRecorded | genetic.py:250-252 | the all-time best is one of the recorded greatest scores, so with BestOf it is their maximum |
| Genetic.Exempt | genetic.py:228 | at most one exempt object |
| Genetic.InitialInvariant | genetic.py:209-219 | the initial variables satisfy the loop invariant |
| Genetic.StatsOf | genetic.py:244-246 | the recorded `greatest_id` is an index into the generation |
| Genetic.StatsOfBounds | genetic.py:244-246 | the record holds the first maximum, the mean and the minimum of the scores |
| Genetic.RunGenerationRuns | genetic.py:227-229 | a generation keeps the run invariant and yields one score per list entry |
| Genetic.Step | genetic.py:224-268 | one iteration keeps the invariant, appends one record and one best, and decides the exit by Track |
| Genetic.Replay | genetic.py:249-268 | the progress bookkeeping over the greatest scores of successive generations, up to the first exit; ReplayUndecided states its effect when no exit happens |
| Genetic.Evolve | genetic.py:222-273 | `run_population`'s loop from a state on, until SUCCESS, BLOCKED or an interrupt; EvolveInvariant, EvolveHistories, EvolveReplays, EvolveDecidesLast and EvolveProceeds state what it yields |
| Genetic.EvolveInvariant | genetic.py:222-273 | the loop invariant holds at exit |
| Genetic.EvolveHistories | genetic.py:244-247 | records are only appended, one per generation when no exit happens |
| Genetic.EvolveReplays | genetic.py:222-273 | the progress variables and exit reason are those of replaying the recorded greatest scores |
| Genetic.EvolveDecidesLast | genetic.py:249-266 | a SUCCESS or BLOCKED exit is decided by the last generation alone |
| Genetic.StepReplays | genetic.py:224-268 | one iteration keeps progress equal to the replay of the records |
| Genetic.ReplayUndecided | genetic.py:249-268 | without an exit, the generation count grows by the number of records, and the all-time best bounds every record and never decreases |
| Genetic.ExitConditions | genetic.py:249-266 | SUCCESS means the last greatest is at least 100 and strictly above all earlier ones; BLOCKED needs at least 22 generations |
| Genetic.RunPopulationOutcome | genetic.py:204-277 | one record per generation; a SUCCESS run's last record beats all earlier ones and reaches 100; a BLOCKED run lasted at least 22 generations; without an exit every input ran |
| Genetic.EvolveProceeds | genetic.py:222-273 | an uninterrupted generation is one Step, and the loop goes on exactly when it does not exit |
| Genetic.RecordGeneration | genetic.py:227-247 | one generation's new list and record, with the best object taken from the list before breeding |
| Genetic.TrackProgress | genetic.py:249-268 | the progress check computes Track |
| Genetic.StepOf | genetic.py:224-268 | Step is `run_generation` followed by the record and the progress check |
| Genetic.RunPopulationStep | genetic.py:224-268 | the loop body computes Step |
| Genetic.RunPopulationIteration | genetic.py:222-273 | one iteration, interrupt or generation, keeps the loop's correspondence with Evolve |
| Genetic.RunPopulation | genetic.py:204-277 | `run_population` returns what Evolve computes from the initial population |
| Genetic.Outcomes | genetic.py:289-291 | one outcome per population tried |
| Genetic.Restarts | genetic.py:289-295 | `run`'s loop over successive populations, replacing one that ended BLOCKED by the next; RestartsPicksFirstUnblocked states which outcome it returns |
| Genetic.RestartsPicksFirstUnblocked | genetic.py:289-295 | the returned population is the first that did not end BLOCKED, every earlier one having ended BLOCKED |
| Genetic.Run | genetic.py:279-299 | `run` returns the best individuals, the statistics and the individuals of the population `Restarts` picks |

## Left out

- Parts of the repository that are not part of this model:
  - `graphic_interface.py` and `main.py` (at the top level and under SudokuSolver);
  - `graph.py`, `setup.py` and `test.py`;
  - `GeneticEngine.save_stats_to_file` (pickling and the file system);
  - the `print` progress lines of `run_population` and `run`;
  - every `__repr__`.

  These are I/O or presentation. The 6×6 `__str__` is modelled.
- Randomness: each draw is an argument. The model says which values a draw can take, not
  how likely they are.
  - `choices(population, biased_scores, k)` is modelled as arbitrary index sequences. The
    `score ** 10` weights and the ValueError `choices` raises when every weight is zero are
    not modelled.
  - `shuffle` is modelled as the Fisher-Yates swaps with arbitrary in-range draws.
- Genetic.Track: a keyboard interrupt is only possible between generations, as an
  `Interrupt` input. An interrupt part-way through a generation, which would leave a
  half-updated list, is not modelled.
- Genetic.RunPopulation: the run is driven by a finite list of per-generation inputs. A run
  whose list ends before an exit stops without a reason. The Python loop, by contrast, runs
  until it exits.
- Genetic.RunPopulation: requires a population size of at least 1. With a size of 0,
  `init_population` returns an empty list and Python's `choices` on it raises IndexError in
  the first generation. That error path is not modelled.
- Genetic.RunGeneration: requires a list of at least `N - k` entries. A shorter list would
  make `population[i] = …` raise IndexError, a path not modelled. `run_population` never
  passes such a list.
- Genetic.Run: each retried population is given by its own initial individuals and inputs;
  the individuals' constructor arguments are not modelled. The attempts form a finite list:
  when every attempt ends `BLOCKED`, `Run` returns the last one, `BLOCKED` included, where the
  Python loop would build yet another population and retry.
- Genetic.StatCollector.Mean: returns no value for an empty collector, where Python raises
  ZeroDivisionError. The engine never asks for the mean of an empty collector.
- Genetic.NormalizedRate: scores are real numbers. Floating-point rounding is not modelled.
- The `String` individual and the legacy `Grid` have no `floor` or `maxi`. `normalized_rate`
  therefore raises for them, and NormalizedRate's MissingFloor error models that. The
  engine is not instantiated with those classes.
- Sets are modelled as sequences:
  - `cells` and `given_cells` in both grids are sequences in construction order;
  - Python's set iteration order, which fixes which free cell takes which shuffled value
    and how `zip` pairs two grids in `mate`, is an argument (the shuffle draws and the
    `pairing` permutation).
- Sudoku.Sudoku.Clone and Sudoku.Sudoku.Mate: `clone` and `mate` first build a grid with
  `Sudoku(self.given_cells)`, which fills it at random, then replace all its cells. The
  model builds the result directly, because the discarded fill has no visible effect.
- LegacyGrid.Grid.Clone and LegacyGrid.Grid.Mate: the same applies to the legacy grid's
  throwaway construction.
- LegacyGrid.Grid.Mutate: in Python the given cells are objects shared by every grid built
  from them, so mutating one grid's given cell changes it in all of them. The model gives
  each grid its own values and does not capture this sharing.
- Sudoku.Sudoku.Rate: Python's `_rate` may add integer and float terms; the model computes
  in reals throughout.

## Findings

| source | as written | input that shows it | evidently intended | confidence | as-written member | corrected member |
|---|---|---|---|---|---|---|
| SudokuSolver/sudoku.py:130-133 | the child's cells come from `zip(self.cells, other.cells)`, pairing cells by the two sets' iteration orders | two full grids whose iteration orders differ by swapping the cells at (0,0) and (1,0); crossover type 0, split 1: the child gets two cells at (0,0) and none at (1,0) | pair each cell with the other parent's cell at the same position | not executed | Sudoku.MateByIterationOrderLosesPosition | Sudoku.PairByPosition, Sudoku.MateByPositionKeepsBoard |
| SudokuSolver/sudoku.py:114 | `clone` copies every cell with `Cell.copy`, so the copies of given cells are new objects, not in `given_cells`, and `mutate` (192-199) may overwrite them | a given cell (0,0) holding 3, a mutation draw of 0.0 with value 5: the original keeps 3, the clone's copy becomes 5 | copies of given cells stay protected from mutation | not executed | Sudoku.CloneExposesGivenCells | Sudoku.Duplicates, Sudoku.DuplicatesProtectGivenCells |
| SudokuSolver/sudoku.py:131 | `mate` also copies the parent cells it takes with `Cell.copy`, so the child's copies of given cells may be overwritten by `mutate` | one given cell (0,0) holding 3 in each parent, axis 0, split 1, a mutation draw of 0.0 with value 5: the parent keeps 3, the child's copy becomes 5 | cells taken from given cells stay protected from mutation | not executed | Sudoku.MateExposesGivenCells | Sudoku.MatedDuplicates, Sudoku.MatedDuplicatesProtectGivenCells |
