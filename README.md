# eternity_check: rotation model and board validator

A Dafny model of the checker in `eternity.go` for a 16x16 edge-matching puzzle in the
style of Eternity II. A piece has four edge symbols (Up, Down, Left, Right), a current
orientation 0..3 and a catalog number. A board is a 16x16 grid of optional pieces.
A board is correct when every piece has a number in 0..255, every side facing off the
grid carries the border symbol 0, and every side facing an occupied cell carries the
symbol on that cell's facing side. Empty cells impose nothing, so partial boards can be
checked.

- `pieces.dfy`, module `Pieces`: the edge tuple `Edges`, the quarter-turn `Rotate`
  and its iterate `RotateN`, and the orientation counter as the loop updates it
  (`NextOrientation`, `OrientationAfter`). `Rotate` is the edge shuffle of
  eternity.go:28-32 and `NextOrientation` the increment-and-wrap of eternity.go:34-37;
  their properties are stated by the lemmas and by `Turn` below. The class `Piece` has the source's mutable
  fields. A ghost field `Canonical` holds the orientation-0 edges. `Piece.Valid()` says
  the current edges are `Canonical` turned `Orientation` times. `SetOrientation` is the
  source's loop, with its invariants; the loop body (eternity.go:28-37) is the method
  `Turn`, so that one step is specified on its own.
- `board.dfy`, module `Boards`: the class `Board` over an `array2<Piece?>` indexed
  `Content[y, x]`. The specification of correctness is direction-generic: `SideFits`,
  `Fits`, `CellOk` and `Correct`. `CheckPiece` is the source's four-branch function.
  `Neighbour` is the neighbour indexing of eternity.go:115, 128, 141 and 154: the cell
  one step up, down, left or right, or none when that side faces off the grid.
  `IsCorrect` and `CountPoints` are the source's nested loops. `Place` is the
  placement step of the board loader, done from an already parsed `(id, orientation)`
  pair. It keeps the source's sharing of catalog piece objects.

`IsCorrect`, `CountPoints` and `CheckPiece` have no `modifies` clause (the last is a
function), so Dafny guarantees they change neither the board nor any piece.

The model follows the code on two points:
- The accepted piece numbers are 0..255, hard-coded at eternity.go:93, and are not tied
  to the size of the catalog.
- Placing a piece stores the catalog's own object and rotates it in place
  (eternity.go:202-203). There is no copy. Two cells that name the same id share one
  orientation; `Boards.PlaceSamePieceTwice` shows this.

## Model

| member | source | states |
|---|---|---|
| `Pieces.RotatePreservesMultiset` | eternity.go:28-32 | one rotation step keeps the multiset of the four edge values |
| `Pieces.RotateNPreservesMultiset` | eternity.go:26-39 | any number of rotation steps keeps the multiset of edge values |
| `Pieces.RotateFourIsIdentity` | eternity.go:28-37 | four consecutive rotation steps restore the original edges |
| `Pieces.RotateNAdd` | eternity.go:26-39 | m steps followed by n steps equal m + n steps |
| `Pieces.RotateNModFour` | eternity.go:26-39 | only the number of steps modulo 4 determines the edges |
| `Pieces.OrientationCycle` | eternity.go:34-37 | from a valid orientation k, the counter after n increments-with-wrap is (k + n) mod 4 |
| `Pieces.LoopStopsAtSteps` | eternity.go:27-38 | the loop guard first becomes false after exactly `Steps(from, to)` steps, and that is at most 3 |
| `Pieces.OrientationNeverReaches` | eternity.go:27-38 | for a target outside 0..3 the counter never equals the target, so the loop as written never stops |
| `Pieces.SetOrientationComposes` | eternity.go:26-39 | turning to orientation a and then to b gives the same edges as turning to b directly |
| `Pieces.RotateToNext` | eternity.go:28-37 | one step from orientation k gives the canonical edges turned to the next orientation, wrapping 3 to 0 |
| `Pieces.Piece.constructor` | eternity.go:20-24 | a new piece has the given edges and number, orientation 0, and those edges as its canonical ones |
| `Pieces.Piece.Turn` | eternity.go:28-37 | one loop step: Up, Right, Down, Left take the old Left, Up, Right, Down; the counter increments and wraps above 3; the number and the canonical edges are untouched and the piece stays valid |
| `Pieces.Piece.SetOrientation` | eternity.go:26-39 | for a target o in 0..3 the loop ends after `Steps(old orientation, o)` <= 3 steps with orientation o; edges = old edges turned that many times = canonical edges turned o times; number unchanged; edge multiset unchanged; nothing changes when o is already the orientation |
| `Pieces.Piece.SetOrientationChecked` | eternity.go:26-39 | corrected entry point: refuses a target outside 0..3 and leaves the piece unchanged; otherwise behaves as SetOrientation |
| `Boards.Board.constructor` | eternity.go:67-69 | a new board is 16x16 and every cell is empty |
| `Boards.Board.CountPoints` | eternity.go:71-80 | the result is the number of occupied cells, between 0 and 256; the board is not modified |
| `Boards.Board.FitsBySides` | eternity.go:107-161 | a piece fits at a cell exactly when its Up, Down, Left and Right sides each fit |
| `Boards.Neighbour` | eternity.go:109-159 | from a cell of the grid, there is no neighbour exactly for Up in row 0, Down in row 15, Left in column 0 and Right in column 15; otherwise the neighbour is a grid cell one step away |
| `Boards.Board.CheckPiece` | eternity.go:107-161 | true exactly when every side satisfies the matching rule: off-grid sides are 0, sides facing an occupied cell equal that cell's facing side, sides facing an empty cell are free |
| `Boards.Board.IsCorrect` | eternity.go:82-105 | true exactly when every occupied cell has a number in 0..255 and passes the matching rule on all four sides; the board is not modified |
| `Boards.Board.AdjacentSidesAgree` | eternity.go:107-161 | for two occupied neighbours, side d of the first fits exactly when the opposite side of the second fits back |
| `Boards.Board.CorrectIffEdgesMatch` | eternity.go:82-161 | the board is correct exactly when numbers are in range, all border sides are 0, and every shared edge of two occupied cells carries the same symbol on both sides |
| `Boards.Board.EmptyBoardIsCorrect` | eternity.go:71-105 | a board with no pieces is correct and has no occupied cells |
| `Boards.Board.SingleBlankPieceIsCorrect` | eternity.go:82-161 | a board holding a single piece with an accepted number and all edges 0 is correct wherever it stands, with exactly one occupied cell |
| `Boards.Board.OutwardEdgeIsIncorrect` | eternity.go:107-161 | a piece with a non-zero symbol on a side facing off the grid makes the board incorrect |
| `Boards.Board.MismatchIsIncorrect` | eternity.go:107-161 | two occupied neighbours whose facing sides differ make the board incorrect |
| `Boards.Board.Place` | eternity.go:202-203 | an unknown id or an orientation outside 0..3 is refused and changes nothing; otherwise the cell holds the catalog's own piece, turned to the requested orientation, every other cell keeps its content, and every cell holding that piece shows the new orientation |
| `Boards.PlaceSamePieceTwice` | eternity.go:189-205 | placing one catalog id at two cells leaves both cells holding the same piece, with the orientation of the later placement |

## Left out

- Reading the piece catalog from a file (`loadPieces`, eternity.go:41-65): file I/O and library string splitting and integer parsing. The catalog is an input (`map<int, Piece>`), not a global.
- Parsing the board file (`loadBoard`, eternity.go:180-208): file I/O and regular-expression matching. Only the placement step of lines 202-203 is modelled, as `Board.Place`.
- Printing the board (`Print`, eternity.go:163-178), the diagnostic lines printed inside `IsCorrect` and `checkPiece`, and `main`/`init` (eternity.go:14-16, 215-226): output and command-line handling. The model keeps only the boolean verdict.
- Pieces.Piece.SetOrientation: requires a target in 0..3, because for any other target the source's loop never ends; that divergence is stated by `OrientationNeverReaches` instead.
- Boards.Board.Place: the source stores the piece before rotating it, and with an unknown id it stores nil and then fails on the nil piece; the model refuses both error cases before touching the board.
- Integer width: Go's `int` is 32 or 64 bits depending on the platform. The checker only compares edge values and counts at most 256 cells, so unbounded integers change nothing.

## Findings

| source | as written | input that shows it | evidently intended | confidence | as-written member | corrected member |
|---|---|---|---|---|---|---|
| eternity.go:26-39 | the loop turns the piece until `Orientation == o`, while `Orientation` only ever takes the values 0..3 | a board cell `0(4)`: the cell pattern at eternity.go:15 accepts any digits, so `SetOrientation(4)` is called and never returns | refuse an orientation outside 0..3 | not executed; the divergence follows from the proved lemma | `Pieces.OrientationNeverReaches` | `Pieces.Piece.SetOrientationChecked` |
