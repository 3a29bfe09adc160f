/** The 16x16 board and its edge-matching validator. */
module Boards {
  import opened Pieces

  /** Width and height of the board. */
  const Size := 16
  /** Largest piece number the validator accepts. */
  const MaxNumber := 255
  /** Index of the last row and of the last column. */
  const Last := Size - 1

  datatype Option<T> = None | Some(value: T)

  /** The four sides of a cell. */
  datatype Direction = Up | Down | Left | Right

  /** Outcome of placing a catalog piece on the board. */
  datatype Placement = Placed | UnknownPiece | BadOrientation

  function Side(e: Edges, d: Direction): int
  {
    match d
    case Up => e.up
    case Down => e.down
    case Left => e.left
    case Right => e.right
  }

  /** The side of a neighbour that faces side `d` of a cell. */
  function Opposite(d: Direction): Direction
  {
    match d
    case Up => Down
    case Down => Up
    case Left => Right
    case Right => Left
  }

  predicate InGrid(x: int, y: int)
  {
    0 <= x < Size && 0 <= y < Size
  }

  /** The cell (column, row) next to (x, y) in direction `d`, or None when that side faces off the grid. */
  function Neighbour(x: int, y: int, d: Direction): (r: Option<(int, int)>)
    ensures r.Some? ==> InGrid(r.value.0, r.value.1)
    ensures r.Some? ==> (r.value.0 == x && (r.value.1 == y - 1 || r.value.1 == y + 1)) ||
                        (r.value.1 == y && (r.value.0 == x - 1 || r.value.0 == x + 1))
    ensures InGrid(x, y) ==>
      (r.None? <==> (d == Up && y == 0) || (d == Down && y == Last) || (d == Left && x == 0) || (d == Right && x == Last))
  {
    var (nx, ny) := match d
      case Up => (x, y - 1)
      case Down => (x, y + 1)
      case Left => (x - 1, y)
      case Right => (x + 1, y);
    if InGrid(nx, ny) then Some((nx, ny)) else None
  }

  /** Grid cells are indexed `Content[y, x]`: row y from the top, column x from the left. */
  class Board {
    const Content: array2<Piece?>

    ghost predicate Valid()
    {
      Content.Length0 == Size && Content.Length1 == Size
    }

    /** An empty board. */
    constructor ()
      ensures Valid() && fresh(Content)
      ensures forall y, x | InGrid(x, y) :: Content[y, x] == null
    {
      Content := new Piece?[Size, Size]((_, _) => null);
    }

    /** The pieces that sit on the board. */
    ghost function OnBoard(): set<Piece>
      reads Content
    {
      set y, x | 0 <= y < Content.Length0 && 0 <= x < Content.Length1 && Content[y, x] != null :: Content[y, x]
    }

    /** The occupied cells, as (row, column) pairs. */
    ghost function Occupied(): set<(int, int)>
      reads Content
      requires Valid()
    {
      set y, x | 0 <= y < Size && 0 <= x < Size && Content[y, x] != null :: (y, x)
    }

    /** The occupied cells that come before (y, x) in row-major order. */
    ghost function OccupiedBefore(y: int, x: int): set<(int, int)>
      reads Content
      requires Valid()
    {
      set y', x' | 0 <= y' < Size && 0 <= x' < Size && (y' < y || (y' == y && x' < x)) && Content[y', x'] != null :: (y', x')
    }

    /** Side `d` of a piece with edges `e` standing at (x, y) satisfies the matching rule:
        facing off the grid it carries the border symbol 0; facing an occupied cell it
        carries the symbol on that cell's opposite side; facing an empty cell it is free. */
    ghost predicate SideFits(x: int, y: int, e: Edges, d: Direction)
      reads Content, OnBoard()
      requires Valid() && InGrid(x, y)
    {
      match Neighbour(x, y, d)
      case None => Side(e, d) == 0
      case Some(n) =>
        var other := Content[n.1, n.0];
        other == null || Side(other.EdgesOf(), Opposite(d)) == Side(e, d)
    }

    /** All four sides of a piece with edges `e` standing at (x, y) satisfy the matching rule. */
    ghost predicate Fits(x: int, y: int, e: Edges)
      reads Content, OnBoard()
      requires Valid() && InGrid(x, y)
    {
      forall d: Direction :: SideFits(x, y, e, d)
    }

    /** Cell (x, y) is empty, or holds a piece with an accepted number whose sides all fit. */
    ghost predicate CellOk(x: int, y: int)
      reads Content, OnBoard()
      requires Valid() && InGrid(x, y)
    {
      var p := Content[y, x];
      p == null || (0 <= p.Number <= MaxNumber && Fits(x, y, p.EdgesOf()))
    }

    /** The board is a correct (possibly partial) solution. */
    ghost predicate Correct()
      reads Content, OnBoard()
      requires Valid()
    {
      forall y, x | InGrid(x, y) :: CellOk(x, y)
    }

    /** The same condition stated once per edge of the grid rather than once per cell side:
        numbers are accepted, border sides carry 0, and each shared edge between two occupied
        cells carries one symbol on both sides. */
    ghost predicate EdgesMatch()
      reads Content, OnBoard()
      requires Valid()
    {
      (forall y, x | InGrid(x, y) && Content[y, x] != null :: 0 <= Content[y, x].Number <= MaxNumber) &&
      (forall x | 0 <= x < Size && Content[0, x] != null :: Content[0, x].Up == 0) &&
      (forall x | 0 <= x < Size && Content[Last, x] != null :: Content[Last, x].Down == 0) &&
      (forall y | 0 <= y < Size && Content[y, 0] != null :: Content[y, 0].Left == 0) &&
      (forall y | 0 <= y < Size && Content[y, Last] != null :: Content[y, Last].Right == 0) &&
      (forall y, x | 0 <= y < Size && 0 <= x < Size - 1 && Content[y, x] != null && Content[y, x + 1] != null ::
         Content[y, x].Right == Content[y, x + 1].Left) &&
      (forall y, x | 0 <= y < Size - 1 && 0 <= x < Size && Content[y, x] != null && Content[y + 1, x] != null ::
         Content[y, x].Down == Content[y + 1, x].Up)
    }

    /** The number of occupied cells. */
    method CountPoints() returns (res: int)
      requires Valid()
      ensures res == |Occupied()|
      ensures 0 <= res <= Size * Size
    {
      res := 0;
      for y := 0 to Size
        invariant res == |OccupiedBefore(y, 0)| && res <= Size * y
      {
        for x := 0 to Size
          invariant res == |OccupiedBefore(y, x)| && res <= Size * y + x
        {
          OccupiedBeforeStep(y, x);
          if Content[y, x] != null {
            res := res + 1;
          }
        }
        OccupiedBeforeNextRow(y);
      }
      assert Occupied() == OccupiedBefore(Size, 0);
    }

    lemma OccupiedBeforeStep(y: int, x: int)
      requires Valid() && InGrid(x, y)
      ensures OccupiedBefore(y, x + 1)
           == OccupiedBefore(y, x) + (if Content[y, x] != null then {(y, x)} else {})
      ensures (y, x) !in OccupiedBefore(y, x)
    {
    }

    lemma OccupiedBeforeNextRow(y: int)
      requires Valid()
      ensures OccupiedBefore(y + 1, 0) == OccupiedBefore(y, Size)
    {
    }

    lemma FitsBySides(x: int, y: int, e: Edges)
      requires Valid() && InGrid(x, y)
      ensures Fits(x, y, e) <==>
        SideFits(x, y, e, Up) && SideFits(x, y, e, Down) && SideFits(x, y, e, Left) && SideFits(x, y, e, Right)
    {
    }

    /** Whether a piece with the edges of `p` may stand at (x, y) given its four neighbours. */
    function CheckPiece(x: int, y: int, p: Piece): (r: bool)
      reads Content, OnBoard(), p
      requires Valid() && InGrid(x, y)
      ensures r <==> Fits(x, y, p.EdgesOf())
    {
      FitsBySides(x, y, p.EdgesOf());
      // Up
      (if y == 0 then p.Up == 0
       else var other := Content[y - 1, x]; other == null || other.Down == p.Up) &&
      // Down
      (if y == Size - 1 then p.Down == 0
       else var other := Content[y + 1, x]; other == null || other.Up == p.Down) &&
      // Left
      (if x == 0 then p.Left == 0
       else var other := Content[y, x - 1]; other == null || other.Right == p.Left) &&
      // Right
      (if x == Size - 1 then p.Right == 0
       else var other := Content[y, x + 1]; other == null || other.Left == p.Right)
    }

    /** Scans the board in row-major order, skipping empty cells, and stops at the first
        piece with a rejected number or a side that does not fit. */
    method IsCorrect() returns (r: bool)
      requires Valid()
      ensures r <==> Correct()
    {
      for y := 0 to Size
        invariant forall y', x' | 0 <= y' < y && 0 <= x' < Size :: CellOk(x', y')
      {
        for x := 0 to Size
          invariant forall y', x' | 0 <= y' < y && 0 <= x' < Size :: CellOk(x', y')
          invariant forall x' | 0 <= x' < x :: CellOk(x', y)
        {
          var p := Content[y, x];
          if p == null {
            continue;
          }

          // A number outside 0..MaxNumber
          if p.Number < 0 || p.Number > MaxNumber {
            assert !CellOk(x, y);
            return false;
          }

          // A side that does not fit
          if !CheckPiece(x, y, p) {
            assert !CellOk(x, y);
            return false;
          }
        }
      }
      return true;
    }

    /** The matching rule is symmetric: side `d` of an occupied cell fits its occupied
        neighbour exactly when the neighbour's opposite side fits back. */
    lemma AdjacentSidesAgree(x: int, y: int, d: Direction)
      requires Valid() && InGrid(x, y)
      requires Neighbour(x, y, d).Some?
      requires Content[y, x] != null
      requires var n := Neighbour(x, y, d).value; Content[n.1, n.0] != null
      ensures var n := Neighbour(x, y, d).value;
        Neighbour(n.0, n.1, Opposite(d)) == Some((x, y)) &&
        (SideFits(x, y, Content[y, x].EdgesOf(), d) <==>
         SideFits(n.0, n.1, Content[n.1, n.0].EdgesOf(), Opposite(d)))
    {
    }

    /** Checking every side of every cell is the same as checking every border side once
        and every shared edge once. */
    lemma CorrectIffEdgesMatch()
      requires Valid()
      ensures Correct() <==> EdgesMatch()
    {
      if Correct() {
        forall y, x | 0 <= y < Size && 0 <= x < Last && Content[y, x] != null && Content[y, x + 1] != null
          ensures Content[y, x].Right == Content[y, x + 1].Left
        {
          assert CellOk(x, y);
          assert SideFits(x, y, Content[y, x].EdgesOf(), Right);
        }
        forall y, x | 0 <= y < Last && 0 <= x < Size && Content[y, x] != null && Content[y + 1, x] != null
          ensures Content[y, x].Down == Content[y + 1, x].Up
        {
          assert CellOk(x, y);
          assert SideFits(x, y, Content[y, x].EdgesOf(), Down);
        }
        forall x | 0 <= x < Size && Content[0, x] != null
          ensures Content[0, x].Up == 0
        {
          assert CellOk(x, 0);
          assert SideFits(x, 0, Content[0, x].EdgesOf(), Up);
        }
        forall x | 0 <= x < Size && Content[Last, x] != null
          ensures Content[Last, x].Down == 0
        {
          assert CellOk(x, Last);
          assert SideFits(x, Last, Content[Last, x].EdgesOf(), Down);
        }
        forall y | 0 <= y < Size && Content[y, 0] != null
          ensures Content[y, 0].Left == 0
        {
          assert CellOk(0, y);
          assert SideFits(0, y, Content[y, 0].EdgesOf(), Left);
        }
        forall y | 0 <= y < Size && Content[y, Last] != null
          ensures Content[y, Last].Right == 0
        {
          assert CellOk(Last, y);
          assert SideFits(Last, y, Content[y, Last].EdgesOf(), Right);
        }
        forall y, x | InGrid(x, y) && Content[y, x] != null
          ensures 0 <= Content[y, x].Number <= MaxNumber
        {
          assert CellOk(x, y);
        }
      }
      if EdgesMatch() {
        forall y, x | InGrid(x, y)
          ensures CellOk(x, y)
        {
          var p := Content[y, x];
          if p != null {
            FitsBySides(x, y, p.EdgesOf());
          }
        }
      }
    }

    /** A board with no piece on it is correct and counts 0. */
    lemma EmptyBoardIsCorrect()
      requires Valid()
      requires forall y, x | InGrid(x, y) :: Content[y, x] == null
      ensures Correct() && Occupied() == {}
    {
    }

    /** A board whose only piece has an accepted number and the border symbol on all four
        sides is correct, wherever that piece stands. */
    lemma SingleBlankPieceIsCorrect(x0: int, y0: int)
      requires Valid() && InGrid(x0, y0)
      requires Content[y0, x0] != null
      requires 0 <= Content[y0, x0].Number <= MaxNumber
      requires Content[y0, x0].EdgesOf() == Edges(0, 0, 0, 0)
      requires forall y, x | InGrid(x, y) && (y, x) != (y0, x0) :: Content[y, x] == null
      ensures Correct() && Occupied() == {(y0, x0)}
    {
      forall y, x | InGrid(x, y)
        ensures CellOk(x, y)
      {
        if (y, x) == (y0, x0) {
          FitsBySides(x, y, Content[y, x].EdgesOf());
        }
      }
    }

    /** A piece whose side `d` faces off the grid with a symbol other than 0 makes the board incorrect. */
    lemma OutwardEdgeIsIncorrect(x: int, y: int, d: Direction)
      requires Valid() && InGrid(x, y)
      requires Content[y, x] != null
      requires Neighbour(x, y, d).None?
      requires Side(Content[y, x].EdgesOf(), d) != 0
      ensures !Correct()
    {
      assert !SideFits(x, y, Content[y, x].EdgesOf(), d);
      assert !CellOk(x, y);
    }

    /** Two occupied neighbours whose facing sides carry different symbols make the board incorrect. */
    lemma MismatchIsIncorrect(x: int, y: int, d: Direction)
      requires Valid() && InGrid(x, y)
      requires Neighbour(x, y, d).Some?
      requires Content[y, x] != null
      requires var n := Neighbour(x, y, d).value;
        Content[n.1, n.0] != null && Side(Content[n.1, n.0].EdgesOf(), Opposite(d)) != Side(Content[y, x].EdgesOf(), d)
      ensures !Correct()
    {
      assert !SideFits(x, y, Content[y, x].EdgesOf(), d);
      assert !CellOk(x, y);
    }

    /** Puts catalog piece `id` at (x, y) turned to orientation `o`. The board holds the
        catalog's own piece object, not a copy: every cell that already holds the same piece
        turns with it. An unknown id or an orientation outside 0..3 is refused. */
    method Place(x: int, y: int, catalog: map<int, Piece>, id: int, o: int) returns (outcome: Placement)
      requires Valid() && InGrid(x, y)
      requires forall k | k in catalog :: catalog[k].Valid()
      modifies Content, if id in catalog then {catalog[id]} else {}
      ensures outcome == UnknownPiece <==> id !in catalog
      ensures outcome == BadOrientation <==> id in catalog && !(0 <= o < 4)
      ensures outcome != Placed ==> unchanged(Content) && (id in catalog ==> unchanged(catalog[id]))
      ensures outcome == Placed ==>
        var p := catalog[id];
        Content[y, x] == p && p.Valid() && p.Orientation == o && p.EdgesOf() == RotateN(p.Canonical, o) &&
        p.Number == old(p.Number) && p.Canonical == old(p.Canonical)
      ensures outcome == Placed ==>
        forall y', x' | InGrid(x', y') && Content[y', x'] == catalog[id] :: Content[y', x'].Orientation == o
      ensures forall y', x' | InGrid(x', y') && (y', x') != (y, x) :: Content[y', x'] == old(Content[y', x'])
    {
      if id !in catalog {
        return UnknownPiece;
      }
      var p := catalog[id];
      var ok := p.SetOrientationChecked(o);
      if !ok {
        return BadOrientation;
      }
      Content[y, x] := p;
      return Placed;
    }
  }

  /** Placing one catalog piece at two cells, as a board that names the same id twice does:
      both cells hold the same object, so both show the orientation of the later placement. */
  method PlaceSamePieceTwice(b: Board, catalog: map<int, Piece>, id: int,
                             x1: int, y1: int, o1: int, x2: int, y2: int, o2: int)
    requires b.Valid() && InGrid(x1, y1) && InGrid(x2, y2) && (y1, x1) != (y2, x2)
    requires id in catalog && 0 <= o1 < 4 && 0 <= o2 < 4
    requires forall k | k in catalog :: catalog[k].Valid()
    modifies b.Content, catalog[id]
    ensures b.Content[y1, x1] == b.Content[y2, x2] == catalog[id]
    ensures b.Content[y1, x1].Orientation == o2
    ensures catalog[id].EdgesOf() == RotateN(catalog[id].Canonical, o2)
  {
    var first := b.Place(x1, y1, catalog, id, o1);
    var second := b.Place(x2, y2, catalog, id, o2);
  }
}
