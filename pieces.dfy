/** Pieces of a 16x16 edge-matching puzzle and their quarter-turn rotation. */
module Pieces {

  /** The four edge symbols of a piece, as seen in its current orientation; 0 is the border symbol. */
  datatype Edges = Edges(up: int, down: int, left: int, right: int)

  /** One clockwise quarter-turn: Up takes the old Left, Right the old Up,
      Down the old Right and Left the old Down. */
  function Rotate(e: Edges): Edges
  {
    Edges(up := e.left, down := e.right, left := e.down, right := e.up)
  }

  /** `n` consecutive quarter-turns. */
  function RotateN(e: Edges, n: nat): Edges
    decreases n
  {
    if n == 0 then e else Rotate(RotateN(e, n - 1))
  }

  /** The symbol values a piece carries, regardless of which side they are on. */
  function EdgeMultiset(e: Edges): multiset<int>
  {
    multiset{e.up, e.down, e.left, e.right}
  }

  /** The orientation counter after one step of the rotation loop: increment, wrap above 3. */
  function NextOrientation(k: int): int
  {
    if k + 1 > 3 then 0 else k + 1
  }

  /** The orientation counter after `n` steps of the rotation loop. */
  function OrientationAfter(k: int, n: nat): int
    decreases n
  {
    if n == 0 then k else NextOrientation(OrientationAfter(k, n - 1))
  }

  /** Number of quarter-turns that take orientation `from` to orientation `to`. */
  function Steps(from: int, to: int): nat
    requires 0 <= from < 4 && 0 <= to < 4
  {
    if from <= to then to - from else to - from + 4
  }

  /** A single quarter-turn never changes which four values the piece carries. */
  lemma RotatePreservesMultiset(e: Edges)
    ensures EdgeMultiset(Rotate(e)) == EdgeMultiset(e)
  {
  }

  /** Four quarter-turns restore the original edges: rotation has order 4. */
  lemma RotateFourIsIdentity(e: Edges)
    ensures RotateN(e, 4) == e
  {
    assert RotateN(e, 1) == Rotate(e);
    assert RotateN(e, 2) == Rotate(Rotate(e));
    assert RotateN(e, 3) == Rotate(Rotate(Rotate(e)));
  }

  /** Turning `m` times and then `n` times is turning `m + n` times. */
  lemma {:induction false} RotateNAdd(e: Edges, m: nat, n: nat)
    ensures RotateN(RotateN(e, m), n) == RotateN(e, m + n)
    decreases n
  {
    if n > 0 {
      RotateNAdd(e, m, n - 1);
    }
  }

  /** Only the number of turns modulo 4 matters. */
  lemma {:induction false} RotateNModFour(e: Edges, n: nat)
    ensures RotateN(e, n) == RotateN(e, n % 4)
    decreases n
  {
    if n >= 4 {
      RotateNModFour(e, n - 4);
      RotateNAdd(e, n - 4, 4);
      RotateFourIsIdentity(RotateN(e, n - 4));
      assert n % 4 == (n - 4) % 4;
    }
  }

  /** Any number of quarter-turns never changes which four values the piece carries. */
  lemma RotateNPreservesMultiset(e: Edges, n: nat)
    ensures EdgeMultiset(RotateN(e, n)) == EdgeMultiset(e)
  {
    RotateNModFour(e, n);
    var turned := RotateN(e, n % 4);
    if n % 4 == 1 {
      assert turned == Rotate(e);
      RotatePreservesMultiset(e);
    } else if n % 4 == 2 {
      assert turned == Rotate(Rotate(e));
      RotatePreservesMultiset(e);
      RotatePreservesMultiset(Rotate(e));
    } else if n % 4 == 3 {
      assert turned == Rotate(Rotate(Rotate(e)));
      RotatePreservesMultiset(e);
      RotatePreservesMultiset(Rotate(e));
      RotatePreservesMultiset(Rotate(Rotate(e)));
    }
  }

  /** From a valid orientation the counter runs through 0, 1, 2, 3 cyclically. */
  lemma {:induction false} OrientationCycle(k: int, n: nat)
    requires 0 <= k < 4
    ensures OrientationAfter(k, n) == (k + n) % 4
    decreases n
  {
    if n > 0 {
      OrientationCycle(k, n - 1);
    }
  }

  /** The rotation loop's guard `o != Orientation` first fails after exactly `Steps(from, to)` steps. */
  lemma LoopStopsAtSteps(from: int, to: int)
    requires 0 <= from < 4 && 0 <= to < 4
    ensures Steps(from, to) <= 3
    ensures OrientationAfter(from, Steps(from, to)) == to
    ensures forall m: nat | m < Steps(from, to) :: OrientationAfter(from, m) != to
  {
    OrientationCycle(from, Steps(from, to));
    forall m: nat | m < Steps(from, to)
      ensures OrientationAfter(from, m) != to
    {
      OrientationCycle(from, m);
    }
  }

  /** For a target outside 0..3 the counter never reaches it, so the source's loop never stops. */
  lemma OrientationNeverReaches(k: int, o: int, n: nat)
    requires 0 <= k < 4
    requires o < 0 || o > 3
    ensures OrientationAfter(k, n) != o
  {
    OrientationCycle(k, n);
  }

  /** Turning the edges of orientation `from` by `Steps(from, to)` quarter-turns gives the edges of orientation `to`. */
  lemma TurnFromTo(canonical: Edges, from: int, to: int)
    requires 0 <= from < 4 && 0 <= to < 4
    ensures RotateN(RotateN(canonical, from), Steps(from, to)) == RotateN(canonical, to)
  {
    RotateNAdd(canonical, from, Steps(from, to));
    if from > to {
      RotateNAdd(canonical, to, 4);
      RotateFourIsIdentity(RotateN(canonical, to));
    }
  }

  /** Turning to orientation `a` and then to `b` gives the same edges as turning to `b` directly. */
  lemma SetOrientationComposes(canonical: Edges, k: int, a: int, b: int)
    requires 0 <= k < 4 && 0 <= a < 4 && 0 <= b < 4
    ensures RotateN(RotateN(RotateN(canonical, k), Steps(k, a)), Steps(a, b))
         == RotateN(RotateN(canonical, k), Steps(k, b))
  {
    TurnFromTo(canonical, k, a);
    TurnFromTo(canonical, a, b);
    TurnFromTo(canonical, k, b);
  }

  /** Turning the edges of orientation `k` once more gives the edges of the next orientation. */
  lemma RotateToNext(canonical: Edges, k: int)
    requires 0 <= k < 4
    ensures 0 <= NextOrientation(k) < 4
    ensures RotateN(canonical, NextOrientation(k)) == Rotate(RotateN(canonical, k))
  {
    if k == 3 {
      RotateFourIsIdentity(canonical);
    }
  }

  /** A puzzle piece: its current edges, orientation and catalog number. */
  class Piece {
    var Up: int
    var Down: int
    var Left: int
    var Right: int
    var Orientation: int
    var Number: int
    /** The edges the piece has in orientation 0, as the catalog lists them. */
    ghost var Canonical: Edges

    function EdgesOf(): Edges
      reads this
    {
      Edges(Up, Down, Left, Right)
    }

    /** The orientation is one of 0..3 and the edges are the canonical ones turned that many times. */
    ghost predicate Valid()
      reads this
    {
      0 <= Orientation < 4 && EdgesOf() == RotateN(Canonical, Orientation)
    }

    /** A piece as the catalog creates it: canonical edges, orientation 0. */
    constructor (up: int, down: int, left: int, right: int, number: int)
      ensures Valid() && Orientation == 0 && Number == number
      ensures EdgesOf() == Edges(up, down, left, right) && Canonical == EdgesOf()
    {
      Up, Down, Left, Right := up, down, left, right;
      Orientation, Number := 0, number;
      Canonical := Edges(up, down, left, right);
    }

    /** One step of the rotation loop: a clockwise quarter-turn of the four edges and the
        orientation counter incremented, wrapping from 3 to 0. */
    method Turn()
      requires Valid()
      modifies this
      ensures Valid() && Canonical == old(Canonical) && Number == old(Number)
      ensures EdgesOf() == Rotate(old(EdgesOf()))
      ensures Orientation == NextOrientation(old(Orientation))
    {
      RotateToNext(Canonical, Orientation);
      var oldLeft := Left;
      Left := Down;
      Down := Right;
      Right := Up;
      Up := oldLeft;

      Orientation := Orientation + 1;
      if Orientation > 3 {
        Orientation := 0;
      }
    }

    /** Turns the piece clockwise, a quarter at a time, until its orientation is `o`.
        `steps` is the number of quarter-turns made. */
    method SetOrientation(o: int) returns (ghost steps: nat)
      requires Valid()
      requires 0 <= o < 4
      modifies this
      ensures Valid() && Orientation == o
      ensures Canonical == old(Canonical) && Number == old(Number)
      ensures steps == Steps(old(Orientation), o) && steps <= 3
      ensures EdgesOf() == RotateN(old(EdgesOf()), steps)
      ensures EdgesOf() == RotateN(Canonical, o)
      ensures old(Orientation) == o ==> EdgesOf() == old(EdgesOf())
      ensures EdgeMultiset(EdgesOf()) == EdgeMultiset(old(EdgesOf()))
    {
      steps := 0;
      while o != Orientation
        invariant Valid() && Canonical == old(Canonical) && Number == old(Number)
        invariant steps + Steps(Orientation, o) == Steps(old(Orientation), o)
        decreases Steps(Orientation, o)
      {
        Turn();
        steps := steps + 1;
      }
      ghost var start, turned := old(EdgesOf()), EdgesOf();
      assert steps == Steps(old(Orientation), o);
      assert start == RotateN(Canonical, old(Orientation)) && turned == RotateN(Canonical, o);
      TurnFromTo(Canonical, old(Orientation), o);
      assert turned == RotateN(start, steps);
      RotateNPreservesMultiset(start, steps);
      assert EdgeMultiset(turned) == EdgeMultiset(start);
    }

    /** SetOrientation with the target checked first: a target outside 0..3 is refused
        and leaves the piece as it was. */
    method SetOrientationChecked(o: int) returns (ok: bool)
      requires Valid()
      modifies this
      ensures Valid() && Canonical == old(Canonical) && Number == old(Number)
      ensures ok <==> 0 <= o < 4
      ensures ok ==> Orientation == o && EdgesOf() == RotateN(Canonical, o)
      ensures !ok ==> unchanged(this)
    {
      ok := 0 <= o < 4;
      if ok {
        ghost var steps := SetOrientation(o);
      }
    }
  }
}
