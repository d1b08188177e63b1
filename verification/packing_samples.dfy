/**
 * A worked load for packContainerSmart (src/lib/packingAlgorithm.ts): the
 * packing list's sample line BOX-001, twenty fragile 300 × 200 × 150 mm
 * boxes of 8 kg, in the default 20-ft container. The boxes go eighteen to
 * a row along the length, 320 mm apart (the box and the 20 mm gap); the
 * eighteenth moves the cursor past the row-wrap point, so the last two
 * open a second row 230 mm across (the box's width and the 30 mm row gap).
 * No layer is ever recorded, so the fragile lift is never taken.
 */
module PackingSamples {
  import opened Wrappers
  import opened Collections
  import opened PackingTypes
  import opened ItemKinds
  import opened PackingOrder
  import opened PackingCursor
  import opened Packing

  const Box001: PackingItem := PackingItem("BOX-001", 300.0, 200.0, 150.0, 8.0, 20, true, 6, true, Some(Box))

  /** The working copy of BOX-001 before anything is loaded. */
  const BoxCopy: WorkItem := ToWork(Box001)

  /** Boxes that fit in one row. */
  const RowLength: nat := 18

  /** Adding x n times is n times x. */
  lemma {:induction false} TimesScales(n: nat, x: real)
    ensures Times(n, x) == n as real * x
  {
    if n > 0 {
      TimesScales(n - 1, x);
    }
  }

  /** The cursor once the first n boxes are placed (n up to 20). */
  function BoxCursor(n: nat): Cursor
  {
    if n == 0 then Start
    else if n < RowLength then
      Cursor(320.0 * n as real, 0.0, 0.0, 150.0, 200.0, [], Times(n, 8.0), Times(n, BoxCopy.volume))
    else if n == RowLength then
      Cursor(0.0, 230.0, 0.0, 150.0, 0.0, [], Times(n, 8.0), Times(n, BoxCopy.volume))
    else
      Cursor(320.0 * (n - RowLength) as real, 230.0, 0.0, 150.0, 200.0, [], Times(n, 8.0), Times(n, BoxCopy.volume))
  }

  /** The positions of the first n boxes, one at each cursor in turn. */
  function BoxPositions(n: nat): seq<PlacedItem>
  {
    if n == 0 then [] else BoxPositions(n - 1) + [Position(BoxCursor(n - 1), BoxCopy)]
  }

  /** Each of the twenty boxes goes in at its cursor on the first attempt. */
  lemma BoxFits(n: nat)
    requires n < 20
    ensures Attempt(BoxCursor(n), BoxCopy, DefaultContainer) == Placed(Position(BoxCursor(n), BoxCopy), BoxCursor(n + 1))
  {
    TimesScales(n, 8.0);
    assert BoxCopy.item == Box001;
  }

  /** A unit placed on the first attempt ends the unit's attempts. */
  lemma FirstAttemptPlaces(c: Cursor, w: WorkItem, ct: Container)
    requires Attempt(c, w, ct).Placed?
    ensures Tries(c, w, ct, MaxAttempts) == (Attempt(c, w, ct).next, Some(Attempt(c, w, ct).pos))
  {
  }

  /** The first n boxes all go in, each at the cursor the one before it left. */
  lemma {:induction false} BoxesPlaced(n: nat)
    requires n <= 20
    ensures Units(Start, UnitTry(BoxCopy, DefaultContainer), n) == Run(BoxCursor(n), BoxPositions(n), false)
  {
    if n > 0 {
      BoxesPlaced(n - 1);
      BoxFits(n - 1);
      FirstAttemptPlaces(BoxCursor(n - 1), BoxCopy, DefaultContainer);
      assert UnitTry(BoxCopy, DefaultContainer)(BoxCursor(n - 1))
        == (BoxCursor(n), Some(Position(BoxCursor(n - 1), BoxCopy)));
    }
  }

  /** The unit loop of BOX-001 places all twenty boxes, and 160 kg is loaded. */
  lemma BoxRun()
    ensures UnitRun(Start, BoxCopy, DefaultContainer) == Run(BoxCursor(20), BoxPositions(20), false)
    ensures BoxCursor(20).currentWeight == 160.0
  {
    assert UnitCount(BoxCopy) == 20;
    BoxesPlaced(20);
    TimesScales(20, 8.0);
  }

  /**
   * Where the twenty boxes go: the first eighteen along the floor of the
   * first row at x = 0, 320, …, 5440, the last two at x = 0 and 320 in the
   * row 230 mm across.
   */
  lemma BoxLayout()
    ensures |BoxPositions(20)| == 20
    ensures forall i :: 0 <= i < 20 ==>
      && Depicts(BoxPositions(20)[i], BoxCopy)
      && BoxPositions(20)[i].x == (if i < RowLength then 320.0 * i as real else 320.0 * (i - RowLength) as real)
      && BoxPositions(20)[i].y == (if i < RowLength then 0.0 else 230.0)
      && BoxPositions(20)[i].z == 0.0
  {
    BoxPositionsAt(20);
  }

  /** The i-th of the first n positions is the box at the i-th cursor. */
  lemma {:induction false} BoxPositionsAt(n: nat)
    ensures |BoxPositions(n)| == n
    ensures forall i :: 0 <= i < n ==> BoxPositions(n)[i] == Position(BoxCursor(i), BoxCopy)
  {
    if n > 0 {
      BoxPositionsAt(n - 1);
      assert forall i :: 0 <= i < n - 1 ==> BoxPositions(n)[i] == BoxPositions(n - 1)[i];
    }
  }

  /** Owners all of which are the first copy count |owner| for it. */
  lemma {:induction false} CountOnlyZero(owner: seq<nat>)
    requires InRange(owner, 1)
    ensures Count(owner, 0) == |owner|
  {
    if owner != [] {
      CountOnlyZero(owner[..|owner| - 1]);
    }
  }

  /** A one-line list sorts to the line's own copy. */
  lemma OneLineSorted(item: PackingItem, sorted: seq<WorkItem>)
    requires multiset(sorted) == multiset(Works([item]))
    ensures sorted == [ToWork(item)]
  {
    assert Works([item]) == [ToWork(item)];
    assert |sorted| == |multiset(sorted)| == 1;
    assert sorted[0] in multiset(sorted);
  }

  /** Loading the copies of a list holding BOX-001 alone is BOX-001's unit loop. */
  lemma BoxListLoads(sorted: seq<WorkItem>)
    requires multiset(sorted) == multiset(Works([Box001]))
    ensures |sorted| == 1
    ensures LoadRun(sorted, DefaultContainer, |sorted|) == Load(BoxCursor(20), BoxPositions(20))
  {
    OneLineSorted(Box001, sorted);
    LoadOne(BoxCopy, DefaultContainer);
    BoxRun();
  }

  /**
   * packContainerSmart on BOX-001 alone: all twenty boxes are placed where
   * BoxLayout says, 160 kg is loaded, and nothing is reported unplaced.
   */
  method PackBoxes() returns (r: PackingResult)
    ensures r.positions == BoxPositions(20) && |r.positions| == 20
    ensures r.totalWeight == 160.0
    ensures r.unplacedItems == []
  {
    ghost var sorted, owner, final;
    r, sorted, owner, final := Pack([Box001], DefaultContainer);
    BoxListLoads(sorted);
    BoxRun();
    BoxLayout();
    assert Count(owner, 0) == 20 by {
      CountOnlyZero(owner);
    }
    assert final[0].remainingQty == 0;
    UnplacedExact(final, r.totalWeight, DefaultContainer);
  }
}
