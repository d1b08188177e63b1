/**
 * The shelf packer's cursor (src/lib/packingAlgorithm.ts, the placement
 * loops of packContainerSmart). Units are laid left to right along the
 * container's length in rows; rows advance across its width; when the
 * width is used up a new layer starts above the tallest unit of the last
 * row. One attempt to place a unit is a step on the cursor state.
 */
module PackingCursor {
  import opened Wrappers
  import opened PackingTypes
  import opened ItemKinds
  import opened PackingOrder

  /** A finished layer: its floor height and the height of its tallest unit. */
  datatype Layer = Layer(z: real, height: real)

  /** The packer's running state: the cursor, the current row and layer, and the load so far. */
  datatype Cursor = Cursor(
    xCursor: real,
    yCursor: real,
    z: real,
    rowHeight: real,
    rowMaxY: real,
    layers: seq<Layer>,
    currentWeight: real,
    usedVolume: real)

  /** The state before anything is loaded. */
  const Start: Cursor := Cursor(0.0, 0.0, 0.0, 0.0, 0.0, [], 0.0, 0.0)

  /** Gaps left between units in a row, between rows and between layers (mm). */
  const ItemGap: real := 20.0
  const RowGap: real := 30.0
  const LayerGap: real := 50.0
  /** A row ends when less than this length is left after a unit (mm). */
  const RowWrap: real := 300.0
  /** A layer ends when less than this width is left after a row (mm). */
  const LayerWrap: real := 500.0
  /** Fragile units are meant to go above this height (mm). */
  const FragileFloor: real := 300.0
  /** Attempts made for each unit. */
  const MaxAttempts: nat := 10

  /** What one attempt does: place the unit, move the cursor, lift it for a fragile unit, or give up. */
  datatype Step = Placed(pos: PlacedItem, next: Cursor) | Moved(next: Cursor) | Raised(next: Cursor) | Blocked

  /** x added n times, as the running totals add one unit at a time. */
  function Times(n: nat, x: real): real
  {
    if n == 0 then 0.0 else Times(n - 1, x) + x
  }

  function Max(a: real, b: real): real
  {
    if a >= b then a else b
  }

  /** layers.find(l => l.z >= 300): the first layer whose floor is at the fragile height. */
  function FirstHigh(layers: seq<Layer>): (r: Option<Layer>)
    ensures r.Some? ==> r.value in layers && r.value.z >= FragileFloor
    ensures r.None? <==> forall k :: 0 <= k < |layers| ==> layers[k].z < FragileFloor
  {
    if layers == [] then None
    else if layers[0].z >= FragileFloor then Some(layers[0])
    else
      var r := FirstHigh(layers[1..]);
      assert forall k :: 1 <= k < |layers| ==> layers[k] == layers[1..][k - 1];
      r
  }

  /** Closes the layer (recording it when its row height is positive) and starts the next above it. */
  function NextLayer(c: Cursor): Cursor
  {
    c.(layers := if c.rowHeight > 0.0 then c.layers + [Layer(c.z, c.rowHeight)] else c.layers,
       z := c.z + c.rowHeight + LayerGap,
       xCursor := 0.0, yCursor := 0.0, rowHeight := 0.0, rowMaxY := 0.0)
  }

  /** Where the unit lands: at the cursor, with the item's extent, id, colour and type. */
  function Position(c: Cursor, w: WorkItem): PlacedItem
  {
    PlacedItem(w.item.id, c.xCursor, c.yCursor, c.z, w.item.length, w.item.width, w.item.height,
      GetItemColor(w.kind), w.item.id, w.kind)
  }

  /**
   * The state after a unit is placed: its weight and volume are loaded, the
   * cursor moves past it, and the row or layer wraps when little room is left.
   */
  function Advance(c: Cursor, w: WorkItem, ct: Container): Cursor
  {
    var x := c.xCursor + w.item.length + ItemGap;
    var rowMaxY := Max(c.rowMaxY, w.item.width);
    var loaded := c.(usedVolume := c.usedVolume + w.volume, currentWeight := c.currentWeight + w.item.weight,
                     xCursor := x, rowHeight := Max(c.rowHeight, w.item.height), rowMaxY := rowMaxY);
    if x + RowWrap > ct.length then
      var y := c.yCursor + rowMaxY + RowGap;
      var wrapped := loaded.(xCursor := 0.0, yCursor := y, rowMaxY := 0.0);
      if y + LayerWrap > ct.width then NextLayer(wrapped) else wrapped
    else loaded
  }

  /** The state after a unit did not fit across: a new row, or a new layer when the row would not fit. */
  function NextRow(c: Cursor, w: WorkItem, ct: Container): Cursor
  {
    var y := c.yCursor + c.rowMaxY + RowGap;
    var wrapped := c.(xCursor := 0.0, yCursor := y, rowMaxY := 0.0);
    if y + w.item.width > ct.width then NextLayer(wrapped) else wrapped
  }

  /** The unit lies inside the container. */
  predicate InContainer(p: PlacedItem, ct: Container)
  {
    p.x + p.l <= ct.length && p.y + p.w <= ct.width && p.z + p.h <= ct.height
  }

  /** The position is one unit of the working copy: its id, extent, label, type and colour. */
  predicate Depicts(p: PlacedItem, w: WorkItem)
  {
    && p.itemId == w.item.id && p.labelText == w.item.id
    && p.l == w.item.length && p.w == w.item.width && p.h == w.item.height
    && p.itemType == w.kind && p.color == ItemColor(w.kind)
  }

  /**
   * One pass of the placement loop. A unit that fits at the cursor on all
   * three axes and within the weight limit is placed, unless it is fragile,
   * the floor is below the fragile height and a recorded layer at that
   * height has room, in which case the cursor is lifted there instead. A
   * unit too long or too wide for the cursor moves it to the next row or
   * layer; one too tall or too heavy ends the attempts.
   */
  function Attempt(c: Cursor, w: WorkItem, ct: Container): (s: Step)
    ensures s.Placed? ==> s.pos == Position(c, w) && Depicts(s.pos, w) && InContainer(s.pos, ct)
    ensures s.Placed? ==> s.next.currentWeight == c.currentWeight + w.item.weight <= ct.maxWeight
    ensures s.Placed? ==> s.next.usedVolume == c.usedVolume + w.volume
    ensures !s.Placed? && !s.Blocked? ==> s.next.currentWeight == c.currentWeight && s.next.usedVolume == c.usedVolume
    ensures s.Blocked? <==> (c.xCursor + w.item.length <= ct.length && c.yCursor + w.item.width <= ct.width
      && !(c.z + w.item.height <= ct.height && c.currentWeight + w.item.weight <= ct.maxWeight))
  {
    var fitsX := c.xCursor + w.item.length <= ct.length;
    var fitsY := c.yCursor + w.item.width <= ct.width;
    var fitsZ := c.z + w.item.height <= ct.height;
    var weightOk := c.currentWeight + w.item.weight <= ct.maxWeight;
    if fitsX && fitsY && fitsZ && weightOk then
      var higher := FirstHigh(c.layers);
      if w.item.fragile && c.z < FragileFloor && |c.layers| > 0
         && higher.Some? && higher.value.z + w.item.height <= ct.height then
        Raised(c.(z := higher.value.z, xCursor := 0.0, yCursor := 0.0))
      else
        Placed(Position(c, w), Advance(c, w, ct))
    else if !fitsX || !fitsY then
      Moved(NextRow(c, w, ct))
    else
      Blocked
  }

  /**
   * What every state of the packer satisfies: the cursor's y, the floor and
   * the row extents are non-negative, and while the floor is below the
   * fragile height every recorded layer lies below the floor.
   */
  ghost predicate Sound(c: Cursor)
  {
    && c.yCursor >= 0.0 && c.z >= 0.0 && c.rowHeight >= 0.0 && c.rowMaxY >= 0.0
    && (c.z < FragileFloor ==> forall k :: 0 <= k < |c.layers| ==> c.layers[k].z < c.z)
  }

  lemma NextLayerSound(c: Cursor)
    requires Sound(c)
    ensures Sound(NextLayer(c)) && NextLayer(c).z > c.z
  {
    var n := NextLayer(c);
    if n.z < FragileFloor {
      forall k | 0 <= k < |n.layers| ensures n.layers[k].z < n.z {
        if k < |c.layers| {
          assert n.layers[k] == c.layers[k];
        }
      }
    }
  }

  /**
   * Every attempt keeps the state sound, never lowers the floor, and keeps
   * the cursor's x non-negative when the unit's length is.
   */
  lemma AttemptSound(c: Cursor, w: WorkItem, ct: Container)
    requires Sound(c)
    ensures !Attempt(c, w, ct).Blocked? ==> Sound(Attempt(c, w, ct).next) && Attempt(c, w, ct).next.z >= c.z
    ensures !Attempt(c, w, ct).Blocked? && c.xCursor >= 0.0 && w.item.length >= 0.0 ==>
      Attempt(c, w, ct).next.xCursor >= 0.0
  {
    RaiseNeverTaken(c, w, ct);
    var s := Attempt(c, w, ct);
    match s
    case Placed(_, next) =>
      var x := c.xCursor + w.item.length + ItemGap;
      if x + RowWrap > ct.length {
        var y := c.yCursor + Max(c.rowMaxY, w.item.width) + RowGap;
        var wrapped := c.(usedVolume := c.usedVolume + w.volume, currentWeight := c.currentWeight + w.item.weight,
                          xCursor := 0.0, yCursor := y, rowHeight := Max(c.rowHeight, w.item.height), rowMaxY := 0.0);
        assert Sound(wrapped);
        if y + LayerWrap > ct.width {
          NextLayerSound(wrapped);
        }
      }
    case Moved(next) =>
      var y := c.yCursor + c.rowMaxY + RowGap;
      var wrapped := c.(xCursor := 0.0, yCursor := y, rowMaxY := 0.0);
      if y + w.item.width > ct.width {
        NextLayerSound(wrapped);
      }
    case Blocked =>
  }

  /**
   * The fragile lift never happens: while the floor is below the fragile
   * height every recorded layer is below the floor, so no layer reaches
   * the fragile height.
   */
  lemma RaiseNeverTaken(c: Cursor, w: WorkItem, ct: Container)
    requires Sound(c)
    ensures !Attempt(c, w, ct).Raised?
  {
    if c.z < FragileFloor {
      assert FirstHigh(c.layers).None?;
    }
  }

  /**
   * Every recorded layer lies below the current floor, and stays so after
   * each attempt: layers are recorded with the floor they had before it rose.
   */
  lemma LayersStayBelow(c: Cursor, w: WorkItem, ct: Container)
    requires Sound(c) && forall k :: 0 <= k < |c.layers| ==> c.layers[k].z < c.z
    ensures !Attempt(c, w, ct).Blocked? ==>
      forall k :: 0 <= k < |Attempt(c, w, ct).next.layers| ==> Attempt(c, w, ct).next.layers[k].z < Attempt(c, w, ct).next.z
  {
    RaiseNeverTaken(c, w, ct);
    AttemptSound(c, w, ct);
    var s := Attempt(c, w, ct);
    if !s.Blocked? {
      var n := s.next;
      forall k | 0 <= k < |n.layers| ensures n.layers[k].z < n.z {
        if k < |c.layers| {
          assert n.layers[k] == c.layers[k];
        }
      }
    }
  }

  /**
   * A unit wider or taller than the container is never placed, nor one
   * longer than it while the cursor's x is non-negative.
   */
  lemma OversizeNeverPlaced(c: Cursor, w: WorkItem, ct: Container)
    requires Sound(c)
    requires w.item.width > ct.width || w.item.height > ct.height || (c.xCursor >= 0.0 && w.item.length > ct.length)
    ensures !Attempt(c, w, ct).Placed?
  {
  }

  /**
   * The attempts for one unit, at most k of them: the cursor after the
   * attempts and the position the unit was placed at, if any. A move or a
   * lift uses up an attempt; a unit too tall or too heavy ends them at once.
   */
  function Tries(c: Cursor, w: WorkItem, ct: Container, k: nat): (Cursor, Option<PlacedItem>)
    decreases k
  {
    if k == 0 then (c, None)
    else
      match Attempt(c, w, ct)
      case Placed(pos, next) => (next, Some(pos))
      case Blocked => (c, None)
      case Moved(next) => Tries(next, w, ct, k - 1)
      case Raised(next) => Tries(next, w, ct, k - 1)
  }

  /**
   * What one unit's attempts keep, from cursor c to the outcome t: the
   * state stays sound and the floor never drops; a placed unit depicts the
   * copy inside the container, within the weight limit, and adds its weight
   * and volume; a unit not placed leaves the load unchanged; x stays
   * non-negative for a non-negative length; an oversize unit is never placed.
   */
  ghost predicate KeepsSound(c: Cursor, t: (Cursor, Option<PlacedItem>), w: WorkItem, ct: Container)
  {
    var (c', pos) := t;
    && Sound(c') && c'.z >= c.z
    && (pos.Some? ==> Depicts(pos.value, w) && InContainer(pos.value, ct))
    && (pos.Some? ==> pos.value.y >= 0.0 && pos.value.z >= 0.0)
    && (pos.Some? ==> c'.currentWeight == c.currentWeight + w.item.weight <= ct.maxWeight)
    && (pos.Some? ==> c'.usedVolume == c.usedVolume + w.volume)
    && (pos.None? ==> c'.currentWeight == c.currentWeight && c'.usedVolume == c.usedVolume)
    && (c.xCursor >= 0.0 && w.item.length >= 0.0 ==> c'.xCursor >= 0.0 && (pos.Some? ==> pos.value.x >= 0.0))
    && (w.item.width > ct.width || w.item.height > ct.height || (c.xCursor >= 0.0 && 0.0 <= ct.length < w.item.length)
        ==> pos.None?)
  }

  /** The attempts for one unit, from any sound cursor, keep what KeepsSound lists. */
  lemma {:induction false} TriesSound(c: Cursor, w: WorkItem, ct: Container, k: nat)
    requires Sound(c)
    ensures KeepsSound(c, Tries(c, w, ct, k), w, ct)
    decreases k
  {
    if k > 0 {
      AttemptSound(c, w, ct);
      var s := Attempt(c, w, ct);
      if w.item.width > ct.width || w.item.height > ct.height || (c.xCursor >= 0.0 && 0.0 <= ct.length < w.item.length) {
        OversizeNeverPlaced(c, w, ct);
      }
      if s.Moved? || s.Raised? {
        TriesSound(s.next, w, ct, k - 1);
      }
    }
  }

  /**
   * The attempts for one unit: up to ten attempts to place it, stopping at
   * the first placement or at a unit too tall or too heavy for the cursor.
   */
  method PlaceUnit(start: Cursor, w: WorkItem, ct: Container) returns (c: Cursor, pos: Option<PlacedItem>)
    requires Sound(start)
    ensures (c, pos) == Tries(start, w, ct, MaxAttempts)
    ensures KeepsSound(start, (c, pos), w, ct)
  {
    c, pos := start, None;
    var placed := false;
    var attempts := 0;
    while !placed && attempts < MaxAttempts
      invariant 0 <= attempts <= MaxAttempts
      invariant placed <==> pos.Some?
      invariant placed ==> (c, pos) == Tries(start, w, ct, MaxAttempts)
      invariant !placed ==> Tries(c, w, ct, MaxAttempts - attempts) == Tries(start, w, ct, MaxAttempts)
      decreases MaxAttempts - attempts
    {
      ghost var left := MaxAttempts - attempts;
      attempts := attempts + 1;
      var step := Attempt(c, w, ct);
      if step.Placed? {
        pos := Some(step.pos);
        c := step.next;
        placed := true;
      } else if step.Blocked? {
        break;
      } else {
        assert Tries(step.next, w, ct, left - 1) == Tries(c, w, ct, left);
        c := step.next;
      }
    }
    TriesSound(start, w, ct, MaxAttempts);
  }

  /** The state of the unit loop for one copy: the cursor, the units placed, and whether a unit failed. */
  datatype Run = Run(c: Cursor, placed: seq<PlacedItem>, stopped: bool)

  /** The number of units the unit loop tries: the units left, none when that is not positive. */
  function UnitCount(w: WorkItem): nat
  {
    if w.remainingQty > 0 then w.remainingQty else 0
  }

  /** The attempts for one unit of a copy, as a function of the cursor they start from. */
  function UnitTry(w: WorkItem, ct: Container): Cursor -> (Cursor, Option<PlacedItem>)
  {
    c => Tries(c, w, ct, MaxAttempts)
  }

  /**
   * A stand-in for UnitTry(w, ct) that agrees with it wherever the attempts
   * from a cursor are in view; reasoning about the unit loop through it
   * keeps each turn's attempts folded.
   */
  lemma {:induction false} StandIn(w: WorkItem, ct: Container) returns (tryUnit: Cursor -> (Cursor, Option<PlacedItem>))
    ensures forall c {:trigger Tries(c, w, ct, MaxAttempts)} :: tryUnit(c) == Tries(c, w, ct, MaxAttempts)
  {
    tryUnit := UnitTry(w, ct);
  }

  /** Two unit loops whose attempts agree at every cursor run alike. */
  lemma {:induction false} UnitsAgree(start: Cursor, f: Cursor -> (Cursor, Option<PlacedItem>), g: Cursor -> (Cursor, Option<PlacedItem>), n: nat)
    requires forall c :: f(c) == g(c)
    ensures Units(start, f, n) == Units(start, g, n)
  {
    if n > 0 {
      UnitsAgree(start, f, g, n - 1);
    }
  }

  /**
   * A unit loop after n turns, each turn trying one unit with tryUnit from
   * the cursor the last turn left; the first unit not placed stops the
   * loop, and later turns change nothing.
   */
  function Units(start: Cursor, tryUnit: Cursor -> (Cursor, Option<PlacedItem>), n: nat): Run
  {
    if n == 0 then Run(start, [], false)
    else
      var r := Units(start, tryUnit, n - 1);
      if r.stopped then r
      else
        var t := tryUnit(r.c);
        if t.1.None? then Run(t.0, r.placed, true) else Run(t.0, r.placed + [t.1.value], false)
  }

  /** The unit loop for one working copy: one turn per unit left. */
  function UnitRun(start: Cursor, w: WorkItem, ct: Container): Run
  {
    Units(start, UnitTry(w, ct), UnitCount(w))
  }

  /**
   * A run that has not stopped placed one unit per turn; a stopped run
   * placed fewer, and stays as it is.
   */
  lemma {:induction false} UnitsCount(start: Cursor, tryUnit: Cursor -> (Cursor, Option<PlacedItem>), n: nat)
    ensures !Units(start, tryUnit, n).stopped ==> |Units(start, tryUnit, n).placed| == n
    ensures Units(start, tryUnit, n).stopped ==> |Units(start, tryUnit, n).placed| < n
    ensures Units(start, tryUnit, n).stopped ==> Units(start, tryUnit, n + 1) == Units(start, tryUnit, n)
  {
    if n > 0 {
      UnitsCount(start, tryUnit, n - 1);
    }
  }

  /** Once a unit loop has stopped, further turns change nothing. */
  lemma {:induction false} StoppedStays(start: Cursor, tryUnit: Cursor -> (Cursor, Option<PlacedItem>), m: nat, n: nat)
    requires m <= n && Units(start, tryUnit, m).stopped
    ensures Units(start, tryUnit, n) == Units(start, tryUnit, m)
    decreases n - m
  {
    if m < n {
      UnitsCount(start, tryUnit, m);
      StoppedStays(start, tryUnit, m + 1, n);
    }
  }

  /** A unit loop whose first unit cannot be placed stops there and places nothing. */
  lemma FirstUnitFails(start: Cursor, tryUnit: Cursor -> (Cursor, Option<PlacedItem>), n: nat)
    requires n >= 1 && tryUnit(start).1.None?
    ensures Units(start, tryUnit, n) == Run(tryUnit(start).0, [], true)
  {
    assert Units(start, tryUnit, 1) == Run(tryUnit(start).0, [], true);
    StoppedStays(start, tryUnit, 1, n);
  }

  /**
   * No unit of a copy wider or taller than the container is loaded, nor of
   * one longer than it when the cursor's x is non-negative; the load is
   * left as it was.
   */
  lemma OversizeRunEmpty(start: Cursor, w: WorkItem, ct: Container)
    requires Sound(start)
    requires w.item.width > ct.width || w.item.height > ct.height || (start.xCursor >= 0.0 && 0.0 <= ct.length < w.item.length)
    ensures UnitRun(start, w, ct).placed == []
    ensures UnitRun(start, w, ct).c.currentWeight == start.currentWeight
    ensures UnitRun(start, w, ct).c.usedVolume == start.usedVolume
  {
    if UnitCount(w) >= 1 {
      TriesSound(start, w, ct, MaxAttempts);
      assert UnitTry(w, ct)(start) == Tries(start, w, ct, MaxAttempts);
      FirstUnitFails(start, UnitTry(w, ct), UnitCount(w));
    }
  }

  /** The attempts for one unit keep what KeepsSound lists from every sound cursor. */
  ghost predicate TriesKeepSound(tryUnit: Cursor -> (Cursor, Option<PlacedItem>), w: WorkItem, ct: Container)
  {
    forall c :: Sound(c) ==> KeepsSound(c, tryUnit(c), w, ct)
  }

  lemma UnitTrySound(w: WorkItem, ct: Container)
    ensures TriesKeepSound(UnitTry(w, ct), w, ct)
  {
    forall c | Sound(c) ensures KeepsSound(c, UnitTry(w, ct)(c), w, ct) {
      TriesSound(c, w, ct, MaxAttempts);
    }
  }

  /**
   * What a unit loop keeps from cursor start to cursor c with the units
   * placed: the state stays sound and the floor never drops; every placed
   * unit depicts the copy inside the container; the load grows by the
   * placed units' weight and volume and stays within the limit once a unit
   * is placed; x stays non-negative for a non-negative length.
   */
  ghost predicate RunKeepsSound(start: Cursor, c: Cursor, placed: seq<PlacedItem>, w: WorkItem, ct: Container)
  {
    && Sound(c) && c.z >= start.z
    && (forall p :: 0 <= p < |placed| ==> Depicts(placed[p], w) && InContainer(placed[p], ct))
    && (forall p :: 0 <= p < |placed| ==> placed[p].y >= 0.0 && placed[p].z >= 0.0)
    && c.currentWeight == start.currentWeight + Times(|placed|, w.item.weight)
    && c.usedVolume == start.usedVolume + Times(|placed|, w.volume)
    && (placed != [] ==> c.currentWeight <= ct.maxWeight)
    && (start.xCursor >= 0.0 && w.item.length >= 0.0 ==>
          c.xCursor >= 0.0 && forall p :: 0 <= p < |placed| ==> placed[p].x >= 0.0)
  }

  /**
   * A unit loop whose every unit's attempts keep what KeepsSound lists
   * keeps what RunKeepsSound lists after any number of turns, and places
   * at most one unit per turn.
   */
  lemma {:induction false} UnitsSound(start: Cursor, tryUnit: Cursor -> (Cursor, Option<PlacedItem>), w: WorkItem, ct: Container, n: nat)
    requires Sound(start) && TriesKeepSound(tryUnit, w, ct)
    ensures RunKeepsSound(start, Units(start, tryUnit, n).c, Units(start, tryUnit, n).placed, w, ct)
    ensures |Units(start, tryUnit, n).placed| <= n
  {
    if n > 0 {
      UnitsSound(start, tryUnit, w, ct, n - 1);
      var r := Units(start, tryUnit, n - 1);
      if !r.stopped {
        TurnSound(start, r.c, r.placed, tryUnit(r.c), w, ct);
      }
    }
  }

  /** One more turn whose attempts keep what KeepsSound lists keeps what RunKeepsSound lists. */
  lemma TurnSound(start: Cursor, c: Cursor, placed: seq<PlacedItem>, t: (Cursor, Option<PlacedItem>), w: WorkItem, ct: Container)
    requires RunKeepsSound(start, c, placed, w, ct) && KeepsSound(c, t, w, ct)
    ensures RunKeepsSound(start, t.0, if t.1.None? then placed else placed + [t.1.value], w, ct)
  {
    if t.1.Some? {
      var placed' := placed + [t.1.value];
      assert forall p :: 0 <= p < |placed| ==> placed'[p] == placed[p];
      assert placed'[|placed|] == t.1.value;
    }
  }

  /**
   * The units of one working copy: placed one after another until all are
   * placed or one fails, after which no further unit of the copy is tried.
   */
  method PlaceItem(start: Cursor, w: WorkItem, ct: Container) returns (c: Cursor, placed: seq<PlacedItem>)
    requires Sound(start)
    ensures c == UnitRun(start, w, ct).c && placed == UnitRun(start, w, ct).placed
    ensures RunKeepsSound(start, c, placed, w, ct)
    ensures |placed| <= w.remainingQty || placed == []
  {
    ghost var tryUnit := StandIn(w, ct);
    c, placed := start, [];
    var i: nat := 0;
    var stopped := false;
    while i < w.remainingQty && !stopped
      invariant i <= UnitCount(w)
      invariant Units(start, tryUnit, i) == Run(c, placed, stopped)
      invariant Sound(c)
    {
      var c', pos := PlaceUnit(c, w, ct);
      c := c';
      if pos.None? {
        stopped := true;
      } else {
        placed := placed + [pos.value];
      }
      i := i + 1;
    }
    if stopped {
      StoppedStays(start, tryUnit, i, UnitCount(w));
    } else {
      assert i == UnitCount(w);
    }
    StandInRun(start, tryUnit, w, ct);
  }

  /**
   * The unit loop of a copy run through a stand-in for its attempts is the
   * copy's unit loop, and from a sound cursor it keeps what RunKeepsSound
   * lists, one unit per turn at most.
   */
  lemma StandInRun(start: Cursor, tryUnit: Cursor -> (Cursor, Option<PlacedItem>), w: WorkItem, ct: Container)
    requires Sound(start)
    requires forall c {:trigger Tries(c, w, ct, MaxAttempts)} :: tryUnit(c) == Tries(c, w, ct, MaxAttempts)
    ensures UnitRun(start, w, ct) == Units(start, tryUnit, UnitCount(w))
    ensures RunKeepsSound(start, UnitRun(start, w, ct).c, UnitRun(start, w, ct).placed, w, ct)
    ensures |UnitRun(start, w, ct).placed| <= UnitCount(w)
  {
    forall c0 ensures tryUnit(c0) == UnitTry(w, ct)(c0) {
      assert UnitTry(w, ct)(c0) == Tries(c0, w, ct, MaxAttempts);
    }
    UnitsAgree(start, tryUnit, UnitTry(w, ct), UnitCount(w));
    forall c0 | Sound(c0) ensures KeepsSound(c0, tryUnit(c0), w, ct) {
      TriesSound(c0, w, ct, MaxAttempts);
      assert tryUnit(c0) == Tries(c0, w, ct, MaxAttempts);
    }
    UnitsSound(start, tryUnit, w, ct, UnitCount(w));
  }

  /**
   * The unit loop of a copy from a sound cursor keeps what RunKeepsSound
   * lists and places no more units than the copy has left.
   */
  lemma RunSound(start: Cursor, w: WorkItem, ct: Container)
    requires Sound(start)
    ensures RunKeepsSound(start, UnitRun(start, w, ct).c, UnitRun(start, w, ct).placed, w, ct)
    ensures |UnitRun(start, w, ct).placed| <= w.remainingQty || UnitRun(start, w, ct).placed == []
  {
    var tryUnit := StandIn(w, ct);
    StandInRun(start, tryUnit, w, ct);
  }
}
