/**
 * packContainerSmart (src/lib/packingAlgorithm.ts): copies the packing
 * list, sorts the copies, places their units with the cursor packer, and
 * reports the placed positions, the lines left over and why, the load and
 * the fill rate.
 */
module Packing {
  import opened Wrappers
  import opened Text
  import opened Collections
  import opened PackingTypes
  import opened PackingOrder
  import opened PackingCursor

  /** items.map(...): a working copy of every line, in list order. */
  function Works(items: seq<PackingItem>): (r: seq<WorkItem>)
    ensures |r| == |items| && forall k :: 0 <= k < |items| ==> r[k] == ToWork(items[k])
  {
    seq(|items|, k requires 0 <= k < |items| => ToWork(items[k]))
  }

  /** The weight of the units placed, one entry of `owner` (an index into `work`) per unit, in order. */
  function WeightSum(work: seq<WorkItem>, owner: seq<nat>): real
    requires InRange(owner, |work|)
  {
    if owner == [] then 0.0
    else WeightSum(work, owner[..|owner| - 1]) + work[owner[|owner| - 1]].item.weight
  }

  /** The volume of the units placed, one entry of `owner` per unit, in order. */
  function VolumeSum(work: seq<WorkItem>, owner: seq<nat>): real
    requires InRange(owner, |work|)
  {
    if owner == [] then 0.0
    else VolumeSum(work, owner[..|owner| - 1]) + work[owner[|owner| - 1]].volume
  }

  lemma SumsLast(work: seq<WorkItem>, o: seq<nat>)
    requires InRange(o, |work|) && o != []
    ensures InRange(o[..|o| - 1], |work|)
    ensures WeightSum(work, o) == WeightSum(work, o[..|o| - 1]) + work[o[|o| - 1]].item.weight
    ensures VolumeSum(work, o) == VolumeSum(work, o[..|o| - 1]) + work[o[|o| - 1]].volume
  {
  }

  /** n more units of copy k add n times its unit weight and volume. */
  lemma {:induction false} SumsAppendCopies(work: seq<WorkItem>, owner: seq<nat>, k: nat, n: nat)
    requires InRange(owner, |work|) && k < |work|
    ensures InRange(owner + Repeat(k, n), |work|)
    ensures WeightSum(work, owner + Repeat(k, n)) == WeightSum(work, owner) + Times(n, work[k].item.weight)
    ensures VolumeSum(work, owner + Repeat(k, n)) == VolumeSum(work, owner) + Times(n, work[k].volume)
  {
    var o := owner + Repeat(k, n);
    assert InRange(o, |work|) by {
      forall p | 0 <= p < |o| ensures o[p] < |work| {
        if p < |owner| {
          assert o[p] == owner[p];
        } else {
          assert o[p] == k;
        }
      }
    }
    if n > 0 {
      var shorter := owner + Repeat(k, n - 1);
      SumsAppendCopies(work, owner, k, n - 1);
      assert o == shorter + [k];
      assert o[..|o| - 1] == shorter;
      SumsLast(work, o);
    } else {
      assert o == owner;
    }
  }

  /**
   * The reason reported for a line with units left: the weight limit when
   * the load has reached it, else an extent larger than the container's,
   * else lack of room.
   */
  function Reason(item: PackingItem, weight: real, ct: Container): string
  {
    if weight >= ct.maxWeight then WeightLimitExceeded
    else if item.length > ct.length || item.width > ct.width || item.height > ct.height then DimensionsExceedContainer
    else NoRemainingSpace
  }

  /** The three reasons are told apart by the load and the item's extent, in that order. */
  lemma ReasonCases(item: PackingItem, weight: real, ct: Container)
    ensures Reason(item, weight, ct) == WeightLimitExceeded <==> weight >= ct.maxWeight
    ensures Reason(item, weight, ct) == DimensionsExceedContainer <==>
      weight < ct.maxWeight && (item.length > ct.length || item.width > ct.width || item.height > ct.height)
    ensures Reason(item, weight, ct) == NoRemainingSpace <==>
      weight < ct.maxWeight && item.length <= ct.length && item.width <= ct.width && item.height <= ct.height
  {
    assert WeightLimitExceeded[0] != DimensionsExceedContainer[0];
    assert WeightLimitExceeded[0] != NoRemainingSpace[0];
    assert DimensionsExceedContainer[0] != NoRemainingSpace[0];
  }

  /** The unplaced report: one entry per copy with units left, in the copies' order. */
  function Unplaced(work: seq<WorkItem>, weight: real, ct: Container): seq<UnplacedItem>
  {
    if work == [] then []
    else
      var head := if work[0].remainingQty > 0
        then [UnplacedItem(work[0].item.id, work[0].remainingQty, Reason(work[0].item, weight, ct))]
        else [];
      head + Unplaced(work[1..], weight, ct)
  }

  /** The entry the report gives a copy with units left. */
  function EntryOf(w: WorkItem, weight: real, ct: Container): UnplacedItem
  {
    UnplacedItem(w.item.id, w.remainingQty, Reason(w.item, weight, ct))
  }

  /**
   * The report has an entry exactly for the copies with units left, carrying
   * their count, and is empty exactly when every unit was placed.
   */
  lemma {:induction false} UnplacedExact(work: seq<WorkItem>, weight: real, ct: Container)
    ensures |Unplaced(work, weight, ct)| <= |work|
    ensures forall e :: e in Unplaced(work, weight, ct) ==>
      e.remainingQuantity > 0 && exists k :: 0 <= k < |work| && work[k].remainingQty > 0 && e == EntryOf(work[k], weight, ct)
    ensures forall k :: 0 <= k < |work| && work[k].remainingQty > 0 ==> EntryOf(work[k], weight, ct) in Unplaced(work, weight, ct)
    ensures Unplaced(work, weight, ct) == [] <==> forall k :: 0 <= k < |work| ==> work[k].remainingQty <= 0
  {
    if work != [] {
      var rest := Unplaced(work[1..], weight, ct);
      UnplacedExact(work[1..], weight, ct);
      assert forall k :: 1 <= k < |work| ==> work[k] == work[1..][k - 1];
      forall e | e in Unplaced(work, weight, ct)
        ensures e.remainingQuantity > 0
        ensures exists k :: 0 <= k < |work| && work[k].remainingQty > 0 && e == EntryOf(work[k], weight, ct)
      {
        if e !in rest {
          assert e == EntryOf(work[0], weight, ct);
        } else {
          var j :| 0 <= j < |work[1..]| && work[1..][j].remainingQty > 0 && e == EntryOf(work[1..][j], weight, ct);
          assert work[j + 1] == work[1..][j];
        }
      }
      forall k | 0 <= k < |work| && work[k].remainingQty > 0
        ensures EntryOf(work[k], weight, ct) in Unplaced(work, weight, ct)
      {
        if k > 0 {
          assert work[k] == work[1..][k - 1];
          assert EntryOf(work[k], weight, ct) in rest;
        }
      }
    }
  }

  /** fillRate: the used volume as a percentage of the container's; None for a zero container volume. */
  function FillRate(usedVolume: real, containerVolume: real): (r: Option<real>)
    ensures r.Some? <==> containerVolume != 0.0
    ensures r.Some? && containerVolume > 0.0 ==> (r.value <= 100.0 <==> usedVolume <= containerVolume)
  {
    if containerVolume == 0.0 then None else Some((usedVolume / containerVolume) * 100.0)
  }

  const SummaryOpening: string := "Packing optimization complete. "
  const HeavyClause: string := "Heavy items " + "(pallets, drums, crates) placed at the bottom for stability. "
  const FragileClause: string := "Fragile items " + "(jewelry boxes, velvet bags, display trays) positioned in upper layers for protection. "
  const AllLoaded: string := "All items successfully loaded."
  const NotAllLoaded: string := " item type(s) could not be fully loaded."

  predicate HasHeavyItems(items: seq<PackingItem>)
  {
    exists k :: 0 <= k < |items| && items[k].weight > 50.0
  }

  predicate HasFragileItems(items: seq<PackingItem>)
  {
    exists k :: 0 <= k < |items| && items[k].fragile
  }

  /** The heavy clause when some line weighs over 50 kg, else nothing. */
  function HeavyPart(items: seq<PackingItem>): string
  {
    if HasHeavyItems(items) then HeavyClause else ""
  }

  /** The fragile clause when some line is fragile, else nothing. */
  function FragilePart(items: seq<PackingItem>): string
  {
    if HasFragileItems(items) then FragileClause else ""
  }

  /** The closing sentence: the number of lines left over, or the all-loaded note. */
  function Closing(unplacedCount: nat): string
  {
    if unplacedCount > 0 then IntToString(unplacedCount) + NotAllLoaded else AllLoaded
  }

  /**
   * The summary: the opening, a clause for heavy lines and one for fragile
   * lines when the list has any, then the number of lines not fully loaded
   * or a note that everything was loaded.
   */
  function Summary(items: seq<PackingItem>, unplacedCount: nat): string
  {
    SummaryOpening + HeavyPart(items) + FragilePart(items) + Closing(unplacedCount)
  }

  /** Where the parts of a four-part concatenation sit. */
  lemma PartsOf<T>(a: seq<T>, b: seq<T>, c: seq<T>, d: seq<T>)
    ensures (a + b + c + d)[..|a|] == a
    ensures (a + b + c + d)[|a|..] == b + c + d
    ensures (a + b + c + d)[|a| + |b|..] == c + d
    ensures (a + b + c + d)[|a + b + c + d| - |d|..] == d
  {
    var s := a + b + c + d;
    assert s == a + (b + c + d);
    assert s == (a + b) + (c + d);
    assert s == (a + b + c) + d;
  }

  /** A sequence starts with a prefix exactly when its first |prefix| elements are that prefix. */
  predicate StartsWith<T(==)>(s: seq<T>, prefix: seq<T>)
  {
    |prefix| <= |s| && s[..|prefix|] == prefix
  }

  /**
   * An optional clause followed by a rest that does not open like it: the
   * whole starts with the clause exactly when the clause is there.
   */
  lemma OptionalClause<T>(whole: seq<T>, part: seq<T>, clause: seq<T>, present: bool, rest: seq<T>)
    requires part == (if present then clause else []) && whole == part + rest
    requires |clause| >= 1 && |rest| >= 1 && rest[0] != clause[0]
    ensures present <==> StartsWith(whole, clause)
  {
    if present {
      assert whole[..|clause|] == clause;
    } else if |clause| <= |whole| {
      assert whole[..|clause|][0] == rest[0];
    }
  }

  /** The first letters of the clauses. */
  lemma ClauseHeads()
    ensures HeavyClause[0] == 'H' && FragileClause[0] == 'F' && AllLoaded[0] == 'A'
  {
    assert |AllLoaded| == 30;
  }

  /** The fragile clause and the closing each open unlike the clauses before them. */
  lemma PartsOpen(items: seq<PackingItem>, unplacedCount: nat)
    ensures |Closing(unplacedCount)| >= 1
    ensures Closing(unplacedCount)[0] != HeavyClause[0] && Closing(unplacedCount)[0] != FragileClause[0]
    ensures (FragilePart(items) + Closing(unplacedCount))[0] != HeavyClause[0]
  {
    ClauseHeads();
    var closing := Closing(unplacedCount);
    if unplacedCount > 0 {
      var count := IntToString(unplacedCount);
      assert IsDigit(count[0]);
      assert closing[0] == count[0];
    }
    if HasFragileItems(items) {
      assert (FragilePart(items) + closing)[0] == 'F';
    } else {
      assert FragilePart(items) + closing == closing;
    }
  }

  /** The shortfall note does not end with the all-loaded note. */
  lemma ClosingsDiffer()
    ensures |NotAllLoaded| >= |AllLoaded|
    ensures NotAllLoaded[|NotAllLoaded| - |AllLoaded|] != AllLoaded[0]
  {
    assert |NotAllLoaded| == 40 && |AllLoaded| == 30;
    assert NotAllLoaded[10] == '(';
  }

  /**
   * The summary opens with the fixed sentence; right after it comes the
   * heavy clause exactly when some line weighs over 50 kg, and after that
   * the fragile clause exactly when some line is fragile.
   */
  lemma SummaryOpens(items: seq<PackingItem>, unplacedCount: nat)
    ensures StartsWith(Summary(items, unplacedCount), SummaryOpening)
    ensures HasHeavyItems(items) <==> StartsWith(Summary(items, unplacedCount)[|SummaryOpening|..], HeavyClause)
    ensures HasFragileItems(items) <==>
      StartsWith(Summary(items, unplacedCount)[|SummaryOpening| + |HeavyPart(items)|..], FragileClause)
  {
    PartsOpen(items, unplacedCount);
    ClauseHeads();
    TwoOptionalClauses(SummaryOpening, HeavyPart(items), FragilePart(items), Closing(unplacedCount),
      HeavyClause, FragileClause, HasHeavyItems(items), HasFragileItems(items));
  }

  /**
   * An opening, two optional clauses and a closing, where neither the
   * closing nor the second clause opens like the first and the closing
   * does not open like the second: each clause is found where it belongs
   * exactly when it is there.
   */
  lemma TwoOptionalClauses<T>(opening: seq<T>, first: seq<T>, second: seq<T>, closing: seq<T>,
                              clause1: seq<T>, clause2: seq<T>, present1: bool, present2: bool)
    requires first == (if present1 then clause1 else []) && second == (if present2 then clause2 else [])
    requires |clause1| >= 1 && |clause2| >= 1 && |closing| >= 1
    requires (second + closing)[0] != clause1[0] && closing[0] != clause2[0]
    ensures StartsWith(opening + first + second + closing, opening)
    ensures present1 <==> StartsWith((opening + first + second + closing)[|opening|..], clause1)
    ensures present2 <==> StartsWith((opening + first + second + closing)[|opening| + |first|..], clause2)
  {
    var whole := opening + first + second + closing;
    PartsOf(opening, first, second, closing);
    assert whole[|opening|..] == first + (second + closing);
    OptionalClause(whole[|opening|..], first, clause1, present1, second + closing);
    OptionalClause(whole[|opening| + |first|..], second, clause2, present2, closing);
  }

  /** The summary ends with the all-loaded note exactly when no line was left over. */
  lemma SummaryCloses(items: seq<PackingItem>, unplacedCount: nat)
    ensures |Summary(items, unplacedCount)| >= |AllLoaded|
    ensures unplacedCount == 0 <==>
      Summary(items, unplacedCount)[|Summary(items, unplacedCount)| - |AllLoaded|..] == AllLoaded
  {
    var heavy, fragile, closing := HeavyPart(items), FragilePart(items), Closing(unplacedCount);
    var s := Summary(items, unplacedCount);
    PartsOf(SummaryOpening, heavy, fragile, closing);
    ClosingsDiffer();
    if unplacedCount > 0 {
      var count := IntToString(unplacedCount);
      assert closing[|closing| - |NotAllLoaded|..] == NotAllLoaded by {
        assert closing == count + NotAllLoaded;
      }
      assert s[|s| - |AllLoaded|] == closing[|closing| - |AllLoaded|];
      assert closing[|closing| - |AllLoaded|] == NotAllLoaded[|NotAllLoaded| - |AllLoaded|];
    }
  }

  /** The copies come from the list: each is the fresh copy of one of its lines. */
  lemma SortedFromItems(items: seq<PackingItem>, sorted: seq<WorkItem>)
    requires multiset(sorted) == multiset(Works(items))
    ensures forall k :: 0 <= k < |sorted| ==> sorted[k] == ToWork(sorted[k].item) && sorted[k].item in items
  {
    forall k | 0 <= k < |sorted| ensures sorted[k] == ToWork(sorted[k].item) && sorted[k].item in items {
      assert sorted[k] in multiset(Works(items));
      var j :| 0 <= j < |items| && Works(items)[j] == sorted[k];
    }
  }

  /** Every line has a non-negative length. */
  predicate NonNegativeLengths(items: seq<PackingItem>)
  {
    forall k :: 0 <= k < |items| ==> items[k].length >= 0.0
  }

  /** Copies of lines with non-negative lengths have non-negative lengths. */
  lemma SortedLengths(items: seq<PackingItem>, sorted: seq<WorkItem>)
    requires forall k :: 0 <= k < |sorted| ==> sorted[k].item in items
    ensures NonNegativeLengths(items) ==> forall k :: 0 <= k < |sorted| ==> sorted[k].item.length >= 0.0
  {
  }

  /**
   * The state of the loading loop after the first k copies: `work` holds the
   * sorted copies with the placed units taken off the first k; each position
   * depicts a unit of the copy `owner` names, inside the container, and the
   * cursor's load is the sum over the positions.
   */
  ghost predicate Loading(work: seq<WorkItem>, sorted: seq<WorkItem>, owner: seq<nat>, k: nat,
                          positions: seq<PlacedItem>, c: Cursor, ct: Container)
  {
    && |work| == |sorted| && k <= |sorted|
    && Owners(owner, k)
    && Copies(work, sorted, owner, k)
    && Drawn(positions, sorted, owner, ct)
    && Totals(c, sorted, owner, positions, ct)
  }

  /** The owners of the positions so far: copies before k, in the copies' order. */
  ghost predicate Owners(owner: seq<nat>, k: nat)
  {
    InRange(owner, k) && forall p, q :: 0 <= p < q < |owner| ==> owner[p] <= owner[q]
  }

  /** The copies from k on are untouched; the first k have their placed units taken off. */
  ghost predicate Copies(work: seq<WorkItem>, sorted: seq<WorkItem>, owner: seq<nat>, k: nat)
    requires |work| == |sorted| && k <= |sorted|
  {
    && (forall j :: k <= j < |sorted| ==> work[j] == sorted[j])
    && (forall j: nat :: j < k ==> work[j] == sorted[j].(remainingQty := sorted[j].remainingQty - Count(owner, j)))
    && (forall j: nat :: j < k ==> Count(owner, j) == 0 || Count(owner, j) <= sorted[j].remainingQty)
  }

  /** Each position depicts a unit of its owner, inside the container, on or above the floor. */
  ghost predicate Drawn(positions: seq<PlacedItem>, sorted: seq<WorkItem>, owner: seq<nat>, ct: Container)
  {
    && InRange(owner, |sorted|) && |positions| == |owner|
    && (forall p :: 0 <= p < |positions| ==> Depicts(positions[p], sorted[owner[p]]) && InContainer(positions[p], ct))
    && (forall p :: 0 <= p < |positions| ==> positions[p].y >= 0.0 && positions[p].z >= 0.0)
  }

  /** The cursor's weight and volume are the sums over the positions, within the weight limit. */
  ghost predicate Totals(c: Cursor, sorted: seq<WorkItem>, owner: seq<nat>, positions: seq<PlacedItem>, ct: Container)
  {
    && InRange(owner, |sorted|)
    && Sound(c)
    && c.currentWeight == WeightSum(sorted, owner) && c.usedVolume == VolumeSum(sorted, owner)
    && (positions != [] ==> c.currentWeight <= ct.maxWeight)
  }

  /** Appending the owner k of n new positions keeps the owners in order and shifts the counts. */
  lemma OwnersStep(owner: seq<nat>, k: nat, n: nat)
    requires Owners(owner, k)
    ensures Owners(owner + Repeat(k, n), k + 1)
    ensures forall j: nat :: j < k ==> Count(owner + Repeat(k, n), j) == Count(owner, j)
    ensures Count(owner + Repeat(k, n), k) == n
  {
    var owner' := owner + Repeat(k, n);
    assert InRange(owner', k + 1) by {
      forall p | 0 <= p < |owner'| ensures owner'[p] < k + 1 {
        if p >= |owner| {
          assert owner'[p] == k;
        } else {
          assert owner'[p] == owner[p];
        }
      }
    }
    forall p, q | 0 <= p < q < |owner'| ensures owner'[p] <= owner'[q] {
      if q >= |owner| {
        assert owner'[q] == k;
        if p < |owner| {
          assert owner'[p] == owner[p];
        }
      } else {
        assert owner'[p] == owner[p] && owner'[q] == owner[q];
      }
    }
    CountsAfterCopies(owner, k, n);
  }

  /** Taking the n placed units off copy k moves the copies' state to k + 1. */
  lemma CopiesStep(work: seq<WorkItem>, sorted: seq<WorkItem>, owner: seq<nat>, k: nat, n: nat)
    requires |work| == |sorted| && k < |sorted| && Owners(owner, k)
    requires Copies(work, sorted, owner, k)
    requires n <= sorted[k].remainingQty || n == 0
    ensures Copies(work[k := work[k].(remainingQty := work[k].remainingQty - n)], sorted, owner + Repeat(k, n), k + 1)
  {
    var work' := work[k := work[k].(remainingQty := work[k].remainingQty - n)];
    var owner' := owner + Repeat(k, n);
    CountsAfterCopies(owner, k, n);
    forall j | k + 1 <= j < |sorted| ensures work'[j] == sorted[j] {
      assert work'[j] == work[j];
    }
    forall j: nat | j < k + 1
      ensures work'[j] == sorted[j].(remainingQty := sorted[j].remainingQty - Count(owner', j))
      ensures Count(owner', j) == 0 || Count(owner', j) <= sorted[j].remainingQty
    {
      if j == k {
        assert work[k] == sorted[k];
      } else {
        assert work'[j] == work[j];
      }
    }
  }

  /** Appending the units placed for copy k keeps every position drawn. */
  lemma DrawnStep(positions: seq<PlacedItem>, sorted: seq<WorkItem>, owner: seq<nat>, k: nat,
                  placed: seq<PlacedItem>, ct: Container)
    requires Drawn(positions, sorted, owner, ct) && k < |sorted|
    requires forall p :: 0 <= p < |placed| ==> Depicts(placed[p], sorted[k]) && InContainer(placed[p], ct)
    requires forall p :: 0 <= p < |placed| ==> placed[p].y >= 0.0 && placed[p].z >= 0.0
    ensures Drawn(positions + placed, sorted, owner + Repeat(k, |placed|), ct)
  {
    var owner' := owner + Repeat(k, |placed|);
    var positions' := positions + placed;
    assert InRange(owner', |sorted|) by {
      forall p | 0 <= p < |owner'| ensures owner'[p] < |sorted| {
        if p >= |owner| {
          assert owner'[p] == k;
        } else {
          assert owner'[p] == owner[p];
        }
      }
    }
    forall p | 0 <= p < |positions'|
      ensures Depicts(positions'[p], sorted[owner'[p]]) && InContainer(positions'[p], ct)
      ensures positions'[p].y >= 0.0 && positions'[p].z >= 0.0
    {
      if p >= |positions| {
        assert positions'[p] == placed[p - |positions|] && owner'[p] == k;
      } else {
        assert positions'[p] == positions[p] && owner'[p] == owner[p];
      }
    }
  }

  /** A placement that adds the weight and volume of its units keeps the totals. */
  lemma TotalsStep(c: Cursor, sorted: seq<WorkItem>, owner: seq<nat>, positions: seq<PlacedItem>, ct: Container,
                   k: nat, c': Cursor, placed: seq<PlacedItem>)
    requires Totals(c, sorted, owner, positions, ct) && k < |sorted|
    requires Sound(c')
    requires c'.currentWeight == c.currentWeight + Times(|placed|, sorted[k].item.weight)
    requires c'.usedVolume == c.usedVolume + Times(|placed|, sorted[k].volume)
    requires placed != [] ==> c'.currentWeight <= ct.maxWeight
    ensures Totals(c', sorted, owner + Repeat(k, |placed|), positions + placed, ct)
  {
    SumsAppendCopies(sorted, owner, k, |placed|);
  }

  /** Loading the units of copy k, which PlaceItem placed, moves the state to k + 1. */
  lemma LoadStep(work: seq<WorkItem>, sorted: seq<WorkItem>, owner: seq<nat>, k: nat,
                 positions: seq<PlacedItem>, c: Cursor, ct: Container, c': Cursor, placed: seq<PlacedItem>)
    requires Loading(work, sorted, owner, k, positions, c, ct) && k < |sorted|
    requires Sound(c')
    requires |placed| <= sorted[k].remainingQty || placed == []
    requires forall p :: 0 <= p < |placed| ==> Depicts(placed[p], sorted[k]) && InContainer(placed[p], ct)
    requires forall p :: 0 <= p < |placed| ==> placed[p].y >= 0.0 && placed[p].z >= 0.0
    requires c'.currentWeight == c.currentWeight + Times(|placed|, sorted[k].item.weight)
    requires c'.usedVolume == c.usedVolume + Times(|placed|, sorted[k].volume)
    requires placed != [] ==> c'.currentWeight <= ct.maxWeight
    ensures Loading(work[k := work[k].(remainingQty := work[k].remainingQty - |placed|)], sorted,
                    owner + Repeat(k, |placed|), k + 1, positions + placed, c', ct)
  {
    OwnersStep(owner, k, |placed|);
    CopiesStep(work, sorted, owner, k, |placed|);
    DrawnStep(positions, sorted, owner, k, placed, ct);
    TotalsStep(c, sorted, owner, positions, ct, k, c', placed);
  }

  /** The loading loop's running state: the cursor and the positions placed so far. */
  datatype Load = Load(c: Cursor, positions: seq<PlacedItem>)

  /**
   * A loading loop after the first k copies, given the unit loop run(c, w)
   * of copy w from cursor c: each copy's unit loop runs from the cursor the
   * copy before it left, and its units follow the earlier copies' units.
   */
  function LoadWith(sorted: seq<WorkItem>, run: (Cursor, WorkItem) -> Run, k: nat): Load
    requires k <= |sorted|
  {
    if k == 0 then Load(Start, [])
    else
      var l := LoadWith(sorted, run, k - 1);
      var r := run(l.c, sorted[k - 1]);
      Load(r.c, l.positions + r.placed)
  }

  /** The packer's unit loop of a copy, as a function of the cursor and the copy. */
  function Runner(ct: Container): (Cursor, WorkItem) -> Run
  {
    (c, w) => UnitRun(c, w, ct)
  }

  /** The loading loop of packContainerSmart after the first k copies. */
  function LoadRun(sorted: seq<WorkItem>, ct: Container, k: nat): Load
    requires k <= |sorted|
  {
    LoadWith(sorted, Runner(ct), k)
  }

  /** Loading a single copy is that copy's unit loop from the empty container. */
  lemma LoadOne(w: WorkItem, ct: Container)
    ensures LoadRun([w], ct, 1) == Load(UnitRun(Start, w, ct).c, UnitRun(Start, w, ct).placed)
  {
    assert LoadRun([w], ct, 0) == Load(Start, []);
    assert Runner(ct)(Start, w) == UnitRun(Start, w, ct);
  }

  /** The unit loop of copy k within the loading loop. */
  function CopyRun(sorted: seq<WorkItem>, ct: Container, k: nat): Run
    requires k < |sorted|
  {
    UnitRun(LoadRun(sorted, ct, k).c, sorted[k], ct)
  }

  /** The cursor and the positions after the first k copies are the loading fold's. */
  ghost predicate Follows(sorted: seq<WorkItem>, run: (Cursor, WorkItem) -> Run, k: nat, positions: seq<PlacedItem>, c: Cursor)
  {
    k <= |sorted| && LoadWith(sorted, run, k) == Load(c, positions)
  }

  /** Loading copy k with the units its run placed moves the fold to k + 1. */
  lemma FollowsStep(sorted: seq<WorkItem>, run: (Cursor, WorkItem) -> Run, k: nat,
                    positions: seq<PlacedItem>, c: Cursor, c': Cursor, placed: seq<PlacedItem>)
    requires Follows(sorted, run, k, positions, c) && k < |sorted|
    requires c' == run(c, sorted[k]).c && placed == run(c, sorted[k]).placed
    ensures Follows(sorted, run, k + 1, positions + placed, c')
  {
  }

  /** Two loading loops whose unit loops agree everywhere load alike. */
  lemma {:induction false} LoadsAgree(sorted: seq<WorkItem>, f: (Cursor, WorkItem) -> Run, g: (Cursor, WorkItem) -> Run, k: nat)
    requires k <= |sorted| && forall c, w :: f(c, w) == g(c, w)
    ensures LoadWith(sorted, f, k) == LoadWith(sorted, g, k)
  {
    if k > 0 {
      LoadsAgree(sorted, f, g, k - 1);
    }
  }

  /** The fold's state carries over between unit loops that agree everywhere. */
  /**
   * A stand-in for Runner(ct) that agrees with it wherever a copy's unit
   * loop is in view; reasoning about the loading loop through it keeps each
   * copy's unit loop folded.
   */
  lemma RunnerStandIn(ct: Container) returns (run: (Cursor, WorkItem) -> Run)
    ensures forall c, w {:trigger UnitRun(c, w, ct)} :: run(c, w) == UnitRun(c, w, ct)
  {
    run := Runner(ct);
  }

  /** Every copy has a non-negative length. */
  ghost predicate NonNegativeCopies(sorted: seq<WorkItem>)
  {
    forall j :: 0 <= j < |sorted| ==> sorted[j].item.length >= 0.0
  }

  /**
   * The loading loop's state after the first k copies: what Loading lists,
   * the cursor and positions the loading fold gives, and, when no copy has
   * a negative length, a cursor and positions none of which lies behind
   * the front wall.
   */
  ghost predicate LoadState(work: seq<WorkItem>, sorted: seq<WorkItem>, owner: seq<nat>, k: nat,
                            positions: seq<PlacedItem>, c: Cursor, ct: Container, run: (Cursor, WorkItem) -> Run)
  {
    && Loading(work, sorted, owner, k, positions, c, ct)
    && Follows(sorted, run, k, positions, c)
    && (NonNegativeCopies(sorted) ==> c.xCursor >= 0.0 && forall p :: 0 <= p < |positions| ==> positions[p].x >= 0.0)
  }

  /**
   * The loading loop of packContainerSmart: every copy in turn has as many
   * units placed as fit, and the units placed are taken off its count.
   */
  method LoadAll(work: array<WorkItem>, ct: Container)
    returns (positions: seq<PlacedItem>, c: Cursor, ghost owner: seq<nat>, ghost run: (Cursor, WorkItem) -> Run)
    modifies work
    ensures LoadState(work[..], old(work[..]), owner, work.Length, positions, c, ct, run)
    ensures forall c, w {:trigger UnitRun(c, w, ct)} :: run(c, w) == UnitRun(c, w, ct)
  {
    ghost var sorted := work[..];
    ghost var current := sorted;
    run := RunnerStandIn(ct);
    positions, c, owner := [], Start, [];
    var k: nat := 0;
    LoadStart(sorted, ct, run);
    while k < work.Length
      invariant current == work[..]
      invariant LoadState(current, sorted, owner, k, positions, c, ct, run)
    {
      var c', placed;
      c', placed, current, owner := LoadTurn(work, k, positions, c, current, sorted, owner, ct, run);
      positions, c := positions + placed, c';
      k := k + 1;
    }
  }

  /**
   * One turn of the loading loop: copy k has its units placed and taken off
   * its count, and the loop's state moves on to k + 1.
   */
  method LoadTurn(work: array<WorkItem>, k: nat, positions: seq<PlacedItem>, c: Cursor,
                  ghost current: seq<WorkItem>, ghost sorted: seq<WorkItem>, ghost owner: seq<nat>,
                  ct: Container, ghost run: (Cursor, WorkItem) -> Run)
    returns (c': Cursor, placed: seq<PlacedItem>, ghost next: seq<WorkItem>, ghost owner': seq<nat>)
    modifies work
    requires k < work.Length && current == work[..]
    requires LoadState(current, sorted, owner, k, positions, c, ct, run)
    requires forall c, w {:trigger UnitRun(c, w, ct)} :: run(c, w) == UnitRun(c, w, ct)
    ensures next == work[..]
    ensures LoadState(next, sorted, owner', k + 1, positions + placed, c', ct, run)
  {
    StateSound(current, sorted, owner, k, positions, c, ct, run);
    c', placed := LoadCopy(work, k, c, ct, run);
    next := current[k := current[k].(remainingQty := current[k].remainingQty - |placed|)];
    owner' := owner + Repeat(k, |placed|);
    CopyStep(current, next, sorted, owner, k, positions, c, ct, run, c', placed);
  }

  /** Before the loading loop nothing is loaded and every copy is untouched. */
  lemma LoadStart(sorted: seq<WorkItem>, ct: Container, run: (Cursor, WorkItem) -> Run)
    ensures LoadState(sorted, sorted, [], 0, [], Start, ct, run)
  {
    assert LoadWith(sorted, run, 0) == Load(Start, []);
  }

  /** One turn of the loading loop: places the units of copy k and takes them off its count. */
  method LoadCopy(work: array<WorkItem>, k: nat, c: Cursor, ct: Container, ghost run: (Cursor, WorkItem) -> Run)
    returns (c': Cursor, placed: seq<PlacedItem>)
    modifies work
    requires k < work.Length && Sound(c)
    requires forall c, w {:trigger UnitRun(c, w, ct)} :: run(c, w) == UnitRun(c, w, ct)
    ensures c' == run(c, old(work[k])).c && placed == run(c, old(work[k])).placed
    ensures work[..] == old(work[..])[k := old(work[k]).(remainingQty := old(work[k]).remainingQty - |placed|)]
  {
    var w := work[k];
    c', placed := PlaceItem(c, w, ct);
    work[k] := w.(remainingQty := w.remainingQty - |placed|);
  }

  /** The cursor of the loading loop is always sound. */
  lemma StateSound(work: seq<WorkItem>, sorted: seq<WorkItem>, owner: seq<nat>, k: nat,
                   positions: seq<PlacedItem>, c: Cursor, ct: Container, run: (Cursor, WorkItem) -> Run)
    requires LoadState(work, sorted, owner, k, positions, c, ct, run)
    ensures Sound(c)
  {
  }

  /** What one turn of the loading loop keeps, given what the copy's unit loop did. */
  lemma CopyStep(work: seq<WorkItem>, work': seq<WorkItem>, sorted: seq<WorkItem>, owner: seq<nat>, k: nat,
                 positions: seq<PlacedItem>, c: Cursor, ct: Container, run: (Cursor, WorkItem) -> Run,
                 c': Cursor, placed: seq<PlacedItem>)
    requires LoadState(work, sorted, owner, k, positions, c, ct, run) && k < |sorted|
    requires work' == work[k := work[k].(remainingQty := work[k].remainingQty - |placed|)]
    requires forall c, w {:trigger UnitRun(c, w, ct)} :: run(c, w) == UnitRun(c, w, ct)
    requires c' == run(c, work[k]).c && placed == run(c, work[k]).placed
    ensures LoadState(work', sorted, owner + Repeat(k, |placed|), k + 1, positions + placed, c', ct, run)
    ensures c' == run(c, sorted[k]).c && placed == run(c, sorted[k]).placed
  {
    assert work[k] == sorted[k];
    StateSound(work, sorted, owner, k, positions, c, ct, run);
    RunSound(c, work[k], ct);
    LoadStep(work, sorted, owner, k, positions, c, ct, c', placed);
    FollowsStep(sorted, run, k, positions, c, c', placed);
    if NonNegativeCopies(sorted) {
      OffFrontAppend(positions, placed);
    }
  }

  /** Positions none of which lies behind the front wall stay so when more such are appended. */
  lemma OffFrontAppend(positions: seq<PlacedItem>, placed: seq<PlacedItem>)
    requires forall p :: 0 <= p < |positions| ==> positions[p].x >= 0.0
    requires forall p :: 0 <= p < |placed| ==> placed[p].x >= 0.0
    ensures forall p :: 0 <= p < |positions + placed| ==> (positions + placed)[p].x >= 0.0
  {
    forall p | 0 <= p < |positions + placed| ensures (positions + placed)[p].x >= 0.0 {
      if p >= |positions| {
        assert (positions + placed)[p] == placed[p - |positions|];
      }
    }
  }

  /**
   * After the loop every copy keeps its line, and its placed units and the
   * units left add up to the line's quantity.
   */
  lemma LoadedCopies(final: seq<WorkItem>, sorted: seq<WorkItem>, owner: seq<nat>,
                     positions: seq<PlacedItem>, c: Cursor, ct: Container)
    requires Loading(final, sorted, owner, |sorted|, positions, c, ct)
    requires forall k :: 0 <= k < |sorted| ==> sorted[k] == ToWork(sorted[k].item)
    ensures |final| == |sorted|
    ensures forall k :: 0 <= k < |sorted| ==> final[k] == sorted[k].(remainingQty := final[k].remainingQty)
    ensures forall k: nat :: k < |sorted| ==> Count(owner, k) + final[k].remainingQty == sorted[k].item.quantity
    ensures forall k: nat :: k < |sorted| ==> Count(owner, k) == 0 || Count(owner, k) <= sorted[k].item.quantity
  {
    forall k: nat | k < |sorted|
      ensures final[k] == sorted[k].(remainingQty := final[k].remainingQty)
      ensures Count(owner, k) + final[k].remainingQty == sorted[k].item.quantity
    {
      assert sorted[k].remainingQty == sorted[k].item.quantity;
    }
  }

  /**
   * packContainerSmart. The positions are units of the sorted copies, in
   * the copies' order, each inside the container; the total weight and used
   * volume are the sums over the positions, and a placement never takes the
   * load over the weight limit; every copy's placed units and units left add
   * up to its quantity, and the unplaced report covers exactly the copies
   * with units left.
   */
  method Pack(items: seq<PackingItem>, ct: Container)
    returns (r: PackingResult, ghost sorted: seq<WorkItem>, ghost owner: seq<nat>, ghost final: seq<WorkItem>)
    ensures r.containerVolume == UnitVolume(ct.length, ct.width, ct.height)
    ensures multiset(sorted) == multiset(Works(items)) && OrderedPairs(sorted, 0, |sorted|)
    ensures forall k :: 0 <= k < |sorted| ==> sorted[k] == ToWork(sorted[k].item) && sorted[k].item in items
    ensures |owner| == |r.positions| && InRange(owner, |sorted|)
    ensures forall p, q :: 0 <= p < q < |owner| ==> owner[p] <= owner[q]
    ensures forall p :: 0 <= p < |r.positions| ==> Depicts(r.positions[p], sorted[owner[p]]) && InContainer(r.positions[p], ct)
    ensures forall p :: 0 <= p < |r.positions| ==> r.positions[p].y >= 0.0 && r.positions[p].z >= 0.0
    ensures NonNegativeLengths(items) ==> forall p :: 0 <= p < |r.positions| ==> r.positions[p].x >= 0.0
    ensures r.positions == LoadRun(sorted, ct, |sorted|).positions
    ensures r.totalWeight == LoadRun(sorted, ct, |sorted|).c.currentWeight
    ensures r.usedVolume == LoadRun(sorted, ct, |sorted|).c.usedVolume
    ensures r.totalWeight == WeightSum(sorted, owner) && r.usedVolume == VolumeSum(sorted, owner)
    ensures r.positions != [] ==> r.totalWeight <= ct.maxWeight
    ensures |final| == |sorted|
    ensures forall k :: 0 <= k < |sorted| ==> final[k] == sorted[k].(remainingQty := final[k].remainingQty)
    ensures forall k: nat :: k < |sorted| ==> Count(owner, k) + final[k].remainingQty == sorted[k].item.quantity
    ensures forall k: nat :: k < |sorted| ==> Count(owner, k) == 0 || Count(owner, k) <= sorted[k].item.quantity
    ensures r.unplacedItems == Unplaced(final, r.totalWeight, ct)
    ensures r.fillRate == FillRate(r.usedVolume, r.containerVolume)
    ensures r.summary == Summary(items, |r.unplacedItems|)
    ensures items == [] ==> r.positions == [] && r.unplacedItems == [] && r.totalWeight == 0.0
    ensures items == [] && r.containerVolume != 0.0 ==> r.fillRate == Some(0.0)
  {
    var containerVolume := UnitVolume(ct.length, ct.width, ct.height);
    var work := new WorkItem[|items|](k requires 0 <= k < |items| => ToWork(items[k]));
    assert work[..] == Works(items);
    SortWork(work);
    sorted := work[..];
    SortedFromItems(items, sorted);
    assert NonNegativeLengths(items) ==> NonNegativeCopies(sorted) by {
      SortedLengths(items, sorted);
    }
    var positions: seq<PlacedItem>;
    var c: Cursor;
    ghost var run;
    positions, c, owner, run := LoadAll(work, ct);
    var loaded := work[..];
    final := loaded;
    LoadedCopies(final, sorted, owner, positions, c, ct);
    assert LoadRun(sorted, ct, |sorted|) == Load(c, positions) by {
      forall c0, w0 ensures run(c0, w0) == Runner(ct)(c0, w0) {
        assert Runner(ct)(c0, w0) == UnitRun(c0, w0, ct);
      }
      LoadsAgree(sorted, run, Runner(ct), |sorted|);
    }
    if items == [] {
      assert owner == [] && positions == [];
    }
    var unplacedItems := Unplaced(loaded, c.currentWeight, ct);
    r := PackingResult(positions, FillRate(c.usedVolume, containerVolume), c.currentWeight,
      Summary(items, |unplacedItems|), unplacedItems, containerVolume, c.usedVolume);
  }
}
