/**
 * The packer's working copies and the order it loads them in
 * (src/lib/packingAlgorithm.ts, the copy and the sort of packContainerSmart).
 */
module PackingOrder {
  import opened PackingTypes
  import opened ItemKinds

  /**
   * A working copy of a packing-list line: the line itself, the volume of
   * one unit in cubic metres, the units still to load and the resolved type.
   */
  datatype WorkItem = WorkItem(item: PackingItem, volume: real, remainingQty: int, kind: ItemType)

  /** The item's own type when it has one, else the type detected from its id. */
  function ResolvedType(item: PackingItem): ItemType
  {
    if item.itemType.Some? then item.itemType.value else DetectItemType(item.id)
  }

  /** Millimetre extents to cubic metres. */
  function UnitVolume(length: real, width: real, height: real): real
  {
    (length * width * height) / 1000000000.0
  }

  /** The working copy made of a packing-list line before anything is loaded. */
  function ToWork(item: PackingItem): WorkItem
  {
    WorkItem(item, UnitVolume(item.length, item.width, item.height), item.quantity, ResolvedType(item))
  }

  function Abs(x: real): real
  {
    if x < 0.0 then -x else x
  }

  /** The weight of all the units still to load. */
  function TotalWeight(a: WorkItem): real
  {
    a.item.weight * a.remainingQty as real
  }

  /** The volume of all the units still to load. */
  function TotalVolume(a: WorkItem): real
  {
    a.volume * a.remainingQty as real
  }

  /**
   * The sort comparator: negative puts `a` first. Heavier in total first
   * (1 kg tolerance), then larger in total (0.001 m3 tolerance), then
   * non-fragile before fragile, then taller first.
   */
  function Compare(a: WorkItem, b: WorkItem): real
  {
    var weightDiff := TotalWeight(b) - TotalWeight(a);
    if Abs(weightDiff) > 1.0 then weightDiff
    else
      var volumeDiff := TotalVolume(b) - TotalVolume(a);
      if Abs(volumeDiff) > 0.001 then volumeDiff
      else if a.item.fragile != b.item.fragile then (if a.item.fragile then 1.0 else -1.0)
      else b.item.height - a.item.height
  }

  /** Swapping the operands negates the comparison, so no copy compares before itself. */
  lemma CompareAntisymmetric(a: WorkItem, b: WorkItem)
    ensures Compare(a, b) == -Compare(b, a)
    ensures Compare(a, a) == 0.0
  {
    assert Abs(TotalWeight(a) - TotalWeight(b)) == Abs(TotalWeight(b) - TotalWeight(a));
    assert Abs(TotalVolume(a) - TotalVolume(b)) == Abs(TotalVolume(b) - TotalVolume(a));
  }

  /** Total weights within 1 kg and total volumes within 0.001 m3 of each other. */
  predicate Tied(a: WorkItem, b: WorkItem)
  {
    Abs(TotalWeight(a) - TotalWeight(b)) <= 1.0 && Abs(TotalVolume(a) - TotalVolume(b)) <= 0.001
  }

  /**
   * The four tiers of the comparator, each deciding only when the ones
   * before it are within tolerance.
   */
  lemma CompareTiers(a: WorkItem, b: WorkItem)
    ensures TotalWeight(a) > TotalWeight(b) + 1.0 ==> Compare(a, b) < 0.0
    ensures Abs(TotalWeight(a) - TotalWeight(b)) <= 1.0 && TotalVolume(a) > TotalVolume(b) + 0.001
      ==> Compare(a, b) < 0.0
    ensures Tied(a, b) && !a.item.fragile && b.item.fragile ==> Compare(a, b) < 0.0
    ensures Tied(a, b) && a.item.fragile == b.item.fragile ==> Compare(a, b) == b.item.height - a.item.height
  {
    assert Abs(TotalWeight(a) - TotalWeight(b)) == Abs(TotalWeight(b) - TotalWeight(a));
    assert Abs(TotalVolume(a) - TotalVolume(b)) == Abs(TotalVolume(b) - TotalVolume(a));
  }

  /** Every adjacent pair with both members in [lo, hi) is in comparator order. */
  ghost predicate OrderedPairs(s: seq<WorkItem>, lo: int, hi: int)
  {
    forall k :: lo <= k && 0 <= k && k + 1 < hi && k + 1 < |s| ==> Compare(s[k], s[k + 1]) <= 0.0
  }

  /** The state of inserting s[j] (once s[i]) into the ordered prefix s[..i]. */
  ghost predicate Inserting(s: seq<WorkItem>, i: int, j: int)
  {
    && 0 <= j <= i < |s|
    && OrderedPairs(s, 0, j)
    && OrderedPairs(s, j + 1, i + 1)
    && (j < i ==> Compare(s[j], s[j + 1]) <= 0.0)
    && (0 < j < i ==> Compare(s[j - 1], s[j + 1]) <= 0.0)
  }

  /** Moving the inserted copy one place left keeps the insertion state. */
  lemma SwapStep(s: seq<WorkItem>, t: seq<WorkItem>, i: int, j: int)
    requires Inserting(s, i, j) && 0 < j && Compare(s[j - 1], s[j]) > 0.0
    requires |t| == |s| && t[j - 1] == s[j] && t[j] == s[j - 1]
    requires forall k :: 0 <= k < |s| && k != j - 1 && k != j ==> t[k] == s[k]
    ensures Inserting(t, i, j - 1)
  {
    CompareAntisymmetric(s[j - 1], s[j]);
    forall k | j <= k && k + 1 < i + 1 ensures Compare(t[k], t[k + 1]) <= 0.0 {
      if k == j {
        assert t[k] == s[j - 1] && t[k + 1] == s[j + 1];
      } else {
        assert t[k] == s[k] && t[k + 1] == s[k + 1];
      }
    }
    if 0 < j - 1 {
      assert t[j - 2] == s[j - 2];
    }
    assert OrderedPairs(t, 0, j - 1) by {
      forall k | 0 <= k && k + 1 < j - 1 ensures Compare(t[k], t[k + 1]) <= 0.0 {
        assert t[k] == s[k] && t[k + 1] == s[k + 1];
      }
    }
  }

  /** Exchanging two entries keeps the multiset of a sequence. */
  lemma SwapKeepsMultiset<T>(s: seq<T>, p: int, q: int)
    requires 0 <= p < |s| && 0 <= q < |s|
    ensures multiset(s[p := s[q]][q := s[p]]) == multiset(s)
  {
    var t := s[p := s[q]];
    assert multiset(t) == multiset(s) - multiset{s[p]} + multiset{s[q]};
    assert multiset(t[q := s[p]]) == multiset(t) - multiset{t[q]} + multiset{s[p]};
  }

  /** The insertion ends with the prefix s[..i+1] ordered. */
  lemma InsertDone(s: seq<WorkItem>, i: int, j: int)
    requires Inserting(s, i, j) && (j == 0 || Compare(s[j - 1], s[j]) <= 0.0)
    ensures OrderedPairs(s, 0, i + 1)
  {
  }

  /**
   * Sorts the working copies in place with the comparator (insertion sort,
   * moving each copy left past every copy that compares after it). The
   * comparator is antisymmetric but its tolerances make it intransitive, so
   * what the order guarantees is that every adjacent pair is in order.
   */
  method SortWork(a: array<WorkItem>)
    modifies a
    ensures multiset(a[..]) == multiset(old(a[..]))
    ensures OrderedPairs(a[..], 0, a.Length)
  {
    if a.Length == 0 {
      return;
    }
    var i := 1;
    while i < a.Length
      invariant 1 <= i <= a.Length
      invariant multiset(a[..]) == multiset(old(a[..]))
      invariant OrderedPairs(a[..], 0, i)
    {
      var j := i;
      while j > 0 && Compare(a[j - 1], a[j]) > 0.0
        invariant Inserting(a[..], i, j)
        invariant multiset(a[..]) == multiset(old(a[..]))
        decreases j
      {
        ghost var s := a[..];
        a[j - 1], a[j] := a[j], a[j - 1];
        SwapStep(s, a[..], i, j);
        assert a[..] == s[j - 1 := s[j]][j := s[j - 1]];
        SwapKeepsMultiset(s, j - 1, j);
        j := j - 1;
      }
      InsertDone(a[..], i, j);
      i := i + 1;
    }
  }
}
