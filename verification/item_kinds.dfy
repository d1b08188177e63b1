/**
 * Item types from ids and their colours (src/lib/packingAlgorithm.ts,
 * detectItemType and getItemColor).
 */
module ItemKinds {
  import opened Text
  import opened PackingTypes

  /**
   * The categories in the order they are tried, each with the fragments of
   * a lower-cased id that select it.
   */
  const Keywords: seq<(ItemType, seq<string>)> := [
    (Pallet, ["plt", "pallet"]),
    (Crate, ["crt", "crate"]),
    (Drum, ["drm", "drum"]),
    (Box, ["box"]),
    (Bag, ["bag"]),
    (Stand, ["std", "stand"]),
    (Tray, ["try", "tray"])
  ]

  /** Some fragment of the list occurs in `s`. */
  predicate AnyOccurs(s: string, fragments: seq<string>)
  {
    fragments != [] && (Contains(s, fragments[0]) || AnyOccurs(s, fragments[1..]))
  }

  /**
   * The reference reading of detection: the first category of `table` one of
   * whose fragments occurs in `s`, and Default when none does.
   */
  function FirstMatch(table: seq<(ItemType, seq<string>)>, s: string): ItemType
  {
    if table == [] then Default
    else if AnyOccurs(s, table[0].1) then table[0].0
    else FirstMatch(table[1..], s)
  }

  /** detectItemType: the category named by the lower-cased id. */
  function DetectItemType(id: string): ItemType
  {
    var lowerId := ToLower(id);
    if Contains(lowerId, "plt") || Contains(lowerId, "pallet") then Pallet
    else if Contains(lowerId, "crt") || Contains(lowerId, "crate") then Crate
    else if Contains(lowerId, "drm") || Contains(lowerId, "drum") then Drum
    else if Contains(lowerId, "box") then Box
    else if Contains(lowerId, "bag") then Bag
    else if Contains(lowerId, "std") || Contains(lowerId, "stand") then Stand
    else if Contains(lowerId, "try") || Contains(lowerId, "tray") then Tray
    else Default
  }

  lemma AnyOfTwo(s: string, a: string, b: string)
    ensures AnyOccurs(s, [a, b]) <==> Contains(s, a) || Contains(s, b)
  {
    assert [a, b][0] == a && [a, b][1..] == [b];
    assert AnyOccurs(s, [a, b]) <==> Contains(s, a) || AnyOccurs(s, [b]);
    AnyOfOne(s, b);
  }

  lemma AnyOfOne(s: string, a: string)
    ensures AnyOccurs(s, [a]) <==> Contains(s, a)
  {
    assert [a][0] == a && [a][1..] == [];
    assert AnyOccurs(s, [a]) <==> Contains(s, a) || AnyOccurs(s, []);
  }

  /** The if-chain of detectItemType is the first match in Keywords, tried in order. */
  lemma DetectMatchesTable(id: string)
    ensures DetectItemType(id) == FirstMatch(Keywords, ToLower(id))
  {
    var s := ToLower(id);
    var t := Keywords;
    AnyOfTwo(s, "plt", "pallet");
    AnyOfTwo(s, "crt", "crate");
    AnyOfTwo(s, "drm", "drum");
    AnyOfOne(s, "box");
    AnyOfOne(s, "bag");
    AnyOfTwo(s, "std", "stand");
    AnyOfTwo(s, "try", "tray");
    var t1 := t[1..];
    var t2 := t1[1..];
    var t3 := t2[1..];
    var t4 := t3[1..];
    var t5 := t4[1..];
    var t6 := t5[1..];
    var t7 := t6[1..];
    assert t6 == [(Tray, ["try", "tray"])] && t7 == [];
    assert t5[0] == (Stand, ["std", "stand"]) && t4[0] == (Bag, ["bag"]) && t3[0] == (Box, ["box"]);
    assert t2[0] == (Drum, ["drm", "drum"]) && t1[0] == (Crate, ["crt", "crate"]) && t[0] == (Pallet, ["plt", "pallet"]);
    assert FirstMatch(t6, s) == if AnyOccurs(s, ["try", "tray"]) then Tray else Default;
    assert FirstMatch(t5, s) == if AnyOccurs(s, ["std", "stand"]) then Stand else FirstMatch(t6, s);
    assert FirstMatch(t4, s) == if AnyOccurs(s, ["bag"]) then Bag else FirstMatch(t5, s);
    assert FirstMatch(t3, s) == if AnyOccurs(s, ["box"]) then Box else FirstMatch(t4, s);
    assert FirstMatch(t2, s) == if AnyOccurs(s, ["drm", "drum"]) then Drum else FirstMatch(t3, s);
    assert FirstMatch(t1, s) == if AnyOccurs(s, ["crt", "crate"]) then Crate else FirstMatch(t2, s);
    assert FirstMatch(t, s) == if AnyOccurs(s, ["plt", "pallet"]) then Pallet else FirstMatch(t1, s);
  }

  /**
   * FirstMatch picks the category at some position i: one of its fragments
   * occurs and no fragment of an earlier category does; Default means that
   * no fragment of the table occurs at all.
   */
  lemma {:induction false} FirstMatchIsFirst(table: seq<(ItemType, seq<string>)>, s: string)
    requires forall k :: 0 <= k < |table| ==> table[k].0 != Default
    ensures FirstMatch(table, s) == Default <==> forall k :: 0 <= k < |table| ==> !AnyOccurs(s, table[k].1)
    ensures FirstMatch(table, s) != Default ==>
      exists i :: 0 <= i < |table| && table[i].0 == FirstMatch(table, s) && AnyOccurs(s, table[i].1)
        && forall k :: 0 <= k < i ==> !AnyOccurs(s, table[k].1)
  {
    if table != [] {
      FirstMatchIsFirst(table[1..], s);
      if !AnyOccurs(s, table[0].1) {
        assert forall k :: 1 <= k < |table| ==> table[k] == table[1..][k - 1];
        if FirstMatch(table, s) != Default {
          var j :| 0 <= j < |table[1..]| && table[1..][j].0 == FirstMatch(table, s) && AnyOccurs(s, table[1..][j].1)
            && forall k :: 0 <= k < j ==> !AnyOccurs(s, table[1..][k].1);
          assert table[j + 1] == table[1..][j];
          assert forall k :: 0 <= k < j + 1 ==> !AnyOccurs(s, table[k].1) by {
            forall k | 0 <= k < j + 1 ensures !AnyOccurs(s, table[k].1) {
              if k > 0 {
                assert table[k] == table[1..][k - 1];
              }
            }
          }
        }
      } else {
        assert table[0].0 != Default;
      }
    }
  }

  /**
   * detectItemType reads the id case-insensitively: a detected category has
   * a fragment in the lower-cased id and no earlier category has; Default
   * means no fragment of any category occurs.
   */
  lemma DetectFirstMatch(id: string)
    ensures DetectItemType(id) == DetectItemType(ToLower(id))
    ensures DetectItemType(id) == Default <==>
      forall k :: 0 <= k < |Keywords| ==> !AnyOccurs(ToLower(id), Keywords[k].1)
    ensures DetectItemType(id) != Default ==>
      exists i :: 0 <= i < |Keywords| && Keywords[i].0 == DetectItemType(id)
        && AnyOccurs(ToLower(id), Keywords[i].1)
        && forall k :: 0 <= k < i ==> !AnyOccurs(ToLower(id), Keywords[k].1)
  {
    ToLowerIdempotent(id);
    DetectMatchesTable(id);
    DetectMatchesTable(ToLower(id));
    FirstMatchIsFirst(Keywords, ToLower(id));
  }

  /** getItemColor: the colour ITEM_COLORS gives the type, or the default colour. */
  function GetItemColor(t: ItemType): (c: string)
    ensures c == ItemColor(t)
    ensures t == Default <==> c == ItemColor(Default)
  {
    ItemColorsDistinct(t, Default);
    ItemColor(t)
  }
}
