/** Records of the container packer (src/types/packing.ts). */
module PackingTypes {
  import opened Wrappers

  /** The item categories, each with its own colour in the 3D view. */
  datatype ItemType = Pallet | Crate | Drum | Box | Bag | Stand | Tray | Default

  /**
   * A line of the packing list: `quantity` identical units. Lengths are in
   * millimetres, weights in kilograms; `itemType` is optional, and when it
   * is absent the type is detected from the id. stackable and maxStack are
   * carried but not consulted by the packer.
   */
  datatype PackingItem = PackingItem(
    id: string,
    length: real,
    width: real,
    height: real,
    weight: real,
    quantity: int,
    stackable: bool,
    maxStack: int,
    fragile: bool,
    itemType: Option<ItemType>)

  /** The inner dimensions (mm) and payload (kg) of a container. */
  datatype Container = Container(length: real, width: real, height: real, maxWeight: real)

  /** One placed unit: its corner (x, y, z) and extent (l, w, h), in millimetres; labelText is the source's `label`. */
  datatype PlacedItem = PlacedItem(
    itemId: string,
    x: real,
    y: real,
    z: real,
    l: real,
    w: real,
    h: real,
    color: string,
    labelText: string,
    itemType: ItemType)

  /** The units of one packing-list line that did not fit, and why. */
  datatype UnplacedItem = UnplacedItem(itemId: string, remainingQuantity: int, reason: string)

  /**
   * The packer's answer. Volumes are in cubic metres; fillRate is a
   * percentage, None standing for the NaN or Infinity of a division by a
   * zero container volume.
   */
  datatype PackingResult = PackingResult(
    positions: seq<PlacedItem>,
    fillRate: Option<real>,
    totalWeight: real,
    summary: string,
    unplacedItems: seq<UnplacedItem>,
    containerVolume: real,
    usedVolume: real)

  /** An upper-case hexadecimal digit. */
  predicate IsHexDigit(ch: char)
  {
    '0' <= ch <= '9' || 'A' <= ch <= 'F'
  }

  /** ITEM_COLORS: the colour of each item type, a '#' and six hexadecimal digits. */
  function ItemColor(t: ItemType): (c: string)
    ensures |c| == 7 && c[0] == '#'
    ensures forall i :: 1 <= i < 7 ==> IsHexDigit(c[i])
  {
    match t
    case Pallet => "#8B5A2B"
    case Crate => "#FF8C00"
    case Drum => "#737373"
    case Box => "#DAA520"
    case Bag => "#9370DB"
    case Stand => "#2D2D2D"
    case Tray => "#FF69B4"
    case Default => "#22D3EE"
  }

  /** Every item type has a colour of its own. */
  lemma ItemColorsDistinct(s: ItemType, t: ItemType)
    ensures ItemColor(s) == ItemColor(t) <==> s == t
  {
    if s != t {
      var a, b := ItemColor(s), ItemColor(t);
      assert a[1..] != b[1..] by {
        match s
        case Pallet => assert a[1] == '8';
        case Crate => assert a[1] == 'F' && a[2] == 'F';
        case Drum => assert a[1] == '7';
        case Box => assert a[1] == 'D';
        case Bag => assert a[1] == '9';
        case Stand => assert a[1] == '2' && a[2] == 'D';
        case Tray => assert a[1] == 'F' && a[2] == 'F' && a[3] == '6';
        case Default => assert a[1] == '2' && a[2] == '2';
      }
    }
  }

  const DefaultContainer: Container := Container(5898.0, 2352.0, 2393.0, 28000.0)

  /** The reasons an unplaced record can carry. */
  const WeightLimitExceeded: string := "Weight limit exceeded"
  const DimensionsExceedContainer: string := "Item dimensions exceed container"
  const NoRemainingSpace: string := "No remaining space"
}
