# Container packer and delivery-route engine, modelled in Dafny

This project models the two computational cores of a logistics web
application.

**The container packer** is `packContainerSmart` in `src/lib/packingAlgorithm.ts`,
together with `detectItemType` and `getItemColor`. It takes a packing list of
item lines (dimensions in millimetres, weight in kilograms, quantity, fragile
flag, optional type) and a container. It works in four stages:

- It makes a working copy of every line, with the unit volume and the units
  still to load.
- It sorts the copies: heaviest in total first (1 kg tolerance), then largest
  in total volume (0.001 m3 tolerance), then non-fragile before fragile, then
  tallest first.
- It places the units one at a time with a shelf cursor. Units are laid along
  the container's length in rows, rows advance across its width, and layers
  stack upward. Gaps are 20 mm between units, 30 mm between rows and 50 mm
  between layers. Each unit gets at most ten attempts.
- It reports the placed positions, the lines with units left and why, the
  load, the used volume, the fill rate and a summary sentence.

**The route engine** is `src/lib/routeOptimization.ts`. `optimizeRoute` works
in these steps:

- It checks that there are at least two stops and that the depot is one of
  them.
- It builds the stop-to-stop distance matrix.
- It builds a nearest-neighbour tour from the depot and improves it by 2-opt
  until no interior segment reversal shortens it.
- It asks the routing service for legs. When that request fails it uses
  straight-line legs at 40 km/h.
- It walks the ordered stops with a clock that starts at the departure time.
  At each stop the clock waits for the time window to open, records a
  violation when the stop is reached after the window closes, and adds the
  service time.

Modules:

| file | module | models |
|---|---|---|
| `wrappers.dfy` | `Wrappers` | Option and Result |
| `text.dfy` | `Text` | `toLowerCase`, `includes`, `Number()` on digit strings, `toString`, `padStart(2, '0')` |
| `collections.dfy` | `Collections` | set, sequence and counting helpers |
| `packing_types.dfy` | `PackingTypes` | the packer's records, `ITEM_COLORS`, `DEFAULT_CONTAINER` |
| `item_kinds.dfy` | `ItemKinds` | `detectItemType`, `getItemColor` |
| `packing_order.dfy` | `PackingOrder` | the working copies, the comparator and the in-place sort |
| `packing_cursor.dfy` | `PackingCursor` | one placement attempt as a step on the cursor state, and the attempt and unit loops |
| `packing.dfy` | `Packing` | `packContainerSmart`: the item loop, the unplaced report, the fill rate, the summary |
| `packing_samples.dfy` | `PackingSamples` | `packContainerSmart` on the sample line BOX-001 in the default container |
| `route_types.dfy` | `RouteTypes` | stops, legs, routing and the route result |
| `clock.dfy` | `Clock` | `parseTime`, `formatTime` |
| `tour.dfy` | `Tour` | `buildDistanceMatrix`, `nearestNeighbor`, `calculateRouteDistance`, `twoOpt` |
| `eta.dfy` | `Eta` | `calculateETAs` |
| `route_engine.dfy` | `RouteEngine` | `createFallbackRoute`, `optimizeRoute` |

JavaScript numbers are modelled as `real`. NaN is modelled as `None` wherever
the source can produce it:

- `parseTime` of malformed text;
- the ETA clock that then inherits the NaN;
- a fill rate over a zero container volume.

Every comparison with NaN is false, as in JavaScript. `Math.floor` is written
out as the floor (rounding toward minus infinity). `%`, on integers and on
numbers, is written out as JavaScript's truncating remainder, which takes the
sign of the dividend.

Results worth noting:

- **The fragile lift cannot happen.** The source has a branch meant to lift a
  fragile unit onto a layer at 300 mm or higher. It only fires while the floor
  is below 300 mm, and at that point every recorded layer lies below the floor.
  So the branch can never fire (`PackingCursor.RaiseNeverTaken`).
- **2-opt terminates.** Each improvement removes a tour from the finite set of
  strictly shorter rearrangements (`Tour.ShorterShrinks`).
- **2-opt's result is locally optimal.** `Tour.TwoOpt` returns a rearrangement
  of its input with the same end points, no longer than the input, and no
  interior reversal shortens it.

## Model

| member | source | states |
|---|---|---|
| Text.ToLower | src/lib/packingAlgorithm.ts:21 | the lower-cased id has the same length, and each character is the input character lower-cased (ASCII letters shift by 32, all else is unchanged) |
| Text.ToLowerIdempotent | src/lib/packingAlgorithm.ts:21 | lower-casing an already lower-cased id changes nothing |
| Text.JsNumber | src/lib/routeOptimization.ts:114 | a time field is a number exactly when it is a (possibly empty) run of digits |
| Text.NatToString | src/lib/routeOptimization.ts:122 | toString of a whole number is at least one digit, only digits; a single digit exactly below 10, at most two below 100 |
| Text.IntToString | src/lib/routeOptimization.ts:122 | toString of an integer is non-empty, all digits when non-negative, and starts with '-' when negative |
| Text.PadStart2 | src/lib/routeOptimization.ts:122 | padStart(2, '0') keeps the text as its suffix, reaches length 2 (or keeps a longer length), and pads only with '0' |
| Text.NatToStringValue | src/lib/routeOptimization.ts:114-122 | reading back the digits that toString writes gives the number |
| Text.PaddedNatValue | src/lib/routeOptimization.ts:114-122 | the zero-padded digits read back as the number |
| Text.TwoDigitsRoundTrip | src/lib/routeOptimization.ts:114-122 | a two-digit field is below 100, and writing its value with toString and padStart gives the field back |
| Clock.IndexOf | src/lib/routeOptimization.ts:114 | the first position of the separator at or after the start, or none when it does not occur there |
| Clock.ParseTime | src/lib/routeOptimization.ts:113-116 | parseTime's result, when it is a number, is non-negative (the digit fields cannot be signed) |
| Clock.ParseColon | src/lib/routeOptimization.ts:113-116 | "HH:mm" with two-digit fields reads as HH * 60 + mm |
| Clock.FormatFields | src/lib/routeOptimization.ts:119-121 | for a non-negative time, JavaScript's floor and truncating % give the hour of the day and the minute of the hour of its whole minutes |
| Clock.FormatShape | src/lib/routeOptimization.ts:119-123 | formatTime of a non-negative time is the padded hour of the day, a colon, and the padded minute of the hour |
| Clock.FormatThenParse | src/lib/routeOptimization.ts:113-123 | formatTime writes five characters for a non-negative time, and parseTime reads them back as its whole minutes modulo one day |
| Clock.FormatParseRoundTrip | src/lib/routeOptimization.ts:113-123 | parseTime(formatTime(m)) = m mod 1440 for every whole m >= 0 |
| Clock.ParseFormatRoundTrip | src/lib/routeOptimization.ts:113-123 | every valid "HH:mm" (HH < 24, mm < 60) parses, and formatting the result gives the same text back |
| Tour.BuildDistanceMatrix | src/lib/routeOptimization.ts:20-39 | the matrix is n by n, zero on the diagonal, and the stops' distance everywhere else |
| Tour.MatrixSymmetric | src/lib/routeOptimization.ts:20-39 | the matrix is symmetric whenever the distance function is |
| Tour.CalculateRouteDistance | src/lib/routeOptimization.ts:71-77 | the loop's total is the sum of the matrix entries between consecutive route entries |
| Tour.NearestUnvisited | src/lib/routeOptimization.ts:49-57 | the scan gives -1 exactly when every index is visited; otherwise an unvisited index at minimum distance from the current one, the lowest such on ties |
| Tour.NearestNeighbor | src/lib/routeOptimization.ts:42-68 | the route has n + 1 entries, starts and ends at the depot, and visits every other index exactly once in between; each step goes to the nearest unvisited index (the lowest on ties) |
| Tour.TwoOptMove | src/lib/routeOptimization.ts:92-96 | the new route is a permutation of the same length; it keeps the entries before i and after j and reverses those from i to j |
| Tour.MoveRearranges | src/lib/routeOptimization.ts:89-96 | a reversal strictly inside the route keeps its values and its first and last entries |
| Tour.ShorterShrinks | src/lib/routeOptimization.ts:86-107 | each improvement strictly shrinks the finite set of rearrangements shorter than the best distance, so the while loop ends |
| Tour.ImproveFrom | src/lib/routeOptimization.ts:90-105 | the inner loop returns a rearrangement no longer than its start; when the distance did not drop, the route is unchanged and no move with this i and any later j shortens it |
| Tour.ImprovePass | src/lib/routeOptimization.ts:87-106 | one pass reports an improvement exactly when the distance dropped; a pass without one leaves the route unchanged and locally optimal; a route of at most 3 entries never improves |
| Tour.TwoOpt | src/lib/routeOptimization.ts:80-110 | twoOpt returns a rearrangement with the same end points, no longer than the input, that no interior reversal shortens; a route of at most 3 entries comes back unchanged |
| Tour.TourRearranged | src/lib/routeOptimization.ts:287-290 | rearranging a depot tour while keeping its end points gives a depot tour again |
| Eta.Add | src/lib/routeOptimization.ts:149 | adding to the clock keeps it NaN exactly when it was NaN, and adds the minutes otherwise |
| Eta.ParseClock | src/lib/routeOptimization.ts:134 | the departure clock is NaN exactly when parseTime fails, and otherwise the parsed non-negative minutes |
| Eta.FormatClockReadsBack | src/lib/routeOptimization.ts:119-123 | a NaN clock prints "NaN:NaN"; a non-negative clock prints five characters that parse back as its minutes within the day |
| Eta.CalculateETAs | src/lib/routeOptimization.ts:126-182 | the entries and violations the loop builds are those of the walk from the parsed departure time over all the ordered stops |
| Eta.VisitStop | src/lib/routeOptimization.ts:147-177 | one later stop: the eta is the formatted arrival; the clock waits for an early window; a violation is recorded exactly when the stop is late, quoting the eta and the window end; the departure adds the service time |
| Eta.EtasEntries | src/lib/routeOptimization.ts:136-178 | there is one entry per stop, in the stops' order |
| Eta.LateStopsExact | src/lib/routeOptimization.ts:154-166 | the late stops are listed in increasing order and are exactly the stops reached after their window ends |
| Eta.ViolationsMatch | src/lib/routeOptimization.ts:161-166 | there is one violation per late stop, in order, and none for the depot |
| Eta.ViolationQuotesEta | src/lib/routeOptimization.ts:151-165 | a violation names the late stop and quotes its eta entry and its window end verbatim |
| Eta.SettleNotEarlier | src/lib/routeOptimization.ts:154-160 | waiting never moves the clock back; a stop without both window ends never waits; an early arrival moves the clock to the window start |
| Eta.WithinWindow | src/lib/routeOptimization.ts:154-166 | an arrival inside the window, both ends included, neither waits nor is late |
| Eta.EarlyNotLate | src/lib/routeOptimization.ts:158-161 | an early arrival waits for the window and is never late |
| Eta.LateKeepsClock | src/lib/routeOptimization.ts:161-166 | lateness is recorded but does not move the clock |
| Eta.ClockNeverDecreases | src/lib/routeOptimization.ts:136-178 | with a numeric departure time and non-negative durations and service times, each stop is reached no earlier than the previous one was left, and left no earlier than it was reached |
| Eta.NaNDeparture | src/lib/routeOptimization.ts:134-166 | a malformed departure time makes every arrival NaN, so no violation is ever recorded |
| RouteEngine.FindIndex | src/lib/routeOptimization.ts:278 | the first index holding the depot id, or -1 exactly when no stop has it |
| RouteEngine.Points | src/lib/routeOptimization.ts:258-263 | one position per stop, in order |
| RouteEngine.CreateFallbackRoute | src/lib/routeOptimization.ts:234-266 | one straight-line leg between each pair of consecutive stops (none for no stops), and the stops' positions as geometry |
| RouteEngine.FallbackChain | src/lib/routeOptimization.ts:238-256 | the fallback legs chain from the first stop to the last; each has one step covering the whole leg, "Drive to" the next stop |
| RouteEngine.FallbackDuration | src/lib/routeOptimization.ts:241-242 | the fallback drives at 40 km/h: total seconds are 0.09 times total metres |
| RouteEngine.FallbackDistance | src/lib/routeOptimization.ts:238-248 | over a route of matrix indices, the fallback legs add up to the route's matrix distance |
| RouteEngine.TourMoves | src/lib/routeOptimization.ts:42-68 | a tour of at least two stops never repeats an index between consecutive entries |
| RouteEngine.StopsOf | src/lib/routeOptimization.ts:293 | the ordered stops are the stops at the tour's indices |
| RouteEngine.ErrorMessagesDistinct | src/lib/routeOptimization.ts:272-281 | the messages of the two thrown errors and of the missing-leg crash tell the errors apart |
| RouteEngine.RouteOrdered | src/lib/routeOptimization.ts:296-313 | the routing is the service's answer, or exactly the straight-line fallback when the service fails; the result succeeds exactly when there is a leg per gap between stops, and fails with MissingLeg otherwise; on success it holds the stops, the legs, their summed distance and duration, the ETAs and violations of the walk from the departure time, and the geometry; with the fallback it always succeeds and the duration is 0.09 times the distance |
| RouteEngine.PlanTour | src/lib/routeOptimization.ts:284-290 | the matrix holds the stops' distances (zero on the diagonal); the nearest-neighbour tour and the final tour are depot tours; each nearest-neighbour step goes to the nearest unvisited stop, the lowest index on ties; the final tour is no longer and no 2-opt move shortens it |
| RouteEngine.PlannedFallbackDistance | src/lib/routeOptimization.ts:238-248 | the straight-line legs over a planned tour add up to the tour's length in the matrix |
| RouteEngine.OptimizeRoute | src/lib/routeOptimization.ts:268-314 | fewer than two stops fails with TooFewStops, then a missing depot with DepotNotFound, before any other work; otherwise the tour is planned as PlanTour states and orders the stops, starting and ending at the depot; the routing is the service's answer or exactly the fallback, and the fallback always succeeds; success holds exactly when there is a leg per gap; a successful result is the ordered stops, the legs, their sums, the ETAs, the violations and the geometry; with the fallback the total distance is the tour's length |
| RouteEngine.DefaultDepartureMinutes | src/lib/routeOptimization.ts:271 | the default departure "08:00" reads as 480 minutes |
| PackingTypes.ItemColor | src/types/packing.ts:52-61 | every type's colour is a '#' and six hex digits |
| PackingTypes.ItemColorsDistinct | src/types/packing.ts:52-61 | two types share a colour only when they are the same type |
| ItemKinds.DetectMatchesTable | src/lib/packingAlgorithm.ts:20-30 | the if-chain is the first match in the ordered keyword table (pallet, crate, drum, box, bag, stand, tray) |
| ItemKinds.FirstMatchIsFirst | src/lib/packingAlgorithm.ts:20-30 | the first match picks a category one of whose fragments occurs while no earlier category's does, and Default exactly when no fragment occurs |
| ItemKinds.DetectFirstMatch | src/lib/packingAlgorithm.ts:20-30 | detection ignores case; a detected type has a fragment in the lower-cased id and no earlier type has one; Default means none occurs |
| ItemKinds.GetItemColor | src/lib/packingAlgorithm.ts:16-18 | the colour is the type's own, and equals the default colour exactly for the default type |
| PackingOrder.CompareAntisymmetric | src/lib/packingAlgorithm.ts:48-62 | swapping the operands negates the comparator, and a copy ties with itself |
| PackingOrder.CompareTiers | src/lib/packingAlgorithm.ts:48-62 | heavier in total by more than 1 kg goes first; otherwise larger in total by more than 0.001 m3; otherwise non-fragile before fragile; otherwise taller first |
| PackingOrder.SortWork | src/lib/packingAlgorithm.ts:48-62 | the sort permutes the copies, and every adjacent pair ends in comparator order |
| PackingCursor.FirstHigh | src/lib/packingAlgorithm.ts:99 | the found layer is recorded and at or above 300 mm; none exactly when every layer is below 300 mm |
| PackingCursor.Attempt | src/lib/packingAlgorithm.ts:87-173 | a placement happens only at the cursor, inside the container and within the weight limit, and adds the unit's weight and volume; a move leaves the load unchanged; the attempts stop exactly when the unit fits across but is too tall or too heavy |
| PackingCursor.NextLayerSound | src/lib/packingAlgorithm.ts:138-148 | starting a new layer keeps the state sound and raises the floor |
| PackingCursor.AttemptSound | src/lib/packingAlgorithm.ts:89-173 | every attempt keeps the state sound and never lowers the floor; x stays non-negative for non-negative lengths |
| PackingCursor.RaiseNeverTaken | src/lib/packingAlgorithm.ts:96-106 | in every sound state the fragile lift is never taken |
| PackingCursor.LayersStayBelow | src/lib/packingAlgorithm.ts:140-143 | every recorded layer stays below the current floor after each attempt |
| PackingCursor.OversizeNeverPlaced | src/lib/packingAlgorithm.ts:89-95 | a unit wider or taller than the container is never placed, nor one longer than it while the cursor's x is non-negative |
| PackingCursor.TriesSound | src/lib/packingAlgorithm.ts:86-174 | from a sound cursor, a unit's attempts keep the state sound and never lower the floor; a placed unit depicts the copy inside the container, within the weight limit, and adds its weight and volume; a unit not placed leaves the load unchanged; an oversize unit is never placed |
| PackingCursor.PlaceUnit | src/lib/packingAlgorithm.ts:82-174 | the attempt loop ends where Tries(start, w, ct, 10) does: at most ten attempts, stopping at the first placement or at the first attempt that is too tall or too heavy (the two breaks); the outcome keeps what TriesSound lists |
| PackingCursor.UnitsCount | src/lib/packingAlgorithm.ts:81-177 | a unit loop that has not stopped placed one unit per turn; a stopped one placed fewer, and a further turn changes nothing |
| PackingCursor.StoppedStays | src/lib/packingAlgorithm.ts:176 | once a unit is not placed, no later turn changes the unit loop (the break out of the unit loop) |
| PackingCursor.FirstUnitFails | src/lib/packingAlgorithm.ts:81-177 | when the first unit is not placed, the unit loop places nothing and ends where that unit's attempts left the cursor |
| PackingCursor.OversizeRunEmpty | src/lib/packingAlgorithm.ts:89-95 | no unit of a copy wider or taller than the container is loaded, nor of one longer than it while x is non-negative; the weight and volume stay as they were |
| PackingCursor.UnitsSound | src/lib/packingAlgorithm.ts:81-177 | a unit loop whose every unit's attempts keep what TriesSound lists keeps the state sound, places units that depict the copy inside the container, adds their weight and volume, and places at most one unit per turn |
| PackingCursor.RunSound | src/lib/packingAlgorithm.ts:81-177 | from a sound cursor, a copy's unit loop places at most the units it has left, each inside the container; the load grows by exactly their weight and volume and stays within the limit once anything is placed |
| PackingCursor.PlaceItem | src/lib/packingAlgorithm.ts:81-177 | the unit loop ends where UnitRun(start, w, ct) does: one turn per unit left, each the attempt loop from the cursor the last turn left, stopping at the first unit not placed; it places at most the units left and keeps what RunSound lists |
| Packing.Works | src/lib/packingAlgorithm.ts:40-45 | one working copy per line, in list order |
| Packing.SumsAppendCopies | src/lib/packingAlgorithm.ts:121-122 | n more units of a copy add n times its unit weight and unit volume to the totals |
| Packing.ReasonCases | src/lib/packingAlgorithm.ts:186-191 | the reason is the weight limit exactly when the load reached it; otherwise oversized dimensions exactly when an extent exceeds the container's; otherwise lack of room |
| Packing.UnplacedExact | src/lib/packingAlgorithm.ts:183-197 | the report has an entry, with its count and reason, exactly for each copy with units left; it is empty exactly when every unit was placed |
| Packing.FillRate | src/lib/packingAlgorithm.ts:199 | the fill rate is a number exactly when the container volume is non-zero, and at most 100 exactly when the used volume fits |
| Packing.SummaryOpens | src/lib/packingAlgorithm.ts:202-211 | the summary opens with the fixed sentence; the heavy clause follows exactly when some line weighs over 50 kg; after it, the fragile clause follows exactly when some line is fragile |
| Packing.SummaryCloses | src/lib/packingAlgorithm.ts:212-216 | the summary ends with "All items successfully loaded." exactly when no line was left over |
| Packing.SortedFromItems | src/lib/packingAlgorithm.ts:40-62 | every sorted copy is the fresh copy of a line of the list |
| Packing.LoadOne | src/lib/packingAlgorithm.ts:77-180 | loading a list of one copy gives that copy's unit loop from the empty container |
| Packing.FollowsStep | src/lib/packingAlgorithm.ts:77-180 | running copy k's unit loop from the cursor the first k copies left, and appending its units, gives the loading fold after k + 1 copies |
| Packing.LoadStep | src/lib/packingAlgorithm.ts:77-180 | taking copy k's placed units off its count keeps the item loop's bookkeeping for k + 1 copies: the owners of the positions in copy order, the counts of the other copies untouched, every position a unit of its copy inside the container, and the totals the sums over the positions |
| Packing.LoadStart | src/lib/packingAlgorithm.ts:64-75 | before the item loop nothing is loaded, the cursor is at the start and every copy is untouched |
| Packing.LoadAll | src/lib/packingAlgorithm.ts:77-180 | after the item loop the cursor and positions are those of the loading fold LoadRun, each copy's unit loop in turn from the cursor the last left; each copy's count is reduced by exactly its placed units; the positions are those units in copy order, inside the container, and the load is their sum |
| Packing.LoadTurn | src/lib/packingAlgorithm.ts:77-179 | one turn of the item loop keeps LoadAll's state, moving it from k copies to k + 1 |
| Packing.LoadCopy | src/lib/packingAlgorithm.ts:79-81 | one turn of the item loop places the units copy k's unit loop places, and takes exactly that many off copy k's count alone |
| Packing.CopyStep | src/lib/packingAlgorithm.ts:77-179 | copy k's unit loop, followed by taking its units off the count, moves LoadAll's state from k copies to k + 1 |
| Packing.LoadedCopies | src/lib/packingAlgorithm.ts:179 | after the loop each copy's placed and remaining units add up to its line's quantity |
| Packing.Pack | src/lib/packingAlgorithm.ts:32-227 | packContainerSmart: the copies are sorted; the positions, weight and volume are those of the loading fold LoadRun over the sorted copies; the positions are units of the copies in copy order, inside the container, never over the weight limit; weight and volume are sums over the positions; placed plus left equals the quantity; the unplaced report, fill rate and summary follow; an empty list places nothing |
| PackingSamples.BoxFits | src/lib/packingAlgorithm.ts:86-149 | each of the twenty BOX-001 units goes in on the first attempt at its cursor; the cursor moves 320 mm along the row, and after the eighteenth unit to the row 230 mm across |
| PackingSamples.BoxesPlaced | src/lib/packingAlgorithm.ts:81-177 | the unit loop of BOX-001 in the default container places the first n boxes, one at each cursor in turn, without stopping |
| PackingSamples.BoxRun | src/types/packing.ts:63-73 | the unit loop of BOX-001 in the default container places all twenty boxes, loading 160 kg |
| PackingSamples.BoxLayout | src/lib/packingAlgorithm.ts:108-149 | the twenty boxes lie on the floor; the first eighteen at x = 0, 320, …, 5440 in the first row, the last two at x = 0 and 320 in the row at y = 230 |
| PackingSamples.OneLineSorted | src/lib/packingAlgorithm.ts:40-62 | a one-line list sorts to that line's own working copy |
| PackingSamples.BoxListLoads | src/lib/packingAlgorithm.ts:77-180 | loading the sorted copies of the list holding BOX-001 alone is BOX-001's unit loop |
| PackingSamples.PackBoxes | src/lib/packingAlgorithm.ts:32-227 | packContainerSmart on BOX-001 in the default container places all twenty boxes where BoxLayout says, loads 160 kg, and reports nothing unplaced |

## Left out

- Haversine distance is not modelled. The distance between two stops is a function argument `dist`, and the fallback legs and the matrix use it alike.
- The OSRM request (`fetchOSRMRoute`) is not modelled. It is a function argument that returns the legs and geometry for the ordered stops, or `None` for any failure, after which the fallback is used as in the source. How OSRM's reply is decoded into legs is not modelled.
- `geocodeAddress` and `reverseGeocode` are network calls outside the core.
- `async`/`await` and `console.error` are not modelled.
- Thrown errors are results. `optimizeRoute`'s two thrown errors are `Failure(TooFewStops)` and `Failure(DepotNotFound)`.
- The TypeError thrown when the routing service returns fewer legs than `calculateETAs` reads is `Failure(MissingLeg)`.
- Eta.CalculateETAs: requires at least one leg per gap between stops. `RouteEngine.RouteOrdered` checks this first and reports `MissingLeg` otherwise.
- Eta.CalculateETAs: takes the two clock conversions as an argument. The route engine passes `parseTime` and `formatTime`.
- `departureTime = '08:00'` is modelled as the constant `RouteEngine.DefaultDepartureTime`. Callers pass it explicitly.
- Text.JsNumber: covers digit strings only. The empty string reads as 0, as `Number("")` does. Signs, decimals, exponents, surrounding whitespace and hexadecimal read as NaN here, although JavaScript reads them as numbers.
- Text.ToLower: lower-cases ASCII letters only. JavaScript's full Unicode case mapping is not modelled.
- Numbers are exact reals. There is no floating-point rounding, and Infinity and NaN are not modelled except where the source can produce NaN.
- `nearestNeighbor` never ends when every unvisited distance is Infinity or NaN. Distances here are always finite reals, so that loop is not modelled.
- PackingOrder.SortWork: `Array.prototype.sort`'s algorithm is engine-defined. The model sorts by stable insertion with the same comparator. Because the tolerances make the comparator intransitive, the model promises a permutation with every adjacent pair in order, not a total order.
- Quantities are integers. A fractional quantity is not modelled.
- Packing.Pack: positions are shown to have x >= 0 only when every line has a non-negative length.
- `stackable` and `maxStack` are carried in `PackingItem` but never read by the packer.
- ItemKinds.GetItemColor: item types are the eight `ItemType` values only. In the source a line's type can be any string, because the spreadsheet import (`src/pages/Index.tsx:115`) copies `row.type` unchecked. For such a string `getItemColor` falls back to the default colour, and the placed unit carries that string as its type. The model cannot express this, and within it the fallback is unreachable.
- The placed item's `label` field is named `labelText`, because `label` is a keyword in Dafny.
- `SAMPLE_ITEMS` is sample data. Only its line BOX-001 is modelled, in `PackingSamples`.
