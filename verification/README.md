# Models of the calendar, MD5, Base32, the connection pool and radix conversion

Dafny models of five components of the repository, with proofs of what they promise. `dafny verify dfyconfig.toml`
checks all of them; the proofs are small, so a solver limit of `--resource-limit 2000000` is enough too.

## What is modelled

**Slot layout** (`SlotSegs`, `SliceSegs`, `FirstFit`, `StableSort`, `SlotLevels`, `SlotGraph`, `SlotCoords`,
`SlotLayout`, `SlotTheorems`, `SlotSeries`, `SlotGuarantees`, `SlotGroups`, `SlotOverlap`). The timed segments of an
agenda column are objects whose fields the methods of `SlotLayout` write, as the JavaScript does: forward lists,
memoised pressures, memoised coordinates. Each method is proved equal to a function on values: first-fit levels,
longest forward paths in the collision graph, and a recursion that carries a memo table. The theorems are about those
functions: first fit is a permutation, collision-free and optimal; the pressure is the longest path; every segment is
placed inside the unit interval; n mutually colliding segments share the width equally, and in any layout every
segment belongs to a series whose members share equally what is left to them (`SlotSeries`). Segments that collide do
not overlap as long as there are at most two levels. With three levels they can: `SlotOverlap` holds the input, and
the exact threshold. What happens to a group of segments depends on the group alone (`SlotGroups`), so equal shares
and freedom from overlap also hold for every group that collides with nothing outside itself, whatever else is in the
column.

**Cells and days** (`DayCells`, `RangeSegments`). The conversions between grid cells, cell offsets, day offsets and
dates with hidden days, negative offsets and both directions of writing, and the cutting of date ranges into rows.
Columns are sorted by `Array.sort` without a comparator, that is as text, so in a grid of more than ten columns ranges
over columns 9 and 10 would come out with their ends exchanged. No view has such a grid: all of them ask for
`getCellsPerWeek()` columns or for one (fullcalendar.js:2002, 2057, 2099, 2705, 2746), so at most seven, and in those
the order always holds. The bound of ten is a property of `rangeToSegments` alone.

**Day stacking** (`DayStacking`). Rows, subrows and column heights of the all-day renderer.

**Event manager** (`EventFetch`, `EventRuns`, `LazyFetch`, `ViewVisibility`, `ViewSegments`). The class with its
generation number, pending counter, cache, reports and eventDataTransform hooks; the state machine of all its runs, in
which answers come in any order; and the comparison of lazy with eager fetching. What is drawn is the array last
reported. A source that is removed while it is being asked is not forgotten: its answer still enters the cache. The
model keeps these sources as orphans and proves the exact condition for a removed source to stay away; a source
removed while asked and added again contributes twice. Lazy fetching draws what eager fetching would, and the orphans'
events besides. Which events a view shows is a parameter; the only thing asked of a source is that its own test covers
the view's, and `ViewVisibility` has the tests of the all-day, month and agenda views, which are what
`rangeToSegments` and `sliceSegs` render (`ViewSegments`).

**Dates** (`IsoWeek`, `IsoDates`, `IsoDateGrammar`, `IsoInstants`, `EventRevert`). ISO week numbers over the proleptic
Gregorian calendar; printing with format `u` and parsing, against a definition of the written forms and of the
instants they denote; moving and resizing the events of a group and undoing it. The format `u` marks local time with a
Z, so parsing it with the zone honoured is right only where local time is UTC. Undoing a drop fails at one instant,
the epoch, which `addDays` takes for a missing date. Undoing a resize can fail there too, and fails wherever the
resized end was not after the start; the exception is a resized end that equals the default end, as when an all-day
event is shortened to its first day. Both conditions are exact for all events.

**MD5** (`BlockHash`, `Md5Rfc`, `Md5Long`, `Md5Transform`, `Md5Stream`, `Md5Digest`, `Md5Vectors`). `Md5Rfc` is the
algorithm of RFC 1321 on 32-bit words. `Md5Long` is the 64-bit arithmetic of the code, a long being its two halves.
`Md5Transform` has the 64 assignments. `Md5Stream` is the buffering and counting, for any compression function.
`Md5Digest` is the class. The digest is right for every array of bytes; the overload on strings hashes only as many
bytes of the encoded string as it has characters. The class calls `md5Update` on one chunk of data only; over several
chunks the low count runs past 32 bits without a carry into the high one, so the saved length is right exactly below
2^32 bits.

**Base32** (`Base32Bits`, `Base32`, `Base32RoundTrip`, `Base32Laws`). The encoder and decoder bit by bit, against
section 5 of RFC 3548, with the wrap-around of the sizes they compute. The code pads only arrays of up to four bytes,
so longer ones are padded as the standard asks only when their length is a multiple of five.

**Connection pool** (`Pools`, `ConnectionPools`, `PoolInterleavings`, `PoolRefinement`). The pool as a value, the
class with its slots, and a state machine of all interleavings in which the holder of the lock and each return take
one access to the shared slots at a time. What the driver answers is a parameter.

**Radix conversion** (`Radix`). Binary strings of any length to octal and hexadecimal, integers and fractions.

`Wrappers`, `Sequences`, `Numerals`, `Bytes` and `JavaInts` hold what several components share.

## Model

| member | source | states |
|---|---|---|
| `SliceSegs.SliceSegs` | integration-web/src/main/webapp/WEB-INF/static/comp/fullcalendar/fullcalendar.js:3769-3804 | One new segment for each event shown in the column, none twice, cut to the column and flagged where the event's own start or end is kept, sorted by the comparator. |
| `SliceSegs.SlicedIsSorted` | integration-web/src/main/webapp/WEB-INF/static/comp/fullcalendar/fullcalendar.js:3803 | The pieces come in the comparator's order, and they are those of the shown events, each as often as it was cut. |
| `SliceSegs.SlicedInOrder` | integration-web/src/main/webapp/WEB-INF/static/comp/fullcalendar/fullcalendar.js:3769-3804 | Of any two pieces the first starts earlier, or at the same time and lasts longer, or both are the same and its title is not the later one. |
| `SliceSegs.CutShares` | integration-web/src/main/webapp/WEB-INF/static/comp/fullcalendar/fullcalendar.js:3780-3792 | A cut segment covers exactly the instants that the event and the column share, and isStart and isEnd are set exactly where the event's own start and end were kept. |
| `SliceSegs.PiecesShow` | integration-web/src/main/webapp/WEB-INF/static/comp/fullcalendar/fullcalendar.js:3776-3801 | Segments are cut from the shown events, and every shown event leaves one. |
| `SliceSegs.SlicedAreOrderedAndProper` | integration-web/src/main/webapp/WEB-INF/static/comp/fullcalendar/fullcalendar.js:3769-3804 | What is sliced is ordered by start, and what is sliced from proper events starts before it ends: exactly what the layout theorems ask for. |
| `SliceSegs.CompileColumn` | integration-web/src/main/webapp/WEB-INF/static/comp/fullcalendar/fullcalendar.js:3744-3763 | Slicing and placing one column: the pieces come back level by level, with the pressures and coordinates of the layout. |
| `StableSort.SortStable` | integration-web/src/main/webapp/WEB-INF/static/comp/fullcalendar/fullcalendar.js:3803 | The sort keeps the order of members that the comparator does not tell apart. |
| `SlotLayout.ComputeSlotSegCollisions` | integration-web/src/main/webapp/WEB-INF/static/comp/fullcalendar/fullcalendar.js:4498-4508 | Appends exactly the members that collide, in order. |
| `SlotLayout.BuildSlotSegLevels` | integration-web/src/main/webapp/WEB-INF/static/comp/fullcalendar/fullcalendar.js:4362-4381 | The loops build the first-fit levels. |
| `FirstFit.FittingLevel` | integration-web/src/main/webapp/WEB-INF/static/comp/fullcalendar/fullcalendar.js:4370-4375 | The first level without a collision: every earlier level collides. |
| `FirstFit.BuildIsPermutation` | integration-web/src/main/webapp/WEB-INF/static/comp/fullcalendar/fullcalendar.js:4362-4381 | The levels, flattened, are a permutation of the input, for any input and any collision test. |
| `FirstFit.BuildCollisionFree` | integration-web/src/main/webapp/WEB-INF/static/comp/fullcalendar/fullcalendar.js:4367-4378 | No level is empty and no two members of a level collide. |
| `FirstFit.BuildFirstFitted` | integration-web/src/main/webapp/WEB-INF/static/comp/fullcalendar/fullcalendar.js:4367-4378 | Every member was turned away from each level before its own by an earlier member that collides with it. |
| `FirstFit.BuildInOrder` | integration-web/src/main/webapp/WEB-INF/static/comp/fullcalendar/fullcalendar.js:4367-4378 | The members of a level keep the order of the input. |
| `SlotLevels.LevelsBoundConcurrency` | integration-web/src/main/webapp/WEB-INF/static/comp/fullcalendar/fullcalendar.js:4362-4381 | At every instant, at most as many segments are active as there are levels. |
| `SlotLevels.LevelsAreNeeded` | integration-web/src/main/webapp/WEB-INF/static/comp/fullcalendar/fullcalendar.js:4362-4381 | For segments ordered by start some instant has as many active segments as there are levels: first fit is optimal. |
| `SlotLayout.FlattenSlotSegLevels` | integration-web/src/main/webapp/WEB-INF/static/comp/fullcalendar/fullcalendar.js:4479-4493 | The nested loops concatenate the levels. |
| `SlotLayout.ComputeForwardSlotSegs` | integration-web/src/main/webapp/WEB-INF/static/comp/fullcalendar/fullcalendar.js:4386-4403 | Writes to every segment its colliding segments of later levels, and to no other field. |
| `SlotLevels.GraphForward` | integration-web/src/main/webapp/WEB-INF/static/comp/fullcalendar/fullcalendar.js:4391-4402 | A segment is forward of another if and only if they collide and it lies in a later level. |
| `SlotLevels.CollidingLevels` | integration-web/src/main/webapp/WEB-INF/static/comp/fullcalendar/fullcalendar.js:4362-4403 | Two colliding segments lie in different levels, so one of them is forward of the other. |
| `SlotLayout.ComputeSlotSegPressures` | integration-web/src/main/webapp/WEB-INF/static/comp/fullcalendar/fullcalendar.js:4408-4431 | The memoised recursion terminates because levels increase; it writes the pressure of the segment and of everything ahead of it, and keeps what was computed before. |
| `SlotGraph.PressureBoundsPaths` | integration-web/src/main/webapp/WEB-INF/static/comp/fullcalendar/fullcalendar.js:4408-4431 | No forward path from a segment has more steps than its pressure. |
| `SlotGraph.LongestPath` | integration-web/src/main/webapp/WEB-INF/static/comp/fullcalendar/fullcalendar.js:4408-4431 | Some forward path has exactly as many steps: the pressure is the longest path. |
| `SlotGraph.PressureBelowLevels` | integration-web/src/main/webapp/WEB-INF/static/comp/fullcalendar/fullcalendar.js:4408-4431 | Level plus pressure stays below the number of levels. |
| `SlotLayout.SortForwardSegs` | integration-web/src/main/webapp/WEB-INF/static/comp/fullcalendar/fullcalendar.js:4456 | The sort in place leaves the forward segments in comparator order, keyed by what is known of them at that moment, and changes no coordinate. |
| `SlotCoords.SortForwardFirst` | integration-web/src/main/webapp/WEB-INF/static/comp/fullcalendar/fullcalendar.js:4518-4525 | The first after the sort is one that no other precedes. |
| `SlotSeries.FirstIsPreferred` | integration-web/src/main/webapp/WEB-INF/static/comp/fullcalendar/fullcalendar.js:4518-4525 | The forward segment relied on has a higher pressure than any other, or the same and begins closer to the initial edge as far as is known, or then starts earlier, or lasts longer, or its title is not the later one. |
| `SlotLayout.ComputeSlotSegCoords` | integration-web/src/main/webapp/WEB-INF/static/comp/fullcalendar/fullcalendar.js:4442-4475 | The memoised recursion over the segments' fields is the recursion over a memo table: same order, same results, nothing overwritten. |
| `SlotSeries.BackDivides` | integration-web/src/main/webapp/WEB-INF/static/comp/fullcalendar/fullcalendar.js:4464-4473 | A segment's width, times the number of segments of its series up to it, is the width from where the series starts to where the segment ends. |
| `SlotSeries.PlaceShares` | integration-web/src/main/webapp/WEB-INF/static/comp/fullcalendar/fullcalendar.js:4442-4475 | On any graph: the n segments that a visit places as one series get the n equal shares of the width between the series' start and the edge it runs into, in order and without a gap. |
| `SlotSeries.EverySegmentInSeries` | integration-web/src/main/webapp/WEB-INF/static/comp/fullcalendar/fullcalendar.js:4442-4475 | For every admissible input each segment is in the finished layout as a member of such a series, which starts at 0 or where another segment ends, and whose members get equal shares. |
| `SlotSeries.TailSharesTheRest` | integration-web/src/main/webapp/WEB-INF/static/comp/fullcalendar/fullcalendar.js:4464-4473 | n mutually colliding segments that hang behind a segment ending at c get [c + i (1 - c) / n, c + (i + 1) (1 - c) / n]. |
| `SlotTheorems.LayoutTotal` | integration-web/src/main/webapp/WEB-INF/static/comp/fullcalendar/fullcalendar.js:4347-4353 | Although only the first level is visited directly, every segment gets both coordinates. |
| `SlotTheorems.LayoutSound` | integration-web/src/main/webapp/WEB-INF/static/comp/fullcalendar/fullcalendar.js:4442-4475 | In the finished table every coordinate pair is inside the unit interval and ends at the edge or at a strongest forward segment. |
| `SlotLayout.PlaceSlotSegs` | integration-web/src/main/webapp/WEB-INF/static/comp/fullcalendar/fullcalendar.js:4338-4357 | Returns the flattened levels, and leaves on each segment the longest-path pressure and the coordinates of the layout. |
| `SlotGuarantees.CoordinatesSound` | integration-web/src/main/webapp/WEB-INF/static/comp/fullcalendar/fullcalendar.js:4442-4475 | For every admissible input: coordinates lie in [0, 1]; forwardCoord is 1, or the backwardCoord of a forward segment of highest pressure. |
| `SlotGuarantees.ApartUpToTwoLevels` | integration-web/src/main/webapp/WEB-INF/static/comp/fullcalendar/fullcalendar.js:4338-4475 | With at most two levels, colliding segments never overlap horizontally, for any number of segments. |
| `SlotGuarantees.ApartUpToTwoConcurrent` | integration-web/src/main/webapp/WEB-INF/static/comp/fullcalendar/fullcalendar.js:4338-4475 | The same from what a caller can see: at most two segments are active at any instant. |
| `SlotGuarantees.CliqueSharesEqually` | integration-web/src/main/webapp/WEB-INF/static/comp/fullcalendar/fullcalendar.js:4464-4473 | n mutually colliding segments get exactly [i/n, (i+1)/n]. |
| `SlotGroups.BuildRestricts` | integration-web/src/main/webapp/WEB-INF/static/comp/fullcalendar/fullcalendar.js:4362-4381 | First fit gives the members of a group that nothing outside it collides with the levels they would have alone, for any collision test. |
| `SlotGroups.GroupsAreIndependent` | integration-web/src/main/webapp/WEB-INF/static/comp/fullcalendar/fullcalendar.js:4338-4475 | Such a group is laid out as if it were alone in the column: same pressures, same coordinates. |
| `SlotGroups.GroupApartUpToTwoLevels` | integration-web/src/main/webapp/WEB-INF/static/comp/fullcalendar/fullcalendar.js:4338-4475 | Colliding segments of a group of at most two levels never overlap, whatever else the column holds. |
| `SlotGroups.GroupSharesEqually` | integration-web/src/main/webapp/WEB-INF/static/comp/fullcalendar/fullcalendar.js:4464-4473 | The n members of a group that all collide get [i/n, (i+1)/n], whatever else the column holds. |
| `SlotExact.CliquePressure` | integration-web/src/main/webapp/WEB-INF/static/comp/fullcalendar/fullcalendar.js:4408-4431 | In such a clique the pressures count down from n - 1. |
| `SlotOverlap.ThreeLevelsOverlap` | integration-web/src/main/webapp/WEB-INF/static/comp/fullcalendar/fullcalendar.js:4518-4525 | A six-segment input with three levels on which two colliding segments get [1/3, 1] and [0, 1/2]. |
| `SlotOverlap.OverlappingDay` | integration-web/src/main/webapp/WEB-INF/static/comp/fullcalendar/fullcalendar.js:3744-3763 | Six events of one day from which slicing and placing make that input, and leave those coordinates on the segments. |
| `SlotOverlap.OverlapFreeIffTwoLevels` | integration-web/src/main/webapp/WEB-INF/static/comp/fullcalendar/fullcalendar.js:4338-4475 | Freedom from overlap is guaranteed for all inputs with up to `limit` levels if and only if `limit` is at most two. |
| `DayCells.InitWeek` | integration-web/src/main/webapp/WEB-INF/static/comp/fullcalendar/fullcalendar.js:4859-4881 | Builds both tables for any set of hidden days and throws exactly when all seven are hidden. |
| `DayCells.DayCellDay` | integration-web/src/main/webapp/WEB-INF/static/comp/fullcalendar/fullcalendar.js:4949-4993 | From a day to its cell and back is the first visible day from there on, over all weeks. |
| `RangeSegments.CellOffsetsCountVisibleDays` | integration-web/src/main/webapp/WEB-INF/static/comp/fullcalendar/fullcalendar.js:4985-4993 | Differences of cell offsets count the visible days between, for all integers; offset 0 is cell 0. |
| `RangeSegments.CellOffsetRoundTrip` | integration-web/src/main/webapp/WEB-INF/static/comp/fullcalendar/fullcalendar.js:4949-4957 | The day of any cell offset, also a negative one, is visible and leads back to the offset. |
| `RangeSegments.DayOffsetRoundTrip` | integration-web/src/main/webapp/WEB-INF/static/comp/fullcalendar/fullcalendar.js:4949-4993 | From a day offset to its cell offset and back is the first visible day at or after it. |
| `RangeSegments.OffsetToCellAndBack` | integration-web/src/main/webapp/WEB-INF/static/comp/fullcalendar/fullcalendar.js:4996-5009 | Cell offsets become cells inside the columns and come back, left to right and right to left. |
| `RangeSegments.CellToOffsetAndBack` | integration-web/src/main/webapp/WEB-INF/static/comp/fullcalendar/fullcalendar.js:4932-4946 | Cells become offsets and come back. |
| `RangeSegments.CellToDateAndBack` | integration-web/src/main/webapp/WEB-INF/static/comp/fullcalendar/fullcalendar.js:4921-4926 | Every cell's date is visible and leads back to the cell. |
| `RangeSegments.DateToCellAndBack` | integration-web/src/main/webapp/WEB-INF/static/comp/fullcalendar/fullcalendar.js:4972-4977 | The date of a date's cell is the first visible date at or after it. |
| `RangeSegments.RangeToSegments` | integration-web/src/main/webapp/WEB-INF/static/comp/fullcalendar/fullcalendar.js:5021-5074 | The loop computes the row-by-row segments of the specification. |
| `RangeSegments.CoveredIffInRange` | integration-web/src/main/webapp/WEB-INF/static/comp/fullcalendar/fullcalendar.js:5021-5074 | A grid cell is covered if and only if its date lies in [startDate, endDate), with any hidden days, in both directions of writing. |
| `RangeSegments.OneSegmentPerRow` | integration-web/src/main/webapp/WEB-INF/static/comp/fullcalendar/fullcalendar.js:5036-5071 | Rows strictly ascend, so there is at most one segment a row. |
| `RangeSegments.SortColsIff` | integration-web/src/main/webapp/WEB-INF/static/comp/fullcalendar/fullcalendar.js:5054 | The two columns change places if and only if the second, written in decimal, begins the first or has the smaller digit at the first difference. |
| `RangeSegments.StartFlag` | integration-web/src/main/webapp/WEB-INF/static/comp/fullcalendar/fullcalendar.js:5060 | isStart marks only the row of the start date, and is set at all if and only if that date is visible, the range is not empty and the row is in the grid. |
| `RangeSegments.EndFlag` | integration-web/src/main/webapp/WEB-INF/static/comp/fullcalendar/fullcalendar.js:5061 | The same for isEnd and the last date. |
| `RangeSegments.ColsOrderedIffNarrow` | integration-web/src/main/webapp/WEB-INF/static/comp/fullcalendar/fullcalendar.js:5054 | leftCol <= rightCol for every range if and only if the grid has at most ten columns: the sort compares column numbers as text. |
| `RangeSegments.WideColsDisordered` | integration-web/src/main/webapp/WEB-INF/static/comp/fullcalendar/fullcalendar.js:5054 | In every wider grid a range whose segment has leftCol > rightCol. |
| `RangeSegments.ShippedColsOrdered` | integration-web/src/main/webapp/WEB-INF/static/comp/fullcalendar/fullcalendar.js:1987-2002 | In every grid with as many columns as the week has visible days, or with one, which are all that the views ask for, the columns of every segment are in order. |
| `DayStacking.IsDaySegmentCollision` | integration-web/src/main/webapp/WEB-INF/static/comp/fullcalendar/fullcalendar.js:5798-5809 | True if and only if some member of the subrow shares a column. |
| `DayStacking.BuildSegmentSubrows` | integration-web/src/main/webapp/WEB-INF/static/comp/fullcalendar/fullcalendar.js:5562-5589 | Sorting and first fit, as loops. |
| `DayStacking.SortSegmentRow` | integration-web/src/main/webapp/WEB-INF/static/comp/fullcalendar/fullcalendar.js:5545-5557 | The subrows, concatenated. |
| `DayStacking.BuildSegmentRows` | integration-web/src/main/webapp/WEB-INF/static/comp/fullcalendar/fullcalendar.js:5510-5541 | Every row of the grid is there, with the sorted rendered segments of that row. |
| `DayStacking.RowKeepsSegments` | integration-web/src/main/webapp/WEB-INF/static/comp/fullcalendar/fullcalendar.js:5510-5541 | A row holds each rendered segment of the row as often as the input does, and nothing else. |
| `DayStacking.SubrowsCollisionFree` | integration-web/src/main/webapp/WEB-INF/static/comp/fullcalendar/fullcalendar.js:5562-5589 | No two segments of a subrow share a column. |
| `DayStacking.SubrowsTurnAway` | integration-web/src/main/webapp/WEB-INF/static/comp/fullcalendar/fullcalendar.js:5562-5589 | Each segment of a later subrow was turned away from every subrow before it by a segment sharing a column that is wider, or on equal width all-day where it is not, or starts earlier, or has not the later title. |
| `DayStacking.SubrowsInOrder` | integration-web/src/main/webapp/WEB-INF/static/comp/fullcalendar/fullcalendar.js:5823-5828 | The members of a subrow come in that order too. |
| `DayStacking.WidestAtTop` | integration-web/src/main/webapp/WEB-INF/static/comp/fullcalendar/fullcalendar.js:5562-5589 | A segment wider than every other of its row has top 0. |
| `DayStacking.StackRow` | integration-web/src/main/webapp/WEB-INF/static/comp/fullcalendar/fullcalendar.js:5474-5501 | The loop over column heights writes exactly the tops of the specification. |
| `DayStacking.CalculateVerticals` | integration-web/src/main/webapp/WEB-INF/static/comp/fullcalendar/fullcalendar.js:5465-5505 | After the method every row has its tops and its content height. |
| `DayStacking.EveryTopRests` | integration-web/src/main/webapp/WEB-INF/static/comp/fullcalendar/fullcalendar.js:5482-5498 | Each top is 0 or the bottom of an earlier segment that shares a column, and clears all of those. |
| `DayStacking.NoVerticalOverlap` | integration-web/src/main/webapp/WEB-INF/static/comp/fullcalendar/fullcalendar.js:5482-5498 | Two segments of a row that share a column never overlap vertically. |
| `DayStacking.RowHeight` | integration-web/src/main/webapp/WEB-INF/static/comp/fullcalendar/fullcalendar.js:5500-5501 | The content height is the greatest bottom of the row, attained unless it is 0. |
| `EventFetch.EventManager.constructor` | integration-web/src/main/webapp/WEB-INF/static/comp/fullcalendar/fullcalendar.js:919-930 | A new manager has the sticky source and, behind it, the sources given, in order; it holds no range and no event. |
| `EventFetch.EventManager.FetchEvents` | integration-web/src/main/webapp/WEB-INF/static/comp/fullcalendar/fullcalendar.js:943-953 | Starts a new generation and asks each source; sources that answer at once are counted and cached in the same call. |
| `EventFetch.EventManager.FetchEventSource` | integration-web/src/main/webapp/WEB-INF/static/comp/fullcalendar/fullcalendar.js:956-982 | Makes the request of the current generation for the source. |
| `EventFetch.EventManager.Callback` | integration-web/src/main/webapp/WEB-INF/static/comp/fullcalendar/fullcalendar.js:957-981 | An answer of the current generation goes through the hooks, is cached, counted and perhaps reported; any other changes nothing. |
| `EventFetch.Contribute` | integration-web/src/main/webapp/WEB-INF/static/comp/fullcalendar/fullcalendar.js:961-973 | The hook of the calendar, then that of the source, then each event made is marked with its source and normalized. |
| `EventFetch.ContributionConcat` | integration-web/src/main/webapp/WEB-INF/static/comp/fullcalendar/fullcalendar.js:961-973 | Two lists of events contribute what each contributes, one behind the other. |
| `EventFetch.ContributionOfOne` | integration-web/src/main/webapp/WEB-INF/static/comp/fullcalendar/fullcalendar.js:961-973 | What one event contributes: each event the calendar's hook makes of it, in order, goes through the source's hook, and each that comes out is cached with its id, start and allDay, the source, and its end if and only if that lies after its start. |
| `EventFetch.KeptEvent` | integration-web/src/main/webapp/WEB-INF/static/comp/fullcalendar/fullcalendar.js:1246-1251 | An event both hooks keep is cached as it is, marked with the source, and without its end exactly when that is not after its start. |
| `EventFetch.EventManager.AddEventSource` | integration-web/src/main/webapp/WEB-INF/static/comp/fullcalendar/fullcalendar.js:1079-1085 | Adds the source and asks it within the current generation. |
| `EventFetch.EventManager.RemoveEventSource` | integration-web/src/main/webapp/WEB-INF/static/comp/fullcalendar/fullcalendar.js:1103-1112 | Removes the source and its cached events, and reports. |
| `EventFetch.EventManager.Needed` | integration-web/src/main/webapp/WEB-INF/static/comp/fullcalendar/fullcalendar.js:938-940 | A fetch is needed if and only if the range held does not contain the one asked for. |
| `EventFetch.NeededIff` | integration-web/src/main/webapp/WEB-INF/static/comp/fullcalendar/fullcalendar.js:938-940 | That is the case exactly when some instant asked for lies outside the range held, or none is held. |
| `EventRuns.StepIsManager` | integration-web/src/main/webapp/WEB-INF/static/comp/fullcalendar/fullcalendar.js:943-982 | In every run of calls and answers the manager takes its own steps. |
| `EventRuns.RunKeepsInvariant` | integration-web/src/main/webapp/WEB-INF/static/comp/fullcalendar/fullcalendar.js:943-1112 | The counter, request and cache invariants hold after every run, under any order of fetches, answers, additions and removals. |
| `EventRuns.PendingCountsOpenRequests` | integration-web/src/main/webapp/WEB-INF/static/comp/fullcalendar/fullcalendar.js:949-976 | In every reachable state pendingSourceCnt is the number of unanswered requests of the current generation. |
| `EventRuns.CompleteAtZero` | integration-web/src/main/webapp/WEB-INF/static/comp/fullcalendar/fullcalendar.js:957-979 | In every run with a fetch, when the counter is 0: each source has contributed exactly once to the cache, each source removed while it was asked once more, and nothing else is in it. |
| `EventRuns.OrphansWereAsked` | integration-web/src/main/webapp/WEB-INF/static/comp/fullcalendar/fullcalendar.js:1103-1112 | Only removing a source that the current generation is still asking leaves such a late contribution, and it always does. |
| `EventRuns.StickyStays` | integration-web/src/main/webapp/WEB-INF/static/comp/fullcalendar/fullcalendar.js:919-920 | The sticky source is in the list until it is removed itself, so the list is never empty before. |
| `EventRuns.RenderedAtZero` | integration-web/src/main/webapp/WEB-INF/static/comp/fullcalendar/fullcalendar.js:976-979 | Then the array last reported, which the calendar draws, is the cache, as long as there is a source, whatever was removed. |
| `EventRuns.AnswerReports` | integration-web/src/main/webapp/WEB-INF/static/comp/fullcalendar/fullcalendar.js:957-981 | An answer is reported exactly when it is the last its generation waits for; an answer of an older generation changes nothing; none is newer. |
| `EventRuns.RemovedStaysAwayIff` | integration-web/src/main/webapp/WEB-INF/static/comp/fullcalendar/fullcalendar.js:1103-1112 | In every reachable state: a removed source has no event in the cache, under whatever follows but adding it again, if and only if no request of the current generation to it is unanswered when it is removed, or the hooks let nothing of it through. |
| `EventRuns.RemovedSourceComesBack` | integration-web/src/main/webapp/WEB-INF/static/comp/fullcalendar/fullcalendar.js:1103-1112 | The shortest run of the failing kind: one source beside the sticky one, removed while it is asked, is cached and reported after all. |
| `LazyFetch.ExactAndFullAnswersAreFaithful` | integration-web/src/main/webapp/WEB-INF/static/comp/fullcalendar/fullcalendar.js:961-974 | For every visibility test: a source that answers with the events meeting the range, by a test that covers it, and one that always answers with all its events, both show the right events in every part of the range, through any hooks. |
| `LazyFetch.ShownIs` | integration-web/src/main/webapp/WEB-INF/static/comp/fullcalendar/fullcalendar.js:511-525 | Each event is shown as often as it occurs, if the view shows it. |
| `LazyFetch.CacheShowsSources` | integration-web/src/main/webapp/WEB-INF/static/comp/fullcalendar/fullcalendar.js:511-525 | After any history whose answers are in, the cache shows a view that needs no fetch exactly what the sources hold, and besides what the sources removed while asked hold. |
| `LazyFetch.RenderedShowsSources` | integration-web/src/main/webapp/WEB-INF/static/comp/fullcalendar/fullcalendar.js:511-525 | So does what the calendar draws, the last report, as long as there is a source. |
| `LazyFetch.NoSourcesNoReport` | integration-web/src/main/webapp/WEB-INF/static/comp/fullcalendar/fullcalendar.js:943-953 | Without sources a fetch and its answers report nothing, so the calendar goes on drawing what it drew. |
| `LazyFetch.LazyAgreesWithEager` | integration-web/src/main/webapp/WEB-INF/static/comp/fullcalendar/fullcalendar.js:511-525 | After any history whose answers are in, skipping the fetch draws the same events as making it and waiting for its answers if and only if the sources removed while asked hold nothing in the view, or no source is left; otherwise it draws exactly their events too many. |
| `ViewVisibility.DayWiseCoversItself` | integration-web/src/main/webapp/WEB-INF/static/comp/fullcalendar/fullcalendar.js:511-525 | A view that shows an event by the days it touches may itself be the test by which a source selects. |
| `ViewVisibility.ExclEndDayIs` | integration-web/src/main/webapp/WEB-INF/static/comp/fullcalendar/fullcalendar.js:1686-1699 | The day excluded is the first midnight not before a timed end, and the first after an all-day end or after the start of an event without an end. |
| `ViewVisibility.OverlapServesDayViews` | integration-web/src/main/webapp/WEB-INF/static/comp/fullcalendar/fullcalendar.js:1686-1699 | Selecting by overlap up to the day exclEndDay excludes serves the all-day and month views. |
| `ViewVisibility.OverlapServesSlots` | integration-web/src/main/webapp/WEB-INF/static/comp/fullcalendar/fullcalendar.js:3807-3813 | Selecting by overlap up to slotEventEnd serves the agenda, for any hidden days and any hours shown. |
| `ViewSegments.TouchedIffCovered` | integration-web/src/main/webapp/WEB-INF/static/comp/fullcalendar/fullcalendar.js:5262-5270 | An event touches the day of a cell if and only if one of its segments covers the cell: the visibility test of the day views is what rangeToSegments renders. |
| `ViewSegments.TouchedIffSliced` | integration-web/src/main/webapp/WEB-INF/static/comp/fullcalendar/fullcalendar.js:3744-3763 | A timed event touches the column of a day that is shown if and only if slicing leaves a piece of it: the agenda's test is what sliceSegs renders. |
| `IsoWeek.ReturnsIsoWeek` | integration-web/src/main/webapp/WEB-INF/static/comp/fullcalendar/fullcalendar.js:1663-1674 | For every instant the result is the ISO 8601 week (section 4.1.4 of ISO 8601:2004) counted from the Monday of the week with 4 January, between 1 and 53. |
| `IsoWeek.IsoWeekIsUnique` | integration-web/src/main/webapp/WEB-INF/static/comp/fullcalendar/fullcalendar.js:1663-1674 | No day has two ISO weeks, so the result is the only right one. |
| `IsoWeek.SameAllWeek` | integration-web/src/main/webapp/WEB-INF/static/comp/fullcalendar/fullcalendar.js:1667-1668 | All seven days from Monday to Sunday, at any time of day, have one number. |
| `IsoWeek.WeekOneHasFourthOfJanuary` | integration-web/src/main/webapp/WEB-INF/static/comp/fullcalendar/fullcalendar.js:1671-1673 | The result is 1 if and only if the week contains a 4 January. |
| `IsoWeek.NextWeek` | integration-web/src/main/webapp/WEB-INF/static/comp/fullcalendar/fullcalendar.js:1663-1674 | From one week to the next the number grows by one, or returns to 1 after at least 52. |
| `IsoDates.CivilRoundTrip` | integration-web/src/main/webapp/WEB-INF/static/comp/fullcalendar/fullcalendar.js:1617-1640 | The fields that are printed determine the local time. |
| `IsoInstants.NextDay` | integration-web/src/main/webapp/WEB-INF/static/comp/fullcalendar/fullcalendar.js:1617-1640 | One day later the fields show the next date of the Gregorian calendar, at the same time of day, for every instant. |
| `IsoInstants.EpochDay` | integration-web/src/main/webapp/WEB-INF/static/comp/fullcalendar/fullcalendar.js:1617-1640 | The day that is 719162 days after 1 January of year 1 is Thursday, 1 January 1970. |
| `IsoDates.MatchPrinted` | integration-web/src/main/webapp/WEB-INF/static/comp/fullcalendar/fullcalendar.js:1452-1458 | On a date printed with a year of four digits the pattern finds every field again. |
| `IsoDateGrammar.SpelledIsMatched` | integration-web/src/main/webapp/WEB-INF/static/comp/fullcalendar/fullcalendar.js:1455 | Every way of writing a year, a month, a date or a date with a time is matched, with exactly the fields it says: T or a space, optional seconds and fraction, and no zone, Z, or a sign with hours and optional minutes, with or without a colon. |
| `IsoDateGrammar.MatchIff` | integration-web/src/main/webapp/WEB-INF/static/comp/fullcalendar/fullcalendar.js:1455 | The pattern matches a string, with given fields, if and only if the string is one of those ways of writing them. |
| `IsoInstants.ResolvedShows` | integration-web/src/main/webapp/WEB-INF/static/comp/fullcalendar/fullcalendar.js:1459-1502 | For fields of an existing date and time the instant shows exactly these fields, with the first three digits of the fraction as milliseconds: in local time when no zone is written or it is ignored, years below 100 then being of the twentieth century, and otherwise in the written zone. |
| `IsoInstants.OffsetTakenOff` | integration-web/src/main/webapp/WEB-INF/static/comp/fullcalendar/fullcalendar.js:1496-1500 | A date with an offset is the same date with Z, less the hours and minutes for a plus and more for a minus; with the zone ignored it is the date without one. |
| `IsoInstants.FixTimeStays` | integration-web/src/main/webapp/WEB-INF/static/comp/fullcalendar/fullcalendar.js:1364-1370 | A time past the end of the day falls back by whole hours to the last hour of the day. |
| `IsoInstants.PrintIsSpelled` | integration-web/src/main/webapp/WEB-INF/static/comp/fullcalendar/fullcalendar.js:1639 | Format `u` prints one of the written forms, the local date and time with seconds and a Z, for every year of four digits. |
| `IsoDates.PrintParse` | integration-web/src/main/webapp/WEB-INF/static/comp/fullcalendar/fullcalendar.js:1452-1503 | Parsing what format `u` printed gives the instant back to the second if and only if the year has four digits and, when the zone is honoured, local time is UTC. |
| `EventRevert.CalendarEvent.Normalize` | integration-web/src/main/webapp/WEB-INF/static/comp/fullcalendar/fullcalendar.js:1246-1251 | An end that is not after the start becomes null. |
| `EventRevert.MoveEvents` | integration-web/src/main/webapp/WEB-INF/static/comp/fullcalendar/fullcalendar.js:4785-4798 | Every event of the group is shifted and normalized once; allDay changes only when it is given. |
| `EventRevert.ElongateEvents` | integration-web/src/main/webapp/WEB-INF/static/comp/fullcalendar/fullcalendar.js:4801-4808 | Every event's effective end is shifted and normalized once. |
| `EventRevert.DropMoves` | integration-web/src/main/webapp/WEB-INF/static/comp/fullcalendar/fullcalendar.js:4785-4798 | Away from the epoch a drop moves start and end by days of 24 hours and minutes of 60000 milliseconds, so the duration stays. |
| `EventRevert.ResizeMovesEnd` | integration-web/src/main/webapp/WEB-INF/static/comp/fullcalendar/fullcalendar.js:4801-4808 | A resize moves the end the event is shown with: its own, the start of an all-day event, or the default minutes after the start of a timed one; an end that is not after the start is dropped. |
| `EventRevert.DropAndRevert` | integration-web/src/main/webapp/WEB-INF/static/comp/fullcalendar/fullcalendar.js:4736-4756 | After a drop and its revert each event has its original start and end if and only if shifting there and back works for both, and its original allDay if and only if the dragged event had the same. |
| `EventRevert.MoveBack` | integration-web/src/main/webapp/WEB-INF/static/comp/fullcalendar/fullcalendar.js:4749-4750 | An event that is nowhere at the epoch always comes back unchanged. |
| `EventRevert.DropOntoEpochStays` | integration-web/src/main/webapp/WEB-INF/static/comp/fullcalendar/fullcalendar.js:1348-1362 | An event dropped onto the epoch stays there: addDays takes instant 0 for a missing date. |
| `EventRevert.ResizeAndRevert` | integration-web/src/main/webapp/WEB-INF/static/comp/fullcalendar/fullcalendar.js:4759-4777 | After a resize and its revert each event has its start and allDay, and it has its original effective end if and only if the shift there and back works where the resized end was kept, and leads from the default end to the original one where it was dropped. |
| `EventRevert.EndReturnsAwayFromEpoch` | integration-web/src/main/webapp/WEB-INF/static/comp/fullcalendar/fullcalendar.js:4767-4771 | Away from the epoch that means: the resized end was after the start, or equal to the end the event has without one. |
| `EventRevert.ResizeOntoEpochStays` | integration-web/src/main/webapp/WEB-INF/static/comp/fullcalendar/fullcalendar.js:1348-1362 | A resize that moves an end onto the epoch is not undone. |
| `EventRevert.ShortenedPastStart` | integration-web/src/main/webapp/WEB-INF/static/comp/fullcalendar/fullcalendar.js:4769-4770 | A two-hour event shortened by three hours comes back five hours long. |
| `Md5Long.OpLow` | integration-common/src/main/java/org/platform/utils/encrypt/MD5.java:96-122 | The low half of the 64-bit sums and sign-extended rotations is the 32-bit operation of section 3.4 of RFC 1321, whatever the high halves hold. |
| `Md5Rfc.RotateMovesBits` | integration-common/src/main/java/org/platform/utils/encrypt/MD5.java:96-122 | The rotation takes bit i to bit i + s modulo 32, for every word and every distance from 1 to 31. |
| `Md5Transform.FF` | integration-common/src/main/java/org/platform/utils/encrypt/MD5.java:96-101 | One assignment of round 1 is the operation with that index in the RFC, on the low words. |
| `Md5Transform.GG` | integration-common/src/main/java/org/platform/utils/encrypt/MD5.java:103-108 | The same for round 2. |
| `Md5Transform.HH` | integration-common/src/main/java/org/platform/utils/encrypt/MD5.java:110-115 | The same for round 3. |
| `Md5Transform.II` | integration-common/src/main/java/org/platform/utils/encrypt/MD5.java:117-122 | The same for round 4. |
| `Md5Transform.Rounds` | integration-common/src/main/java/org/platform/utils/encrypt/MD5.java:192-262 | The 64 assignments, from any four longs, leave the low words the RFC's 64 operations leave. |
| `Md5Digest.MD5.constructor` | integration-common/src/main/java/org/platform/utils/encrypt/MD5.java:59-75 | A new object holds the initial registers of section 3.3 of RFC 1321, zero counts and no live bytes. |
| `Md5Digest.MD5.Md5Transform` | integration-common/src/main/java/org/platform/utils/encrypt/MD5.java:186-269 | The low words of the state after the method are the RFC's transformation of the block. |
| `Md5Digest.Encode` | integration-common/src/main/java/org/platform/utils/encrypt/MD5.java:271-280 | Writes the low word of each long, low-order byte first. |
| `Md5Digest.Decode` | integration-common/src/main/java/org/platform/utils/encrypt/MD5.java:282-294 | Reads each long as an unsigned 32-bit word, low-order byte first. |
| `BlockHash.BytesRoundTrip` | integration-common/src/main/java/org/platform/utils/encrypt/MD5.java:271-290 | Decoding what was encoded gives every low word back. |
| `BlockHash.WordRoundTrip` | integration-common/src/main/java/org/platform/utils/encrypt/MD5.java:271-290 | Encoding what was decoded gives every four bytes back. |
| `BlockHash.BytesHoldBits` | integration-common/src/main/java/org/platform/utils/encrypt/MD5.java:271-280 | Bit j of byte k is bit 8 k + j of the word. |
| `BlockHash.LengthsOf` | integration-common/src/main/java/org/platform/utils/encrypt/MD5.java:162-163 | The count is saved with the low-order byte first: three lengths, one of them beyond 2^64 bits. |
| `Md5Digest.Md5Memcpy` | integration-common/src/main/java/org/platform/utils/encrypt/MD5.java:178-184 | Copies the slice and leaves the rest. |
| `Md5Digest.MD5.Md5Update` | integration-common/src/main/java/org/platform/utils/encrypt/MD5.java:124-155 | For every length and every array: state, counts and the live part of the buffer become those of the specification, except when the length is beyond the array or the loop test wraps around; then, and only then, a copy runs past the array, with the counts advanced and all whole blocks of the array transformed. |
| `Md5Digest.MD5.Md5Final` | integration-common/src/main/java/org/platform/utils/encrypt/MD5.java:157-175 | The digest depends only on state, counts and live bytes, not on stale bytes of the buffer. |
| `Md5Digest.MD5.GetMD5ofStr` | integration-common/src/main/java/org/platform/utils/encrypt/MD5.java:48-57 | For every array of bytes the string is the hexadecimal MD5 digest of RFC 1321, whatever the object computed before. |
| `Md5Vectors.EmptyDigest` | integration-common/src/main/java/org/platform/utils/encrypt/MD5.java:48-57 | The digest of the empty message is D41D8CD98F00B204E9800998ECF8427E, as appendix A.5 of RFC 1321 has it. |
| `Md5Digest.MD5.GetMD5ofString` | integration-common/src/main/java/org/platform/utils/encrypt/MD5.java:38-47 | The overload on strings hashes as many bytes of the encoded string as the string has characters: the whole encoding if and only if the lengths agree, its beginning when it is longer, and an exception that leaves the last digest when it is shorter. |
| `Md5Stream.AbsorbAppend` | integration-common/src/main/java/org/platform/utils/encrypt/MD5.java:137-153 | Feeding two pieces leaves the words and live bytes that feeding their concatenation leaves. |
| `Md5Stream.ChunksAreOneStream` | integration-common/src/main/java/org/platform/utils/encrypt/MD5.java:124-155 | So does any number of chunks, of any sizes. |
| `Md5Stream.ChunksAreOneCall` | integration-common/src/main/java/org/platform/utils/encrypt/MD5.java:124-155 | Below 2^28 bytes the chunks also leave the counts of one call. |
| `Md5Stream.FinalFrames` | integration-common/src/main/java/org/platform/utils/encrypt/MD5.java:157-175 | md5Final transforms exactly the message, 0x80, zeros to 56 modulo 64, and the saved count (sections 3.1 and 3.2 of RFC 1321). |
| `Md5Stream.OneCallDigest` | integration-common/src/main/java/org/platform/utils/encrypt/MD5.java:48-57 | One call of md5Update and md5Final hash the padded message of the RFC, for every length below 2^31. |
| `Md5Stream.SmallChunksCount` | integration-common/src/main/java/org/platform/utils/encrypt/MD5.java:129-132 | Over chunks below 2^28 bytes the low count is the exact bit length and the high one stays 0. |
| `Md5Stream.ChunkedDigest` | integration-common/src/main/java/org/platform/utils/encrypt/MD5.java:129-132 | Over such chunks what is hashed is the RFC's padded message if and only if the bit length is below 2^32: the carry into the high word is never made. |
| `Base32.Encode` | integration-common/src/main/java/org/platform/utils/encrypt/Base32.java:46-116 | Digits of five bits each, zero-extended, and the padding the code adds; NegativeArraySize when the capacity wraps around, OutOfMemory when the text is longer than any string. |
| `Base32.WithinIsDigit` | integration-common/src/main/java/org/platform/utils/encrypt/Base32.java:87-91 | The digit inside one byte is five consecutive bits of the message. |
| `Base32.AcrossIsDigit` | integration-common/src/main/java/org/platform/utils/encrypt/Base32.java:76-86 | The digit across two bytes is too. |
| `Base32.Decode` | integration-common/src/main/java/org/platform/utils/encrypt/Base32.java:118-153 | For every string: the digits of the known characters, packed into 5/8 of the string's length; an index error exactly when that is 0 and some character is known. |
| `Base32Laws.CharOf` | integration-common/src/main/java/org/platform/utils/encrypt/Base32.java:31-32 | Digits 0 to 25 are written A to Z and 26 to 31 are written 2 to 7. |
| `Base32Laws.KnownIff` | integration-common/src/main/java/org/platform/utils/encrypt/Base32.java:33-44 | Exactly the letters of both cases and the digits 2 to 7 are read, with those values; every other character is skipped. |
| `Base32Laws.CaseIgnored` | integration-common/src/main/java/org/platform/utils/encrypt/Base32.java:118-153 | Strings that differ only in the case of letters decode alike. |
| `Base32Laws.PaddedIff` | integration-common/src/main/java/org/platform/utils/encrypt/Base32.java:96-113 | One to four bytes are padded to eight characters; what is written is a multiple of eight, as RFC 3548 asks, if and only if there are at most four bytes or a multiple of five. |
| `Base32Laws.CapacityNegative` | integration-common/src/main/java/org/platform/utils/encrypt/Base32.java:50-70 | The encoder throws NegativeArraySize for exactly every other run of 2^28 lengths. |
| `Base32Laws.SizeNegative` | integration-common/src/main/java/org/platform/utils/encrypt/Base32.java:120 | The decoder throws it exactly when five times the length, modulo 2^32, lies between 2^31 and 2^32 - 8. |
| `Base32Laws.Examples` | integration-common/src/main/java/org/platform/utils/encrypt/Base32.java:46-116 | `f` and `fooba` are encoded as in section 10 of RFC 4648. |
| `Base32.HoldsOr` | integration-common/src/main/java/org/platform/utils/encrypt/Base32.java:135-150 | ORing a digit in adds exactly its five bits behind those written before. |
| `Base32RoundTrip.DigitsSpellBits` | integration-common/src/main/java/org/platform/utils/encrypt/Base32.java:72-94 | The digits spell the bits of the message, zero-extended to a multiple of five. |
| `Base32RoundTrip.ValuesOfEncoded` | integration-common/src/main/java/org/platform/utils/encrypt/Base32.java:93-131 | Decoding reads exactly the digits encoding wrote, and skips the padding. |
| `Base32RoundTrip.RoundTrip` | integration-common/src/main/java/org/platform/utils/encrypt/Base32.java:46-153 | For every array, decoding an encoding returns the bytes, followed for one to four bytes by zeros up to five, if and only if the encoder's capacity fits an int. |
| `ConnectionPools.ConnectionPool.constructor` | integration-common/src/main/java/org/platform/utils/jdbc/ConnectionPool.java:66-79 | The pool starts with what createConnections opens into an empty one, whatever the driver answers. |
| `ConnectionPools.ConnectionPool.NewConnection` | integration-common/src/main/java/org/platform/utils/jdbc/ConnectionPool.java:188-203 | Opens a connection and lowers the limit when the pool is empty. |
| `ConnectionPools.ConnectionPool.CreateConnections` | integration-common/src/main/java/org/platform/utils/jdbc/ConnectionPool.java:168-182 | Adds new free slots up to the limit, keeping those there are. |
| `ConnectionPools.ConnectionPool.FindFreeConnection` | integration-common/src/main/java/org/platform/utils/jdbc/ConnectionPool.java:244-268 | Claims the first free slot and replaces its connection when it is dead. |
| `Pools.FoundWasChecked` | integration-common/src/main/java/org/platform/utils/jdbc/ConnectionPool.java:244-268 | With a free slot the result is its connection if that passes its test, else a new one if opening succeeds, else null; with none it is null and the driver is not asked. |
| `Pools.GotWasChecked` | integration-common/src/main/java/org/platform/utils/jdbc/ConnectionPool.java:227-238 | So every connection handed out has passed a test of this call or was opened in it. |
| `Pools.NewConnectionLimits` | integration-common/src/main/java/org/platform/utils/jdbc/ConnectionPool.java:188-203 | One attempt is made; the limit comes down to the driver's own exactly when the pool was empty and that is known and lower. |
| `Pools.CreateAttempts` | integration-common/src/main/java/org/platform/utils/jdbc/ConnectionPool.java:168-182 | The slots added hold, in order, exactly the connections that the attempts made have opened, all free. |
| `ConnectionPools.ConnectionPool.GetFreeConnection` | integration-common/src/main/java/org/platform/utils/jdbc/ConnectionPool.java:227-238 | Searches, grows the pool, and searches again. |
| `ConnectionPools.ConnectionPool.ReturnConnection` | integration-common/src/main/java/org/platform/utils/jdbc/ConnectionPool.java:296-311 | Frees the first slot that holds the connection and changes nothing else. |
| `Pools.CreateKeeps` | integration-common/src/main/java/org/platform/utils/jdbc/ConnectionPool.java:168-182 | Connections stay distinct, old slots stay in place, the limit is kept, and at most the number asked for is added. |
| `Pools.FoundIn` | integration-common/src/main/java/org/platform/utils/jdbc/ConnectionPool.java:249-264 | A connection handed out sits in one slot, which was free and is busy now; it was there or is new; no other slot changes. |
| `Pools.GetKeeps` | integration-common/src/main/java/org/platform/utils/jdbc/ConnectionPool.java:227-238 | Whatever the driver does, the pool stays sound and within its limit and grows by at most the increment. |
| `Pools.NullExactlyWhenExhausted` | integration-common/src/main/java/org/platform/utils/jdbc/ConnectionPool.java:227-238 | If opening never fails and the increment is positive, the result is null if and only if every slot was busy and the pool full, and then nothing has changed. |
| `Pools.GrowsOnlyWhenNoneFree` | integration-common/src/main/java/org/platform/utils/jdbc/ConnectionPool.java:228-232 | The pool grows only when no slot was free, or the free one was dead and could not be replaced. |
| `Pools.GetThenReturn` | integration-common/src/main/java/org/platform/utils/jdbc/ConnectionPool.java:244-311 | Returning what was found restores the slots, but for a new connection where the old one was dead. |
| `PoolInterleavings.RunKeepsInvariant` | integration-common/src/main/java/org/platform/utils/jdbc/ConnectionPool.java:168-311 | The invariant over slots, holders, returns in flight and the holder of the lock survives every interleaving of single accesses. |
| `PoolInterleavings.PoolIsSafe` | integration-common/src/main/java/org/platform/utils/jdbc/ConnectionPool.java:168-311 | In every reachable state no connection is held by two clients, distinct slots hold distinct connections, each connection held sits in a busy slot, and the pool stays within its own and the driver's limit. |
| `PoolInterleavings.HandedOutWasChecked` | integration-common/src/main/java/org/platform/utils/jdbc/ConnectionPool.java:227-268 | In every interleaving, when a client comes to hold a connection, its slot was claimed for that client before and the connection was tested alive or opened after that. |
| `PoolInterleavings.ReturnsFindTheirSlot` | integration-common/src/main/java/org/platform/utils/jdbc/ConnectionPool.java:302-310 | An unsynchronized return never runs off the end: it frees exactly the slot of its connection. |
| `PoolRefinement.CallIsGetFreeConnection` | integration-common/src/main/java/org/platform/utils/jdbc/ConnectionPool.java:210-238 | Taken without interference, from idle, the steps of a call are getFreeConnection: same pool, same connection. |
| `PoolRefinement.StartsAsCreated` | integration-common/src/main/java/org/platform/utils/jdbc/ConnectionPool.java:66-79 | Left alone from its beginning, a run first has the pool that createConnections makes of an empty one. |
| `Radix.BinaryIntToDecimalism` | integration-common/src/main/java/org/platform/utils/binary/BinaryUtils.java:15-33 | The value of the binary string modulo 2^32, read as an int, for every length. |
| `Radix.AppendZero` | integration-common/src/main/java/org/platform/utils/binary/BinaryUtils.java:401-417 | Pads with zeros on the given side to the given length; null and empty strings give an empty one, long ones are returned as they are. |
| `Radix.GroupsDenote` | integration-common/src/main/java/org/platform/utils/binary/BinaryUtils.java:113-124 | Groups of k bits from the right are the digits of the same number in base 2^k. |
| `Radix.BinaryIntToOctal` | integration-common/src/main/java/org/platform/utils/binary/BinaryUtils.java:105-126 | The octal numeral denotes the same number, with ceil(n/3) digits 0 to 7, for every length. |
| `Radix.BinaryIntToHexadecimal` | integration-common/src/main/java/org/platform/utils/binary/BinaryUtils.java:199-221 | The hexadecimal numeral denotes the same number, with ceil(n/4) digits 0 to 9 and A to F. |
| `Radix.BinaryDecToOctal` | integration-common/src/main/java/org/platform/utils/binary/BinaryUtils.java:135-154 | The octal digits denote the same fraction, with ceil(n/3) digits 0 to 7. |
| `Radix.BinaryDecToHexadecimal` | integration-common/src/main/java/org/platform/utils/binary/BinaryUtils.java:230-250 | Succeeds if and only if the string has at most 6, or 8, 9 or 12 characters, and then has ceil(n/3) hexadecimal digits that denote the same fraction: the loop counts groups of three and reads groups of four. |
| `Radix.TextRoundTrip` | integration-common/src/main/java/org/platform/utils/binary/BinaryUtils.java:363-388 | Reading a printed numeral gives its digits back. |
| `Radix.ToHexLetters` | integration-common/src/main/java/org/platform/utils/binary/BinaryUtils.java:363-388 | The digits 0 to 15 are written 0 to 9 and A to F. |
| `Radix.DigitsDetermine` | integration-common/src/main/java/org/platform/utils/binary/BinaryUtils.java:105-250 | Two texts of one base that read as the same digits are the same text. |

## Left out

- SlotLayout.ComputeSlotSegCoords: computes with real numbers, so rounding of coordinates is not modelled.
- SlotLayout.SortForwardSegs: takes the host's sort to be stable and titles to be ranked by the locale.
- EventFetch.EventManager.Callback: answers arrive one at a time; a handler of reportEvents that calls back into the manager is not modelled.
- EventRuns.RemovedStaysAwayIff: identifies sources by number; isSourcesEqual, which compares their function, array or address, is not modelled.
- Md5Long.OpLow: the high halves of the longs are computed as the code does, but no theorem says what they hold, since every result is cut to the low half.
- Md5Digest.MD5.GetMD5ofString: the encoding itself is a parameter.
- Md5Digest.MD5.Md5Update: says nothing about the buffer that is half copied when the exception is thrown.
- Base32.Encode: the longest string is taken to have 2147483647 characters; virtual machines that allow a few less fail a little earlier.
- ViewVisibility.OverlapServesDayViews: takes exclEndDay without the exception addDays makes for the epoch.
- ConnectionPools.ConnectionPool.constructor: a driver class that cannot be loaded or registered is a driver that opens nothing; exceptions of the driver other than SQLException, and a pool that was closed again, are not modelled.
- PoolInterleavings.PoolIsSafe: assumes clients that return only what they hold, once, and shared accesses in one order that all threads see; setters, closeConnectionPool and refreshConnections are left out. The waiting loop of getConnection is part of the steps, not of the class, and nothing is said about when it ends.
- IsoDates.PrintParse: the formatter's pattern language is represented by what format `u` prints; milliseconds parsed from a fraction are exact.
- Clock changes: fixDate matters only for times past the end of the day, since time is linear here.
- DOM, pixels, mouse handling, HTML strings and the user's handlers in the calendar.
- updateEvent, renderEvent and removeEvents of the event manager: each is one loop over the cache. Hooks are functions without effects.
- skipHiddenDays and the row count of MonthView for week modes other than fixed.
- The conversions of BinaryUtils to floating-point numbers.
