/** Cells, dates and date ranges of one view. A date is a day number, date 0 a Sunday. */
module RangeSegments {
  import opened DayCells
  import opened Numerals

  datatype View = View(week: Week, visStart: int, rowCnt: nat, colCnt: nat, isRTL: bool)
  datatype Cell = Cell(row: int, col: int)

  ghost predicate Valid(v: View) {
    ValidWeek(v.week) && v.colCnt >= 1
  }

  // --- cell -> cell offset -> day offset -> date ---

  function CellToCellOffset(v: View, cell: Cell): int {
    var dis := if v.isRTL then -1 else 1;
    var dit := if v.isRTL then v.colCnt - 1 else 0;
    cell.row * v.colCnt + (cell.col * dis + dit)
  }

  function CellOffsetToDayOffset(v: View, cellOffset: int): int
    requires Valid(v)
  {
    var day0 := v.visStart % 7;
    var c := |v.week.cellToDay|;
    var k := cellOffset + v.week.dayToCell[day0];
    WrapRem(k, c);
    k / c * 7 + v.week.cellToDay[(Rem(k, c) + c) % c] - day0
  }

  function CellToDate(v: View, cell: Cell): int
    requires Valid(v)
  {
    v.visStart + CellOffsetToDayOffset(v, CellToCellOffset(v, cell))
  }

  // --- date -> day offset -> cell offset -> cell ---

  function DateToDayOffset(v: View, date: int): int {
    date - v.visStart
  }

  function DayOffsetToCellOffset(v: View, dayOffset: int): int
    requires Valid(v)
  {
    var day0 := v.visStart % 7;
    var n := dayOffset + day0;
    WrapRem(n, 7);
    n / 7 * |v.week.cellToDay| + v.week.dayToCell[(Rem(n, 7) + 7) % 7] - v.week.dayToCell[day0]
  }

  function CellOffsetToCell(v: View, cellOffset: int): Cell
    requires v.colCnt >= 1
  {
    var dis := if v.isRTL then -1 else 1;
    var dit := if v.isRTL then v.colCnt - 1 else 0;
    Cell(cellOffset / v.colCnt, (Rem(cellOffset, v.colCnt) + v.colCnt) % v.colCnt * dis + dit)
  }

  function DateToCell(v: View, date: int): Cell
    requires Valid(v)
  {
    CellOffsetToCell(v, DayOffsetToCellOffset(v, DateToDayOffset(v, date)))
  }

  // --- the two maps are counting and its inverse ---

  /** Is the day `d` days after the view's first day visible? */
  predicate VisibleAt(v: View, d: int)
    requires Valid(v)
  {
    Visible(v.week, v.visStart + d)
  }

  lemma VisibleAtInWeek(v: View, d: int)
    requires Valid(v)
    ensures VisibleAt(v, d) == Visible(v.week, d + v.visStart % 7)
  {
    assert (v.visStart + d) % 7 == (d + v.visStart % 7) % 7;
  }

  lemma CellOffsetInWeek(v: View, k: int)
    requires Valid(v)
    ensures CellOffsetToDayOffset(v, k) == CellDay(v.week, k + v.week.dayToCell[v.visStart % 7]) - v.visStart % 7
  {
    WrapRem(k + v.week.dayToCell[v.visStart % 7], |v.week.cellToDay|);
  }

  lemma DayOffsetInWeek(v: View, d: int)
    requires Valid(v)
    ensures DayOffsetToCellOffset(v, d) == DayCell(v.week, d + v.visStart % 7) - v.week.dayToCell[v.visStart % 7]
  {
    WrapRem(d + v.visStart % 7, 7);
  }

  lemma {:induction false} VisibleDaysShift(w: Week, a: int, b: int, s: int)
    requires |w.isHidden| == 7
    ensures VisibleDays(w, a, b) == VisibleDays(w, a + 7 * s, b + 7 * s)
    decreases b - a
  {
    hide Visible;
    if a < b {
      VisibleDaysShift(w, a, b - 1, s);
      VisibleShift(w, b - 1, s);
    }
  }

  lemma VisibleShift(w: Week, n: int, s: int)
    requires |w.isHidden| == 7
    ensures Visible(w, n) == Visible(w, n + 7 * s)
  {
    assert n % 7 == (n + 7 * s) % 7;
  }

  /** Cell offsets count visible days, forwards and backwards from the view's first day. */
  lemma CellOffsetsCountVisibleDays(v: View, d1: int, d2: int)
    requires Valid(v) && d1 <= d2
    ensures DayOffsetToCellOffset(v, 0) == 0
    ensures DayOffsetToCellOffset(v, d2) - DayOffsetToCellOffset(v, d1) ==
      VisibleDays(v.week, v.visStart + d1, v.visStart + d2)
  {
    var day0 := v.visStart % 7;
    DayOffsetInWeek(v, 0);
    assert DayCell(v.week, day0) == v.week.dayToCell[day0] by { assert day0 / 7 == 0 && day0 % 7 == day0; }
    DayOffsetInWeek(v, d1);
    DayOffsetInWeek(v, d2);
    DayCellCounts(v.week, d1 + day0, d2 + day0);
    VisibleDaysShift(v.week, d1 + day0, d2 + day0, v.visStart / 7);
  }

  /** A cell's day is visible and leads back to the cell. */
  lemma CellOffsetRoundTrip(v: View, k: int)
    requires Valid(v)
    ensures VisibleAt(v, CellOffsetToDayOffset(v, k))
    ensures DayOffsetToCellOffset(v, CellOffsetToDayOffset(v, k)) == k
  {
    hide CellOffsetToDayOffset, DayOffsetToCellOffset, VisibleAt, Visible, DayCell, CellDay;
    var e := CellOffsetToDayOffset(v, k);
    CellOffsetInWeek(v, k);
    DayOffsetInWeek(v, e);
    VisibleAtInWeek(v, e);
    CellDayCell(v.week, k + v.week.dayToCell[v.visStart % 7]);
  }

  /** From a day to its cell and back is the first visible day from that day on: it is visible,
      not earlier, and no `u` before it is visible. */
  lemma DayOffsetRoundTrip(v: View, d: int, u: int)
    requires Valid(v)
    ensures var e := CellOffsetToDayOffset(v, DayOffsetToCellOffset(v, d));
      d <= e && VisibleAt(v, e) && (d <= u < e ==> !VisibleAt(v, u))
  {
    hide CellOffsetToDayOffset, DayOffsetToCellOffset, VisibleAt, Visible, DayCell, CellDay;
    var e := CellOffsetToDayOffset(v, DayOffsetToCellOffset(v, d));
    DayOffsetInWeek(v, d);
    CellOffsetInWeek(v, DayOffsetToCellOffset(v, d));
    VisibleAtInWeek(v, e);
    VisibleAtInWeek(v, u);
    DayCellDay(v.week, d + v.visStart % 7);
  }

  lemma OffsetOrder(v: View, k: int, d: int)
    requires Valid(v)
    ensures d <= CellOffsetToDayOffset(v, k) <==> DayOffsetToCellOffset(v, d) <= k
  {
    hide CellOffsetToDayOffset, DayOffsetToCellOffset, DayCell, CellDay;
    CellOffsetInWeek(v, k);
    DayOffsetInWeek(v, d);
    CellDayOrder(v.week, k + v.week.dayToCell[v.visStart % 7], d + v.visStart % 7);
  }

  // --- cells and offsets ---

  lemma OffsetToCellAndBack(v: View, k: int)
    requires v.colCnt >= 1
    ensures var cell := CellOffsetToCell(v, k);
      0 <= cell.col < v.colCnt && CellToCellOffset(v, cell) == k
  {
    WrapRem(k, v.colCnt);
  }

  lemma CellToOffsetAndBack(v: View, cell: Cell)
    requires 0 <= cell.col < v.colCnt
    ensures CellOffsetToCell(v, CellToCellOffset(v, cell)) == cell
  {
    var k := CellToCellOffset(v, cell);
    DivMod(k, v.colCnt, cell.row, if v.isRTL then v.colCnt - 1 - cell.col else cell.col);
    WrapRem(k, v.colCnt);
  }

  /** Every cell's date leads back to the cell, in both directions of writing. */
  lemma CellToDateAndBack(v: View, cell: Cell)
    requires Valid(v) && 0 <= cell.col < v.colCnt
    ensures Visible(v.week, CellToDate(v, cell)) && DateToCell(v, CellToDate(v, cell)) == cell
  {
    CellOffsetRoundTrip(v, CellToCellOffset(v, cell));
    CellToOffsetAndBack(v, cell);
  }

  /** The date of a date's cell is the first visible date from that date on. */
  lemma DateToCellAndBack(v: View, date: int, u: int)
    requires Valid(v)
    ensures var e := CellToDate(v, DateToCell(v, date));
      date <= e && Visible(v.week, e) && (date <= u < e ==> !Visible(v.week, u))
  {
    var d := DateToDayOffset(v, date);
    DayOffsetRoundTrip(v, d, DateToDayOffset(v, u));
    OffsetToCellAndBack(v, DayOffsetToCellOffset(v, d));
  }

  // --- sorting two column numbers, as strings ---

  predicate LexLess(a: seq<nat>, b: seq<nat>) {
    if a == [] then b != []
    else if b == [] then false
    else if a[0] != b[0] then a[0] < b[0]
    else LexLess(a[1..], b[1..])
  }

  /** `[a, b].sort()`: without a comparator numbers are compared as strings. */
  function SortCols(a: nat, b: nat): (nat, nat) {
    if LexLess(Decimal(b), Decimal(a)) then (b, a) else (a, b)
  }

  /** The text order: a difference at the first place the two texts differ, or one text begins the other. */
  lemma {:induction false} LexLessIff(a: seq<nat>, b: seq<nat>)
    ensures LexLess(a, b) <==> exists k: nat :: DiffersAt(a, b, k)
  {
    if LexLess(a, b) {
      if a == [] || a[0] != b[0] {
        assert DiffersAt(a, b, 0);
      } else {
        LexLessIff(a[1..], b[1..]);
        var k: nat :| DiffersAt(a[1..], b[1..], k);
        DiffersBehind(a, b, k + 1);
        assert DiffersAt(a, b, k + 1);
      }
    }
    if k: nat :| DiffersAt(a, b, k) && k > 0 {
      DiffersBehind(a, b, k);
      LexLessIff(a[1..], b[1..]);
    }
  }

  /** Up to `k` the two are the same; there `a` ends, or has the smaller digit. */
  predicate DiffersAt(a: seq<nat>, b: seq<nat>, k: nat) {
    k <= |a| && k < |b| && a[..k] == b[..k] && (k < |a| ==> a[k] < b[k])
  }

  lemma DiffersBehind(a: seq<nat>, b: seq<nat>, k: nat)
    requires a != [] && b != [] && k > 0
    ensures DiffersAt(a, b, k) <==> a[0] == b[0] && DiffersAt(a[1..], b[1..], k - 1)
  {
    if k <= |a| && k <= |b| {
      assert a[..k] == [a[0]] + a[1..][..k - 1];
      assert b[..k] == [b[0]] + b[1..][..k - 1];
      assert a[..k] == b[..k] ==> a[..k][0] == b[..k][0] && a[..k][1..] == b[..k][1..];
    }
  }

  /** Is `a`, written out, before `b` in the order of texts? */
  ghost predicate TextBefore(a: nat, b: nat) {
    exists k: nat :: DiffersAt(Decimal(a), Decimal(b), k)
  }

  /** The two columns change places exactly when the second comes first as text. */
  lemma SortColsIff(a: nat, b: nat)
    ensures SortCols(a, b) == if TextBefore(b, a) then (b, a) else (a, b)
  {
    LexLessIff(Decimal(b), Decimal(a));
  }

  // --- date range -> segments ---

  datatype Segment = Segment(row: int, leftCol: int, rightCol: int, isStart: bool, isEnd: bool)

  function Max(a: int, b: int): int { if a < b then b else a }
  function Min(a: int, b: int): int { if b < a then b else a }

  /** The part of cells first..last (inclusive) that lies in `row`. */
  function RowFirst(v: View, row: int, first: int): int { Max(first, row * v.colCnt) }
  function RowLast(v: View, row: int, last: int): int { Min(last, row * v.colCnt + v.colCnt - 1) }

  function SegmentOf(v: View, row: int, startOff: int, endOff: int, first: int, last: int): Segment
    requires Valid(v)
  {
    OffsetToCellAndBack(v, first);
    OffsetToCellAndBack(v, last);
    var cols := SortCols(CellOffsetToCell(v, first).col, CellOffsetToCell(v, last).col);
    Segment(row, cols.0, cols.1,
            CellOffsetToDayOffset(v, first) == startOff, CellOffsetToDayOffset(v, last) + 1 == endOff)
  }

  /** Cell offsets of the first and of the last cell of the range. */
  function RangeFirst(v: View, startDate: int): int
    requires Valid(v)
  {
    DayOffsetToCellOffset(v, DateToDayOffset(v, startDate))
  }

  function RangeLast(v: View, endDate: int): int
    requires Valid(v)
  {
    DayOffsetToCellOffset(v, DateToDayOffset(v, endDate)) - 1
  }

  /** Does the range reach into `row`? */
  predicate InRow(v: View, startDate: int, endDate: int, row: int)
    requires Valid(v)
  {
    RowFirst(v, row, RangeFirst(v, startDate)) <= RowLast(v, row, RangeLast(v, endDate))
  }

  function RowSegment(v: View, startDate: int, endDate: int, row: int): (seg: Segment)
    requires Valid(v)
    ensures seg.row == row
  {
    SegmentOf(v, row, DateToDayOffset(v, startDate), DateToDayOffset(v, endDate),
              RowFirst(v, row, RangeFirst(v, startDate)), RowLast(v, row, RangeLast(v, endDate)))
  }

  /** The segments of rows 0..n. */
  function SegmentsUpTo(v: View, startDate: int, endDate: int, n: nat): seq<Segment>
    requires Valid(v)
  {
    if n == 0 then []
    else
      var above := SegmentsUpTo(v, startDate, endDate, n - 1);
      if InRow(v, startDate, endDate, n - 1) then above + [RowSegment(v, startDate, endDate, n - 1)] else above
  }

  function Segments(v: View, startDate: int, endDate: int): seq<Segment>
    requires Valid(v)
  {
    SegmentsUpTo(v, startDate, endDate, v.rowCnt)
  }

  lemma NoSegments(v: View, startDate: int, endDate: int)
    requires Valid(v)
    ensures SegmentsUpTo(v, startDate, endDate, 0) == []
  {
  }

  method RangeToSegments(v: View, startDate: int, endDate: int) returns (segments: seq<Segment>)
    requires Valid(v)
    ensures segments == Segments(v, startDate, endDate)
  {
    hide SegmentsUpTo, CellOffsetToDayOffset, DayOffsetToCellOffset, SortCols;
    NoSegments(v, startDate, endDate);
    segments := [];
    var rangeDayOffsetStart := DateToDayOffset(v, startDate);
    var rangeDayOffsetEnd := DateToDayOffset(v, endDate);
    var rangeCellOffsetFirst := DayOffsetToCellOffset(v, rangeDayOffsetStart);
    var rangeCellOffsetLast := DayOffsetToCellOffset(v, rangeDayOffsetEnd) - 1;
    for row := 0 to v.rowCnt
      invariant segments == SegmentsUpTo(v, startDate, endDate, row)
    {
      SegmentsStep(v, startDate, endDate, row);
      var rowCellOffsetFirst := row * v.colCnt;
      var rowCellOffsetLast := rowCellOffsetFirst + v.colCnt - 1;
      var segmentCellOffsetFirst := Max(rangeCellOffsetFirst, rowCellOffsetFirst);
      var segmentCellOffsetLast := Min(rangeCellOffsetLast, rowCellOffsetLast);
      assert segmentCellOffsetFirst == RowFirst(v, row, RangeFirst(v, startDate));
      assert segmentCellOffsetLast == RowLast(v, row, RangeLast(v, endDate));
      if segmentCellOffsetFirst <= segmentCellOffsetLast {
        OffsetToCellAndBack(v, segmentCellOffsetFirst);
        OffsetToCellAndBack(v, segmentCellOffsetLast);
        var segmentCellFirst := CellOffsetToCell(v, segmentCellOffsetFirst);
        var segmentCellLast := CellOffsetToCell(v, segmentCellOffsetLast);
        var cols := SortCols(segmentCellFirst.col, segmentCellLast.col);
        var isStart := CellOffsetToDayOffset(v, segmentCellOffsetFirst) == rangeDayOffsetStart;
        var isEnd := CellOffsetToDayOffset(v, segmentCellOffsetLast) + 1 == rangeDayOffsetEnd;
        segments := segments + [Segment(row, cols.0, cols.1, isStart, isEnd)];
      }
    }
  }

  // --- what the segments cover ---

  lemma SegmentsStep(v: View, startDate: int, endDate: int, n: nat)
    requires Valid(v)
    ensures SegmentsUpTo(v, startDate, endDate, n + 1) == SegmentsUpTo(v, startDate, endDate, n)
      + if InRow(v, startDate, endDate, n) then [RowSegment(v, startDate, endDate, n)] else []
  {
  }

  lemma {:induction false} SegmentsSound(v: View, startDate: int, endDate: int, n: nat, seg: Segment)
    requires Valid(v)
    ensures seg in SegmentsUpTo(v, startDate, endDate, n) ==>
      0 <= seg.row < n && InRow(v, startDate, endDate, seg.row) && seg == RowSegment(v, startDate, endDate, seg.row)
  {
    if n > 0 { SegmentsSound(v, startDate, endDate, n - 1, seg); }
    hide InRow, RowSegment, Valid;
  }

  lemma {:induction false} SegmentsComplete(v: View, startDate: int, endDate: int, n: nat, row: nat)
    requires Valid(v) && row < n
    ensures InRow(v, startDate, endDate, row) ==>
      RowSegment(v, startDate, endDate, row) in SegmentsUpTo(v, startDate, endDate, n)
  {
    if row < n - 1 { SegmentsComplete(v, startDate, endDate, n - 1, row); }
    SegmentsStep(v, startDate, endDate, n - 1);
    hide InRow, RowSegment, SegmentsUpTo, Valid;
  }

  /** At most one segment a row, from top to bottom. */
  lemma {:induction false} OneSegmentPerRow(v: View, startDate: int, endDate: int, n: nat)
    requires Valid(v)
    ensures var segs := SegmentsUpTo(v, startDate, endDate, n);
      forall i, j :: 0 <= i < j < |segs| ==> segs[i].row < segs[j].row
  {
    if n > 0 {
      OneSegmentPerRow(v, startDate, endDate, n - 1);
      SegmentsStep(v, startDate, endDate, n - 1);
      hide InRow, RowSegment, SegmentsUpTo, Valid;
      var before := SegmentsUpTo(v, startDate, endDate, n - 1);
      forall i | 0 <= i < |before|
        ensures before[i].row < n - 1
      {
        SegmentsSound(v, startDate, endDate, n - 1, before[i]);
      }
    }
  }

  predicate Covers(seg: Segment, cell: Cell) {
    seg.row == cell.row && Min(seg.leftCol, seg.rightCol) <= cell.col <= Max(seg.leftCol, seg.rightCol)
  }

  lemma CellInRow(v: View, cell: Cell)
    requires 0 <= cell.col < v.colCnt
    ensures cell.row * v.colCnt <= CellToCellOffset(v, cell) < cell.row * v.colCnt + v.colCnt
  {
  }

  lemma ColInRow(v: View, row: int, k: int)
    requires v.colCnt >= 1 && row * v.colCnt <= k < row * v.colCnt + v.colCnt
    ensures CellOffsetToCell(v, k)
         == Cell(row, if v.isRTL then v.colCnt - 1 - (k - row * v.colCnt) else k - row * v.colCnt)
  {
    DivMod(k, v.colCnt, row, k - row * v.colCnt);
    WrapRem(k, v.colCnt);
  }

  lemma RowSegmentCovers(v: View, startDate: int, endDate: int, cell: Cell)
    requires Valid(v) && 0 <= cell.col < v.colCnt && InRow(v, startDate, endDate, cell.row)
    ensures Covers(RowSegment(v, startDate, endDate, cell.row), cell) <==>
      RangeFirst(v, startDate) <= CellToCellOffset(v, cell) <= RangeLast(v, endDate)
  {
    CellInRow(v, cell);
    ColInRow(v, cell.row, RowFirst(v, cell.row, RangeFirst(v, startDate)));
    ColInRow(v, cell.row, RowLast(v, cell.row, RangeLast(v, endDate)));
  }

  lemma DateInRange(v: View, startDate: int, endDate: int, cell: Cell)
    requires Valid(v)
    ensures startDate <= CellToDate(v, cell) < endDate <==>
      RangeFirst(v, startDate) <= CellToCellOffset(v, cell) <= RangeLast(v, endDate)
  {
    OffsetOrder(v, CellToCellOffset(v, cell), DateToDayOffset(v, startDate));
    OffsetOrder(v, CellToCellOffset(v, cell), DateToDayOffset(v, endDate));
  }

  /** A cell of the grid is covered if and only if its date lies in the range. */
  lemma CoveredIffInRange(v: View, startDate: int, endDate: int, cell: Cell)
    requires Valid(v) && 0 <= cell.row < v.rowCnt && 0 <= cell.col < v.colCnt
    ensures (exists seg :: seg in Segments(v, startDate, endDate) && Covers(seg, cell)) <==>
      startDate <= CellToDate(v, cell) < endDate
  {
    DateInRange(v, startDate, endDate, cell);
    CellInRow(v, cell);
    if InRow(v, startDate, endDate, cell.row) {
      RowSegmentCovers(v, startDate, endDate, cell);
      SegmentsComplete(v, startDate, endDate, v.rowCnt, cell.row);
    }
    if seg :| seg in Segments(v, startDate, endDate) && Covers(seg, cell) {
      SegmentsSound(v, startDate, endDate, v.rowCnt, seg);
    }
  }

  // --- isStart and isEnd ---

  lemma NextOffset(v: View, d: int)
    requires Valid(v)
    ensures DayOffsetToCellOffset(v, d + 1) == DayOffsetToCellOffset(v, d) + if VisibleAt(v, d) then 1 else 0
    ensures VisibleAt(v, d) ==> CellOffsetToDayOffset(v, DayOffsetToCellOffset(v, d)) == d
  {
    DayOffsetInWeek(v, d);
    DayOffsetInWeek(v, d + 1);
    VisibleAtInWeek(v, d);
    NextDayCell(v.week, d + v.visStart % 7);
    DayOffsetRoundTrip(v, d, d);
  }

  /** isStart is set on the segment of the start day's row, when that day is visible. */
  lemma RowIsStart(v: View, startDate: int, endDate: int, row: int)
    requires Valid(v)
    ensures InRow(v, startDate, endDate, row) && RowSegment(v, startDate, endDate, row).isStart <==>
      Visible(v.week, startDate) && startDate < endDate && DateToCell(v, startDate).row == row
  {
    hide CellOffsetToDayOffset, DayOffsetToCellOffset;
    var d := DateToDayOffset(v, startDate);
    var first := RowFirst(v, row, RangeFirst(v, startDate));
    NextOffset(v, d);
    CellOffsetRoundTrip(v, first);
    OffsetOrder(v, RangeFirst(v, startDate), DateToDayOffset(v, endDate));
    OffsetToCellAndBack(v, RangeFirst(v, startDate));
    RowOf(v, RangeFirst(v, startDate), row);
  }

  /** The row of an offset is the row whose bounds contain it. */
  lemma RowOf(v: View, k: int, row: int)
    requires v.colCnt >= 1
    ensures k / v.colCnt == row <==> row * v.colCnt <= k <= row * v.colCnt + v.colCnt - 1
  {
    if row * v.colCnt <= k <= row * v.colCnt + v.colCnt - 1 { DivMod(k, v.colCnt, row, k - row * v.colCnt); }
  }

  lemma RowIsEnd(v: View, startDate: int, endDate: int, row: int)
    requires Valid(v)
    ensures InRow(v, startDate, endDate, row) && RowSegment(v, startDate, endDate, row).isEnd <==>
      Visible(v.week, endDate - 1) && startDate < endDate && DateToCell(v, endDate - 1).row == row
  {
    hide CellOffsetToDayOffset, DayOffsetToCellOffset;
    var d := DateToDayOffset(v, endDate - 1);
    var last := RowLast(v, row, RangeLast(v, endDate));
    NextOffset(v, d);
    CellOffsetRoundTrip(v, last);
    OffsetOrder(v, RangeLast(v, endDate), DateToDayOffset(v, startDate));
    OffsetToCellAndBack(v, DayOffsetToCellOffset(v, d));
    RowOf(v, DayOffsetToCellOffset(v, d), row);
  }

  /** isStart is set on exactly the segments of the start day's row when the start day is
      visible, so (one segment a row) on at most one; it is set at all if and only if the start
      day is visible and in the grid. */
  lemma StartFlag(v: View, startDate: int, endDate: int)
    requires Valid(v)
    ensures forall seg :: seg in Segments(v, startDate, endDate) && seg.isStart ==>
      Visible(v.week, startDate) && seg.row == DateToCell(v, startDate).row
    ensures (exists seg :: seg in Segments(v, startDate, endDate) && seg.isStart) <==>
      Visible(v.week, startDate) && startDate < endDate && 0 <= DateToCell(v, startDate).row < v.rowCnt
  {
    var row := DateToCell(v, startDate).row;
    forall seg | seg in Segments(v, startDate, endDate) && seg.isStart
      ensures Visible(v.week, startDate) && startDate < endDate && 0 <= seg.row < v.rowCnt && seg.row == row
    {
      SegmentsSound(v, startDate, endDate, v.rowCnt, seg);
      RowIsStart(v, startDate, endDate, seg.row);
    }
    RowIsStart(v, startDate, endDate, row);
    if Visible(v.week, startDate) && startDate < endDate && 0 <= row < v.rowCnt {
      SegmentsComplete(v, startDate, endDate, v.rowCnt, row);
    }
  }

  lemma EndFlag(v: View, startDate: int, endDate: int)
    requires Valid(v)
    ensures forall seg :: seg in Segments(v, startDate, endDate) && seg.isEnd ==>
      Visible(v.week, endDate - 1) && seg.row == DateToCell(v, endDate - 1).row
    ensures (exists seg :: seg in Segments(v, startDate, endDate) && seg.isEnd) <==>
      Visible(v.week, endDate - 1) && startDate < endDate && 0 <= DateToCell(v, endDate - 1).row < v.rowCnt
  {
    var row := DateToCell(v, endDate - 1).row;
    forall seg | seg in Segments(v, startDate, endDate) && seg.isEnd
      ensures Visible(v.week, endDate - 1) && startDate < endDate && 0 <= seg.row < v.rowCnt && seg.row == row
    {
      SegmentsSound(v, startDate, endDate, v.rowCnt, seg);
      RowIsEnd(v, startDate, endDate, seg.row);
    }
    RowIsEnd(v, startDate, endDate, row);
    if Visible(v.week, endDate - 1) && startDate < endDate && 0 <= row < v.rowCnt {
      SegmentsComplete(v, startDate, endDate, v.rowCnt, row);
    }
  }

  // --- leftCol <= rightCol ---

  lemma SmallColsSorted(a: nat, b: nat)
    requires a < 10 && b < 10
    ensures SortCols(a, b) == (Min(a, b), Max(a, b))
  {
    assert Decimal(a) == [a] && Decimal(b) == [b];
  }

  /** Nine comes after ten. */
  lemma NineTen()
    ensures SortCols(9, 10) == (10, 9) && SortCols(10, 9) == (10, 9)
  {
    assert Decimal(9) == [9];
    assert Decimal(10) == Decimal(1) + [0] == [1, 0];
  }

  lemma NarrowColsOrdered(v: View, startDate: int, endDate: int, seg: Segment)
    requires Valid(v) && v.colCnt <= 10
    ensures seg in Segments(v, startDate, endDate) ==> 0 <= seg.leftCol <= seg.rightCol < v.colCnt
  {
    SegmentsSound(v, startDate, endDate, v.rowCnt, seg);
    var first := RowFirst(v, seg.row, RangeFirst(v, startDate));
    var last := RowLast(v, seg.row, RangeLast(v, endDate));
    OffsetToCellAndBack(v, first);
    OffsetToCellAndBack(v, last);
    SmallColsSorted(CellOffsetToCell(v, first).col, CellOffsetToCell(v, last).col);
  }

  /** Every view of the calendar has as many columns as the week has visible days, or one: its segments are in order. */
  lemma ShippedColsOrdered(v: View, startDate: int, endDate: int, seg: Segment)
    requires Valid(v) && (v.colCnt == |v.week.cellToDay| || v.colCnt == 1)
    ensures seg in Segments(v, startDate, endDate) ==> 0 <= seg.leftCol <= seg.rightCol < v.colCnt
  {
    AtMostSevenCells(v.week);
    NarrowColsOrdered(v, startDate, endDate, seg);
  }

  /** The dates whose cells are the offsets first..last. */
  lemma RangeOfOffsets(v: View, first: int, last: int) returns (startDate: int, endDate: int)
    requires Valid(v)
    ensures RangeFirst(v, startDate) == first && RangeLast(v, endDate) == last
  {
    hide CellOffsetToDayOffset, DayOffsetToCellOffset, VisibleAt;
    startDate := v.visStart + CellOffsetToDayOffset(v, first);
    endDate := v.visStart + CellOffsetToDayOffset(v, last) + 1;
    CellOffsetRoundTrip(v, first);
    CellOffsetRoundTrip(v, last);
    NextOffset(v, CellOffsetToDayOffset(v, last));
  }

  /** The range of columns 9 and 10 of the first row. */
  lemma WideColsDisordered(v: View) returns (startDate: int, endDate: int, seg: Segment)
    requires Valid(v) && v.colCnt > 10 && v.rowCnt > 0
    ensures seg in Segments(v, startDate, endDate) && seg.leftCol > seg.rightCol
  {
    var k := if v.isRTL then v.colCnt - 11 else 9;
    startDate, endDate := RangeOfOffsets(v, k, k + 1);
    ColInRow(v, 0, k);
    ColInRow(v, 0, k + 1);
    NineTen();
    seg := RowSegment(v, startDate, endDate, 0);
    SegmentsComplete(v, startDate, endDate, v.rowCnt, 0);
  }

  /** The columns of every segment are ordered if and only if the grid has at most ten columns. */
  lemma ColsOrderedIffNarrow(v: View)
    requires Valid(v) && v.rowCnt > 0
    ensures v.colCnt <= 10 <==>
      forall startDate, endDate, seg :: seg in Segments(v, startDate, endDate) ==> seg.leftCol <= seg.rightCol
  {
    if v.colCnt <= 10 {
      forall startDate, endDate, seg | seg in Segments(v, startDate, endDate) ensures seg.leftCol <= seg.rightCol {
        NarrowColsOrdered(v, startDate, endDate, seg);
      }
    } else {
      var startDate, endDate, seg := WideColsDisordered(v);
    }
  }
}
