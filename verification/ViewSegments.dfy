/** The visibility tests of the views are what their renderers draw: a day is touched where a segment covers its cell,
    a slot column where slicing leaves a piece. Times are minutes, dates days. */
module ViewSegments {
  import opened EventFetch
  import opened ViewVisibility
  import opened DayCells
  import opened RangeSegments
  import SliceSegs
  import StableSort

  /** The same days are hidden. */
  ghost predicate SameDays(v: View, hidden: int -> bool)
    requires RangeSegments.Valid(v)
  {
    forall date :: hidden(date * DAY) <==> !Visible(v.week, date)
  }

  lemma DayOfCell(e: Event, date: int)
    ensures ClearTime(e.start) <= date * DAY < ExclEndDay(e) <==> e.start / DAY <= date < ExclEndDay(e) / DAY
  {
    hide ExclEndDay;
    ExclEndDayIs(e);
    assert e.start == DAY * (e.start / DAY) + e.start % DAY;
    assert ExclEndDay(e) == DAY * (ExclEndDay(e) / DAY);
  }

  /** A cell of the grid is covered by a segment of the event exactly when the event touches its day. */
  lemma TouchedIffCovered(v: View, hidden: int -> bool, e: Event, cell: Cell)
    requires RangeSegments.Valid(v) && SameDays(v, hidden) && 0 <= cell.row < v.rowCnt && 0 <= cell.col < v.colCnt
    ensures DayTouches(e, CellToDate(v, cell) * DAY, hidden) <==>
      exists seg :: seg in Segments(v, e.start / DAY, ExclEndDay(e) / DAY) && Covers(seg, cell)
  {
    hide CellToDate, Segments, Covers, ExclEndDay, ClearTime, Visible;
    CellToDateAndBack(v, cell);
    CoveredIffInRange(v, e.start / DAY, ExclEndDay(e) / DAY, cell);
    DayOfCell(e, CellToDate(v, cell));
  }

  /** The end of a slot event: its own, or some minutes after its start. */
  function Timed(e: Event, defaultMinutes: int, title: int): SliceSegs.TimedEvent {
    SliceSegs.TimedEvent(e.start, if e.end.Some? then e.end.value else e.start + defaultMinutes, title)
  }

  /** The column of a day that is shown holds a piece of a timed event exactly when the event touches it. */
  lemma TouchedIffSliced(e: Event, d: int, hidden: int -> bool, defaultMinutes: int, minMinute: int, maxMinute: int,
                         title: int)
    ensures SlotTouches(e, d, hidden, defaultMinutes, minMinute, maxMinute) <==>
      !hidden(d) && !e.allDay
      && SliceSegs.Sliced([Timed(e, defaultMinutes, title)], d + minMinute, d + maxMinute) != []
  {
    var pieces := SliceSegs.Pieces([Timed(e, defaultMinutes, title)], 1, d + minMinute, d + maxMinute);
    assert SliceSegs.Pieces([Timed(e, defaultMinutes, title)], 0, d + minMinute, d + maxMinute) == [];
    SliceSegs.SlicedIsSorted([Timed(e, defaultMinutes, title)], d + minMinute, d + maxMinute);
    EmptyIff(SliceSegs.Sliced([Timed(e, defaultMinutes, title)], d + minMinute, d + maxMinute), pieces);
  }

  lemma EmptyIff(a: seq<SliceSegs.Piece>, b: seq<SliceSegs.Piece>)
    requires multiset(a) == multiset(b)
    ensures a == [] <==> b == []
  {
    assert |a| == |multiset(a)| && |b| == |multiset(b)|;
  }
}
