/** Cutting timed events to one column of the agenda, and laying the column out. */
module SliceSegs {
  import opened FirstFit
  import opened Sequences
  import opened SlotSegs
  import opened SlotGraph
  import opened SlotLevels
  import opened SlotLayout
  import StableSort

  /** An event with the end it is shown with. */
  datatype TimedEvent = TimedEvent(start: int, visEnd: int, title: int)

  datatype Piece = Piece(event: nat, start: int, end: int, title: int, isStart: bool, isEnd: bool)

  function PieceOf(s: SlotSeg): Piece {
    Piece(s.event, s.start, s.end, s.title, s.isStart, s.isEnd)
  }

  function PiecesOf(segs: seq<SlotSeg>): seq<Piece> {
    seq(|segs|, i requires 0 <= i < |segs| => PieceOf(segs[i]))
  }

  predicate Visible(e: TimedEvent, start: int, end: int) {
    e.visEnd > start && e.start < end
  }

  /** The instants of the event inside [start, end), flagged where its own ends are kept. */
  function Cut(e: TimedEvent, i: nat, start: int, end: int): Piece {
    Piece(i, if e.start < start then start else e.start, if e.visEnd > end then end else e.visEnd, e.title,
      e.start >= start, e.visEnd <= end)
  }

  /** The pieces of the visible events among the first `n`, in their order. */
  function Pieces(events: seq<TimedEvent>, n: nat, start: int, end: int): seq<Piece>
    requires n <= |events|
  {
    if n == 0 then []
    else Pieces(events, n - 1, start, end)
         + if Visible(events[n - 1], start, end) then [Cut(events[n - 1], n - 1, start, end)] else []
  }

  /** compareSlotSegs on what it looks at. */
  predicate PiecePrecedes(a: Piece, b: Piece) {
    if a.start != b.start then a.start < b.start
    else if a.end - a.start != b.end - b.start then a.end - a.start > b.end - b.start
    else a.title < b.title
  }

  /** The pieces of the column in the order the layout takes them. */
  function Sliced(events: seq<TimedEvent>, start: int, end: int): seq<Piece> {
    StableSort.Sort(PiecePrecedes, Pieces(events, |events|, start, end))
  }

  lemma SlicedIsSorted(events: seq<TimedEvent>, start: int, end: int)
    ensures StableSort.Sorted(PiecePrecedes, Sliced(events, start, end))
    ensures multiset(Sliced(events, start, end)) == multiset(Pieces(events, |events|, start, end))
  {
    StableSort.SortSorted(PiecePrecedes, Pieces(events, |events|, start, end));
  }

  /** Of two pieces the one drawn first starts earlier, or lasts longer, or its title is not the later one. */
  lemma SlicedInOrder(events: seq<TimedEvent>, start: int, end: int, i: nat, j: nat)
    requires i < j < |Sliced(events, start, end)|
    ensures var a, b := Sliced(events, start, end)[i], Sliced(events, start, end)[j];
      || a.start < b.start
      || (a.start == b.start
          && (|| a.end - a.start > b.end - b.start
              || (a.end - a.start == b.end - b.start && a.title <= b.title)))
  {
    hide Sliced;
    SlicedIsSorted(events, start, end);
    assert !PiecePrecedes(Sliced(events, start, end)[j], Sliced(events, start, end)[i]);
  }

  lemma PiecesAppend(segs: seq<SlotSeg>, s: SlotSeg)
    ensures PiecesOf(segs + [s]) == PiecesOf(segs) + [PieceOf(s)]
  {
  }

  lemma {:induction false} InsertPieces(segs: seq<SlotSeg>, s: SlotSeg)
    ensures PiecesOf(StableSort.Insert(Precedes, segs, s)) ==
            StableSort.Insert(PiecePrecedes, PiecesOf(segs), PieceOf(s))
  {
    hide StableSort.Insert, PiecesOf, PieceOf;
    if segs == [] {
      PiecesNone();
      PiecesAppend([], s);
      StableSort.InsertEmpty(Precedes, s);
      StableSort.InsertEmpty(PiecePrecedes, PieceOf(s));
      assert [] + [s] == [s] && [] + [PieceOf(s)] == [PieceOf(s)];
    } else {
      var front, last := segs[..|segs| - 1], segs[|segs| - 1];
      assert segs == front + [last];
      InsertPieces(front, s);
      StableSort.InsertLast(Precedes, front, last, s);
      StableSort.InsertLast(PiecePrecedes, PiecesOf(front), PieceOf(last), PieceOf(s));
      PiecesAppend(front, last);
      PiecesAppend(segs, s);
      PiecesAppend(StableSort.Insert(Precedes, front, s), last);
      SamePrecedes(s, last);
    }
  }

  lemma SamePrecedes(a: SlotSeg, b: SlotSeg)
    ensures Precedes(a, b) == PiecePrecedes(PieceOf(a), PieceOf(b))
  {
  }

  lemma PiecesNone()
    ensures PiecesOf([]) == []
  {
  }

  /** Sorting the segments sorts their pieces. */
  lemma {:induction false} SortPieces(segs: seq<SlotSeg>)
    ensures PiecesOf(StableSort.Sort(Precedes, segs)) == StableSort.Sort(PiecePrecedes, PiecesOf(segs))
  {
    if segs == [] {
      assert PiecesOf(segs) == [];
    } else {
      var front, last := segs[..|segs| - 1], segs[|segs| - 1];
      assert segs == front + [last];
      SortPieces(front);
      PiecesAppend(front, last);
      InsertPieces(StableSort.Sort(Precedes, front), last);
      assert (PiecesOf(front) + [PieceOf(last)])[..|front|] == PiecesOf(front);
    }
  }

  /** sliceSegs: one segment for every visible event, sorted. */
  method SliceSegs(events: seq<TimedEvent>, start: int, end: int) returns (r: seq<SlotSeg>)
    ensures PiecesOf(r) == Sliced(events, start, end) && Distinct(r)
    ensures forall s :: s in r ==> fresh(s) && Untouched(s)
  {
    var segs := [];
    for i := 0 to |events|
      invariant Distinct(segs) && PiecesOf(segs) == Pieces(events, i, start, end)
      invariant forall s :: s in segs ==> fresh(s) && Untouched(s)
    {
      var e := events[i];
      if e.visEnd > start && e.start < end {
        var segStart, isStart := e.start, true;
        if e.start < start {
          segStart, isStart := start, false;
        }
        var segEnd, isEnd := e.visEnd, true;
        if e.visEnd > end {
          segEnd, isEnd := end, false;
        }
        var seg := new SlotSeg(i, segStart, segEnd, e.title, isStart, isEnd);
        segs := segs + [seg];
      }
    }
    r := StableSort.Sort(Precedes, segs);
    DistinctPermuted(segs, r);
    SortPieces(segs);
    forall s | s in r ensures s in segs {
      StableSort.SortMembers<SlotSeg>(Precedes, segs, s);
    }
  }

  /** Pieces lie inside the column; a proper event in a proper column leaves a proper piece, and the piece covers
      exactly the instants the event and the column share. A flag is set exactly when the event's own end was kept. */
  lemma CutShares(e: TimedEvent, i: nat, start: int, end: int, t: int)
    requires Visible(e, start, end)
    ensures var p := Cut(e, i, start, end);
      && start <= p.start && p.end <= end && (start < end && e.start < e.visEnd ==> p.start < p.end)
      && (p.start <= t < p.end <==> e.start <= t < e.visEnd && start <= t < end)
      && (p.isStart <==> p.start == e.start) && (p.isEnd <==> p.end == e.visEnd)
  {
  }

  lemma {:induction false} PiecesShow(events: seq<TimedEvent>, n: nat, start: int, end: int)
    requires n <= |events|
    ensures forall p :: p in Pieces(events, n, start, end)
                    ==> p.event < n && Visible(events[p.event], start, end)
                        && p == Cut(events[p.event], p.event, start, end)
    ensures forall i :: 0 <= i < n && Visible(events[i], start, end)
                    ==> Cut(events[i], i, start, end) in Pieces(events, n, start, end)
  {
    if n > 0 {
      PiecesShow(events, n - 1, start, end);
    }
  }

  ghost predicate ProperEvents(events: seq<TimedEvent>) {
    forall i :: 0 <= i < |events| ==> events[i].start < events[i].visEnd
  }

  /** The segments sliced meet what the layout asks: they are in order of their starts, and those of proper events
      start before they end. */
  lemma SlicedAreOrderedAndProper(events: seq<TimedEvent>, start: int, end: int, segs: seq<SlotSeg>)
    requires PiecesOf(segs) == Sliced(events, start, end)
    ensures StartOrdered(segs)
    ensures start < end && ProperEvents(events) ==> Proper(segs)
  {
    SlicedIsSorted(events, start, end);
    forall i, j | 0 <= i < j < |segs|
      ensures segs[i].start <= segs[j].start
    {
      assert !PiecePrecedes(PiecesOf(segs)[j], PiecesOf(segs)[i]);
    }
    forall s | s in segs && start < end && ProperEvents(events)
      ensures s.start < s.end
    {
      SlicedIsProper(events, start, end, segs, s);
    }
  }

  lemma SlicedIsProper(events: seq<TimedEvent>, start: int, end: int, segs: seq<SlotSeg>, s: SlotSeg)
    requires start < end && ProperEvents(events) && PiecesOf(segs) == Sliced(events, start, end) && s in segs
    ensures s.start < s.end
  {
    hide Sliced, Pieces;
    var k :| 0 <= k < |segs| && segs[k] == s;
    assert PiecesOf(segs)[k] == PieceOf(s);
    SlicedIsSorted(events, start, end);
    assert PieceOf(s) in multiset(Sliced(events, start, end));
    PiecesShow(events, |events|, start, end);
  }

  /** One column of compileSlotSegs: its segments `segs` come back level by level with their coordinates, and they
      are what every guarantee of the layout asks for. */
  method CompileColumn(events: seq<TimedEvent>, start: int, end: int) returns (r: seq<SlotSeg>, segs: seq<SlotSeg>)
    ensures multiset(r) == multiset(segs) && r == Flatten(Levels(segs))
    ensures PiecesOf(segs) == Sliced(events, start, end)
    ensures StartOrdered(segs) && Distinct(segs) && (start < end && ProperEvents(events) ==> Proper(segs))
    ensures forall s :: s in segs ==> Shows(s, Pressure(CollisionGraph(segs), s), LayoutOf(segs)[s])
  {
    segs := SliceSegs(events, start, end);
    SlicedAreOrderedAndProper(events, start, end, segs);
    r := PlaceSlotSegs(segs);
    BuildIsPermutation(Hits, segs);
  }
}
