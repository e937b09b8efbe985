/** The all-day renderer: segments of a row are sorted into collision-free subrows and stacked
    by the running heights of the columns. */
module DayStacking {
  import opened FirstFit
  import opened Sequences
  import opened StableSort

  class DaySegment {
    const row: int
    const leftCol: int
    const rightCol: int
    const rendered: bool // does it have an element?
    const outerHeight: real
    const allDay: bool
    const start: int
    const title: int // rank of the title in the locale's order
    var top: real

    constructor (row: int, leftCol: int, rightCol: int, rendered: bool, outerHeight: real, allDay: bool, start: int,
        title: int)
      ensures this.row == row && this.leftCol == leftCol && this.rightCol == rightCol && this.rendered == rendered
      ensures this.outerHeight == outerHeight && this.allDay == allDay && this.start == start && this.title == title
    {
      this.row, this.leftCol, this.rightCol, this.rendered := row, leftCol, rightCol, rendered;
      this.outerHeight, this.allDay, this.start, this.title, top := outerHeight, allDay, start, title, 0.0;
    }
  }

  /** Do the segments share a column? */
  predicate ShareColumn(a: DaySegment, b: DaySegment) {
    b.leftCol <= a.rightCol && b.rightCol >= a.leftCol
  }

  /** compareDaySegments(a, b) < 0: wider first, then all-day, then earlier, then by title. */
  predicate DayPrecedes(a: DaySegment, b: DaySegment) {
    if a.rightCol - a.leftCol != b.rightCol - b.leftCol then a.rightCol - a.leftCol > b.rightCol - b.leftCol
    else if a.allDay != b.allDay then a.allDay
    else if a.start != b.start then a.start < b.start
    else a.title < b.title
  }

  /** The rendered segments of row `r`, in order. */
  function RowMembers(segments: seq<DaySegment>, r: int): seq<DaySegment> {
    if segments == [] then []
    else
      var n := |segments| - 1;
      var rest := RowMembers(segments[..n], r);
      if segments[n].rendered && segments[n].row == r then rest + [segments[n]] else rest
  }

  function Subrows(segments: seq<DaySegment>): seq<seq<DaySegment>> {
    Build(ShareColumn, Sort(DayPrecedes, segments))
  }

  function SortedRow(segments: seq<DaySegment>, r: int): seq<DaySegment> {
    Flatten(Subrows(RowMembers(segments, r)))
  }

  // --- building the rows ---

  method IsDaySegmentCollision(segment: DaySegment, otherSegments: seq<DaySegment>) returns (b: bool)
    ensures b <==> Collisions(ShareColumn, segment, otherSegments) != []
  {
    for i := 0 to |otherSegments|
      invariant Collisions(ShareColumn, segment, otherSegments[..i]) == []
    {
      assert otherSegments[..i + 1][..i] == otherSegments[..i];
      if otherSegments[i].leftCol <= segment.rightCol && otherSegments[i].rightCol >= segment.leftCol {
        assert otherSegments[i] in Collisions(ShareColumn, segment, otherSegments);
        return true;
      }
    }
    assert otherSegments[..|otherSegments|] == otherSegments;
    return false;
  }

  method BuildSegmentSubrows(segments: seq<DaySegment>) returns (subrows: seq<seq<DaySegment>>)
    ensures subrows == Subrows(segments)
  {
    hide Build, Sort;
    var sorted := Sort(DayPrecedes, segments);
    BuildNone(ShareColumn);
    subrows := [];
    for i := 0 to |sorted|
      invariant subrows == Build(ShareColumn, sorted[..i])
    {
      var segment := sorted[i];
      var j := 0;
      while j < |subrows|
        invariant j <= |subrows|
        invariant FittingLevel(ShareColumn, segment, subrows, 0) == FittingLevel(ShareColumn, segment, subrows, j)
      {
        var collides := IsDaySegmentCollision(segment, subrows[j]);
        if !collides { break; }
        j := j + 1;
      }
      assert sorted[..i + 1] == sorted[..i] + [segment];
      BuildAppend(ShareColumn, sorted[..i], segment);
      if j < |subrows| {
        subrows := subrows[j := subrows[j] + [segment]];
      } else {
        subrows := subrows + [[segment]];
      }
    }
    assert sorted[..|sorted|] == sorted;
  }

  method SortSegmentRow(segments: seq<DaySegment>) returns (sortedSegments: seq<DaySegment>)
    ensures sortedSegments == Flatten(Subrows(segments))
  {
    sortedSegments := [];
    var subrows := BuildSegmentSubrows(segments);
    for i := 0 to |subrows|
      invariant sortedSegments == Flatten(subrows[..i])
    {
      assert subrows[..i + 1][..i] == subrows[..i];
      sortedSegments := sortedSegments + subrows[i];
    }
    assert subrows[..|subrows|] == subrows;
  }

  lemma NextMember(segments: seq<DaySegment>, i: nat, r: int)
    requires i < |segments|
    ensures RowMembers(segments[..i + 1], r) ==
      RowMembers(segments[..i], r) + if segments[i].rendered && segments[i].row == r then [segments[i]] else []
  {
    assert segments[..i + 1][..i] == segments[..i];
  }

  /** The rows in `m` are the nonempty ones of the grouping by row. */
  ghost predicate Grouped(segments: seq<DaySegment>, m: map<int, seq<DaySegment>>) {
    forall r: int :: RowMembers(segments, r) == if r in m then m[r] else []
  }

  /** The first loop of buildSegmentRows. */
  method GroupSegments(segments: seq<DaySegment>) returns (segmentRows: map<int, seq<DaySegment>>)
    ensures Grouped(segments, segmentRows)
  {
    segmentRows := map[];
    for segmentI := 0 to |segments|
      invariant Grouped(segments[..segmentI], segmentRows)
    {
      var segment := segments[segmentI];
      var rowI := segment.row;
      ghost var before := segmentRows;
      if segment.rendered {
        if rowI in segmentRows {
          segmentRows := segmentRows[rowI := segmentRows[rowI] + [segment]];
        } else {
          segmentRows := segmentRows[rowI := [segment]];
        }
      }
      forall r: int
        ensures RowMembers(segments[..segmentI + 1], r) == if r in segmentRows then segmentRows[r] else []
      {
        NextMember(segments, segmentI, r);
        assert RowMembers(segments[..segmentI], r) == if r in before then before[r] else [];
      }
    }
    assert segments[..|segments|] == segments;
  }

  method BuildSegmentRows(segments: seq<DaySegment>, rowCnt: nat) returns (segmentRows: map<int, seq<DaySegment>>)
    ensures forall r :: 0 <= r < rowCnt ==> r in segmentRows && segmentRows[r] == SortedRow(segments, r)
  {
    segmentRows := GroupSegments(segments);
    ghost var grouped := segmentRows;
    for rowI := 0 to rowCnt
      invariant forall r :: 0 <= r < rowI ==> r in segmentRows && segmentRows[r] == SortedRow(segments, r)
      invariant forall r :: r >= rowI ==> (r in segmentRows <==> r in grouped)
      invariant forall r :: r >= rowI && r in segmentRows ==> segmentRows[r] == grouped[r]
    {
      var row := if rowI in segmentRows then segmentRows[rowI] else [];
      assert RowMembers(segments, rowI) == row;
      row := SortSegmentRow(row);
      segmentRows := segmentRows[rowI := row];
    }
  }

  lemma {:induction false} RowMembersAre(segments: seq<DaySegment>, r: int, s: DaySegment)
    ensures multiset(RowMembers(segments, r))[s] == if s.rendered && s.row == r then multiset(segments)[s] else 0
  {
    if segments != [] {
      RowMembersAre(segments[..|segments| - 1], r, s);
      SplitLast(segments);
    }
  }

  /** A row holds each rendered segment of the row as often as the input does, and nothing else. */
  lemma RowKeepsSegments(segments: seq<DaySegment>, r: int, s: DaySegment)
    ensures multiset(SortedRow(segments, r))[s] == if s.rendered && s.row == r then multiset(segments)[s] else 0
  {
    RowMembersAre(segments, r, s);
    BuildIsPermutation(ShareColumn, Sort(DayPrecedes, RowMembers(segments, r)));
  }

  /** No two segments of a subrow share a column. */
  lemma SubrowsCollisionFree(segments: seq<DaySegment>, k: nat, a: nat, b: nat)
    requires k < |Subrows(segments)| && a < |Subrows(segments)[k]| && b < |Subrows(segments)[k]| && a != b
    ensures !ShareColumn(Subrows(segments)[k][a], Subrows(segments)[k][b])
  {
    BuildCollisionFree(ShareColumn, Sort(DayPrecedes, segments));
    assert RowFree(ShareColumn, Subrows(segments)[k]);
  }

  // --- the order of a row ---

  function Width(s: DaySegment): int { s.rightCol - s.leftCol + 1 }

  /** Wider, or as wide and all-day unlike the other, or alike in that and earlier, or no later in the titles. */
  predicate GoesAhead(a: DaySegment, b: DaySegment) {
    || Width(a) > Width(b)
    || (Width(a) == Width(b) && a.allDay && !b.allDay)
    || (Width(a) == Width(b) && a.allDay == b.allDay
        && (a.start < b.start || (a.start == b.start && a.title <= b.title)))
  }

  lemma DayOrder(a: DaySegment, b: DaySegment)
    ensures !DayPrecedes(b, a) ==> GoesAhead(a, b)
  {
  }

  lemma DayPrecedesIsWeakOrder(segments: seq<DaySegment>)
    ensures WeakOrderOn(DayPrecedes, segments)
  {
  }

  lemma EarlierGoesAhead(segments: seq<DaySegment>, a: DaySegment, b: DaySegment)
    requires Earlier(Sort(DayPrecedes, segments), a, b)
    ensures GoesAhead(a, b)
  {
    hide DayPrecedes, GoesAhead;
    DayPrecedesIsWeakOrder(segments);
    SortSorted(DayPrecedes, segments);
    DayOrder(a, b);
  }

  /** A segment of a later subrow was turned away from each subrow before by a segment that shares a column with it and
      goes ahead of it. */
  lemma SubrowsTurnAway(segments: seq<DaySegment>, i: nat, k: nat, x: DaySegment) returns (o: DaySegment)
    requires i < k < |Subrows(segments)| && x in Subrows(segments)[k]
    ensures o in Subrows(segments)[i] && o.leftCol <= x.rightCol && x.leftCol <= o.rightCol && GoesAhead(o, x)
  {
    hide GoesAhead;
    BuildFirstFitted(ShareColumn, Sort(DayPrecedes, segments));
    assert TurnedAway(ShareColumn, Sort(DayPrecedes, segments), Subrows(segments)[i], x);
    o :| o in Subrows(segments)[i] && ShareColumn(x, o) && Earlier(Sort(DayPrecedes, segments), o, x);
    EarlierGoesAhead(segments, o, x);
  }

  /** Within a subrow, too, segments are in order. */
  lemma SubrowsInOrder(segments: seq<DaySegment>, k: nat, a: nat, b: nat)
    requires k < |Subrows(segments)| && a < b < |Subrows(segments)[k]|
    ensures GoesAhead(Subrows(segments)[k][a], Subrows(segments)[k][b])
  {
    hide GoesAhead;
    BuildInOrder(ShareColumn, Sort(DayPrecedes, segments));
    EarlierGoesAhead(segments, Subrows(segments)[k][a], Subrows(segments)[k][b]);
  }

  lemma ShareColumnIff(a: DaySegment, b: DaySegment)
    requires a.leftCol <= a.rightCol && b.leftCol <= b.rightCol
    ensures ShareColumn(a, b) <==> exists c :: Over(a, c) && Over(b, c)
  {
    if ShareColumn(a, b) {
      var c := if a.leftCol < b.leftCol then b.leftCol else a.leftCol;
      assert Over(a, c) && Over(b, c);
    }
  }

  // --- stacking ---

  function SeqMax(a: seq<real>): (m: real)
    requires a != []
    ensures forall i :: 0 <= i < |a| ==> a[i] <= m
    ensures exists i :: 0 <= i < |a| && a[i] == m
  {
    if |a| == 1 then a[0]
    else
      var rest := a[..|a| - 1];
      var m := SeqMax(rest);
      assert forall i :: 0 <= i < |rest| ==> rest[i] == a[i];
      if m < a[|a| - 1] then a[|a| - 1] else m
  }

  ghost predicate InGrid(row: seq<DaySegment>, colCnt: nat) {
    forall i :: 0 <= i < |row| ==> 0 <= row[i].leftCol <= row[i].rightCol < colCnt && row[i].outerHeight >= 0.0
  }

  predicate Over(s: DaySegment, c: int) {
    s.leftCol <= c <= s.rightCol
  }

  /** The columns of `s` raised to `b`. */
  function Raise(h: seq<real>, s: DaySegment, b: real): (r: seq<real>)
    ensures |r| == |h|
  {
    seq(|h|, c requires 0 <= c < |h| => if Over(s, c) then b else h[c])
  }

  /** The top of `s` on columns of these heights. */
  function Lean(h: seq<real>, s: DaySegment): (t: real)
    requires 0 <= s.leftCol <= s.rightCol < |h|
    ensures forall c :: 0 <= c < |h| && Over(s, c) ==> h[c] <= t
    ensures exists c :: 0 <= c < |h| && Over(s, c) && h[c] == t
  {
    var slice := h[s.leftCol..s.rightCol + 1];
    assert forall c :: s.leftCol <= c <= s.rightCol ==> h[c] == slice[c - s.leftCol];
    assert exists c :: 0 <= c < |h| && Over(s, c) && h[c] == SeqMax(slice) by {
      var k :| 0 <= k < |slice| && slice[k] == SeqMax(slice);
      assert Over(s, s.leftCol + k) && h[s.leftCol + k] == slice[k];
    }
    SeqMax(slice)
  }

  /** The tops of the segments so far and the running heights of the columns. */
  datatype Stack = Stack(tops: seq<real>, heights: seq<real>)

  /** One more segment stacked. */
  function Step(row: seq<DaySegment>, st: Stack): Stack
    requires InGrid(row, |st.heights|) && |st.tops| < |row|
  {
    var s := row[|st.tops|];
    var t := Lean(st.heights, s);
    Stack(st.tops + [t], Raise(st.heights, s, t + s.outerHeight))
  }

  /** The first `n` segments of the row stacked. */
  function Run(row: seq<DaySegment>, n: nat, colCnt: nat): (st: Stack)
    requires InGrid(row, colCnt) && n <= |row|
    ensures |st.tops| == n && |st.heights| == colCnt
  {
    if n == 0 then Stack([], seq(colCnt, _ => 0.0)) else Step(row, Run(row, n - 1, colCnt))
  }

  /** `h` is the greatest bottom over column `c`, 0 if there is none. */
  ghost predicate ColumnHeight(row: seq<DaySegment>, tops: seq<real>, c: int, h: real)
    requires |tops| <= |row|
  {
    && h >= 0.0
    && (forall i :: 0 <= i < |tops| && Over(row[i], c) ==> tops[i] + row[i].outerHeight <= h)
    && (h == 0.0 || exists i :: 0 <= i < |tops| && Over(row[i], c) && h == tops[i] + row[i].outerHeight)
  }

  /** `t` is the greatest bottom among the segments before the n-th that share a column with it;
      0 if there is none. */
  ghost predicate RestsOn(row: seq<DaySegment>, tops: seq<real>, n: nat, t: real)
    requires n < |row| && n <= |tops| <= |row|
  {
    && t >= 0.0
    && (forall i :: 0 <= i < n && ShareColumn(row[i], row[n]) ==> tops[i] + row[i].outerHeight <= t)
    && (t == 0.0 || exists i :: 0 <= i < n && ShareColumn(row[i], row[n]) && t == tops[i] + row[i].outerHeight)
  }

  ghost predicate HeightsRight(row: seq<DaySegment>, st: Stack)
    requires |st.tops| <= |row|
  {
    forall c :: 0 <= c < |st.heights| ==> ColumnHeight(row, st.tops, c, st.heights[c])
  }

  lemma LeanRests(row: seq<DaySegment>, st: Stack)
    requires InGrid(row, |st.heights|) && |st.tops| < |row| && HeightsRight(row, st)
    ensures RestsOn(row, st.tops, |st.tops|, Lean(st.heights, row[|st.tops|]))
  {
    var tops, h, s := st.tops, st.heights, row[|st.tops|];
    var t := Lean(h, s);
    forall i | 0 <= i < |tops| && ShareColumn(row[i], s) ensures tops[i] + row[i].outerHeight <= t {
      var c := if row[i].leftCol < s.leftCol then s.leftCol else row[i].leftCol;
      assert Over(row[i], c) && Over(s, c) && ColumnHeight(row, tops, c, h[c]);
    }
    var c :| 0 <= c < |h| && Over(s, c) && h[c] == t;
    assert ColumnHeight(row, tops, c, h[c]);
    if t != 0.0 {
      var i :| 0 <= i < |tops| && Over(row[i], c) && h[c] == tops[i] + row[i].outerHeight;
      assert ShareColumn(row[i], s);
    }
  }

  lemma RaisedHeight(row: seq<DaySegment>, tops: seq<real>, h: seq<real>, t: real, c: nat)
    requires InGrid(row, |h|) && |tops| < |row| && c < |h|
    requires ColumnHeight(row, tops, c, h[c]) && RestsOn(row, tops, |tops|, t)
    ensures ColumnHeight(row, tops + [t], c, Raise(h, row[|tops|], t + row[|tops|].outerHeight)[c])
  {
    var n, s := |tops|, row[|tops|];
    var r := tops + [t];
    assert forall i :: 0 <= i < n ==> r[i] == tops[i];
    if Over(s, c) {
      assert r[n] == t;
      forall i | 0 <= i < n && Over(row[i], c) ensures r[i] + row[i].outerHeight <= t + s.outerHeight {
        assert ShareColumn(row[i], s);
      }
    } else if h[c] != 0.0 {
      var i :| 0 <= i < n && Over(row[i], c) && h[c] == tops[i] + row[i].outerHeight;
      assert r[i] == tops[i];
    }
  }

  lemma StepSound(row: seq<DaySegment>, st: Stack)
    requires InGrid(row, |st.heights|) && |st.tops| < |row| && HeightsRight(row, st)
    ensures HeightsRight(row, Step(row, st))
  {
    LeanRests(row, st);
    var r := Step(row, st);
    forall c | 0 <= c < |r.heights| ensures ColumnHeight(row, r.tops, c, r.heights[c]) {
      assert ColumnHeight(row, st.tops, c, st.heights[c]);
      RaisedHeight(row, st.tops, st.heights, Lean(st.heights, row[|st.tops|]), c);
    }
  }

  /** The heights are the greatest bottoms. */
  lemma {:induction false} RunSound(row: seq<DaySegment>, n: nat, colCnt: nat)
    requires InGrid(row, colCnt) && n <= |row|
    ensures HeightsRight(row, Run(row, n, colCnt))
  {
    if n > 0 {
      RunSound(row, n - 1, colCnt);
      StepSound(row, Run(row, n - 1, colCnt));
    }
  }

  lemma {:induction false} RunPrefix(row: seq<DaySegment>, i: nat, n: nat, colCnt: nat)
    requires InGrid(row, colCnt) && i <= n <= |row|
    ensures Run(row, i, colCnt).tops <= Run(row, n, colCnt).tops
  {
    hide Run;
    if i < n {
      RunPrefix(row, i, n - 1, colCnt);
      var x := RunGrows(row, n, colCnt);
      PrefixOfAppend(Run(row, i, colCnt).tops, Run(row, n - 1, colCnt).tops, x);
    }
  }

  lemma RunGrows(row: seq<DaySegment>, n: nat, colCnt: nat) returns (x: real)
    requires InGrid(row, colCnt) && 0 < n <= |row|
    ensures Run(row, n, colCnt).tops == Run(row, n - 1, colCnt).tops + [x]
  {
    hide Lean, Raise;
    x := Lean(Run(row, n - 1, colCnt).heights, row[n - 1]);
  }

  lemma PrefixOfAppend(a: seq<real>, b: seq<real>, x: real)
    requires a <= b
    ensures a <= b + [x]
  {
  }

  /** The tops of the whole row. */
  function Tops(row: seq<DaySegment>, colCnt: nat): (tops: seq<real>)
    requires InGrid(row, colCnt)
    ensures |tops| == |row|
  {
    Run(row, |row|, colCnt).tops
  }

  /** Each segment's top is 0 or the bottom of a segment above it, and clears all of those. */
  lemma EveryTopRests(row: seq<DaySegment>, n: nat, colCnt: nat)
    requires InGrid(row, colCnt) && n < |row|
    ensures RestsOn(row, Tops(row, colCnt), n, Tops(row, colCnt)[n])
  {
    var st := Run(row, n, colCnt);
    RunSound(row, n, colCnt);
    LeanRests(row, st);
    RunPrefix(row, n + 1, |row|, colCnt);
    SamePrefix(row, st.tops, Lean(st.heights, row[n]), Tops(row, colCnt));
  }

  lemma SamePrefix(row: seq<DaySegment>, a: seq<real>, t: real, b: seq<real>)
    requires |a| < |b| <= |row| && a + [t] <= b && RestsOn(row, a, |a|, t)
    ensures RestsOn(row, b, |a|, b[|a|])
  {
    assert b[|a|] == (a + [t])[|a|] == t;
    assert forall i :: 0 <= i < |a| ==> b[i] == (a + [t])[i] == a[i];
  }

  /** Two segments of a row that share a column never overlap vertically. */
  lemma NoVerticalOverlap(row: seq<DaySegment>, i: nat, j: nat, colCnt: nat)
    requires InGrid(row, colCnt) && i < j < |row| && ShareColumn(row[i], row[j])
    ensures Tops(row, colCnt)[i] + row[i].outerHeight <= Tops(row, colCnt)[j]
  {
    EveryTopRests(row, j, colCnt);
  }

  /** The content height of a row is the greatest bottom in it, 0 when it is empty. */
  lemma RowHeight(row: seq<DaySegment>, colCnt: nat)
    requires InGrid(row, colCnt) && colCnt > 0
    ensures var m := SeqMax(Run(row, |row|, colCnt).heights);
      && (forall i :: 0 <= i < |row| ==> Tops(row, colCnt)[i] + row[i].outerHeight <= m)
      && (m == 0.0 || exists i :: 0 <= i < |row| && m == Tops(row, colCnt)[i] + row[i].outerHeight)
  {
    var st := Run(row, |row|, colCnt);
    RunSound(row, |row|, colCnt);
    forall i | 0 <= i < |row| ensures st.tops[i] + row[i].outerHeight <= SeqMax(st.heights) {
      var c := row[i].leftCol;
      assert Over(row[i], c) && ColumnHeight(row, st.tops, c, st.heights[c]);
    }
    var c :| 0 <= c < colCnt && st.heights[c] == SeqMax(st.heights);
    assert ColumnHeight(row, st.tops, c, st.heights[c]);
  }

  // --- the methods that assign the tops ---

  method RaiseColumns(colHeights: seq<real>, s: DaySegment, bottom: real) returns (r: seq<real>)
    requires 0 <= s.leftCol <= s.rightCol < |colHeights|
    ensures r == Raise(colHeights, s, bottom)
  {
    r := colHeights;
    for colI := s.leftCol to s.rightCol + 1
      invariant |r| == |colHeights|
      invariant forall c :: 0 <= c < |r| ==> r[c] == if s.leftCol <= c < colI then bottom else colHeights[c]
    {
      r := r[colI := bottom];
    }
  }

  ghost predicate TopsAre(row: seq<DaySegment>, tops: seq<real>)
    requires |tops| <= |row|
    reads (set s | s in row)`top
  {
    forall i :: 0 <= i < |tops| ==> row[i].top == tops[i]
  }

  /** The body of calculateVerticals for one row. */
  method StackRow(row: seq<DaySegment>, colCnt: nat) returns (colHeights: seq<real>)
    requires Distinct(row) && InGrid(row, colCnt)
    modifies (set s | s in row)`top
    ensures TopsAre(row, Tops(row, colCnt)) && colHeights == Run(row, |row|, colCnt).heights
  {
    colHeights := seq(colCnt, _ => 0.0);
    for n := 0 to |row|
      invariant TopsAre(row, Run(row, n, colCnt).tops) && colHeights == Run(row, n, colCnt).heights
    {
      colHeights := StackNext(row, row[n], colHeights, Run(row, n, colCnt));
    }
  }

  /** One segment: its top is the greatest height under it, its columns rise to its bottom. */
  method StackNext(ghost row: seq<DaySegment>, segment: DaySegment, colHeights: seq<real>, ghost st: Stack)
    returns (r: seq<real>)
    requires InGrid(row, |st.heights|) && |st.tops| < |row| && Distinct(row)
    requires segment == row[|st.tops|] && colHeights == st.heights && TopsAre(row, st.tops)
    modifies segment`top
    ensures TopsAre(row, Step(row, st).tops) && r == Step(row, st).heights
  {
    var t := Lean(colHeights, segment);
    SetTop(row, st.tops, segment, t);
    r := RaiseColumns(colHeights, segment, t + segment.outerHeight);
  }

  method SetTop(ghost row: seq<DaySegment>, ghost tops: seq<real>, segment: DaySegment, t: real)
    requires |tops| < |row| && Distinct(row) && segment == row[|tops|] && TopsAre(row, tops)
    modifies segment`top
    ensures TopsAre(row, tops + [t])
  {
    segment.top := t;
  }

  lemma RowOfDistinct(segments: seq<DaySegment>, r: int, colCnt: nat)
    requires Distinct(segments) && InGrid(segments, colCnt)
    ensures Distinct(SortedRow(segments, r)) && InGrid(SortedRow(segments, r), colCnt)
    ensures forall s :: s in SortedRow(segments, r) ==> s in segments && s.row == r
  {
    var row := SortedRow(segments, r);
    forall s | s in row ensures s in segments && s.row == r && multiset(row)[s] <= 1 {
      RowKeepsSegments(segments, r, s);
      assert s in multiset(row);
      DistinctOnce(segments, s);
    }
    forall a, b | 0 <= a < b < |row| ensures row[a] != row[b] { OnceDistinct(row, a, b); }
    forall i | 0 <= i < |row|
      ensures 0 <= row[i].leftCol <= row[i].rightCol < colCnt && row[i].outerHeight >= 0.0
    {
      assert row[i] in segments;
    }
  }

  /** The rows of the grid, as buildSegmentRows returns them. */
  function Rows(segments: seq<DaySegment>, rowCnt: nat): (rows: seq<seq<DaySegment>>)
    ensures |rows| == rowCnt && forall r :: 0 <= r < rowCnt ==> rows[r] == SortedRow(segments, r)
  {
    seq(rowCnt, r => SortedRow(segments, r))
  }

  /** Rows of distinct segments, no segment in two of them. */
  ghost predicate Separate(rows: seq<seq<DaySegment>>, colCnt: nat) {
    && (forall r :: 0 <= r < |rows| ==> Distinct(rows[r]) && InGrid(rows[r], colCnt))
    && (forall q, r, s :: 0 <= q < r < |rows| && s in rows[q] ==> s !in rows[r])
  }

  ghost function Members(rows: seq<seq<DaySegment>>): set<DaySegment> {
    set r, s | 0 <= r < |rows| && s in rows[r] :: s
  }

  lemma RowsSeparate(segments: seq<DaySegment>, rowCnt: nat, colCnt: nat)
    requires Distinct(segments) && InGrid(segments, colCnt)
    ensures Separate(Rows(segments, rowCnt), colCnt) && Members(Rows(segments, rowCnt)) <= set s | s in segments
  {
    var rows := Rows(segments, rowCnt);
    forall r | 0 <= r < rowCnt
      ensures Distinct(rows[r]) && InGrid(rows[r], colCnt)
      ensures forall s :: s in rows[r] ==> s in segments && s.row == r
    {
      RowOfDistinct(segments, r, colCnt);
    }
  }

  /** The segments of the row have their tops. */
  ghost predicate RowDone(row: seq<DaySegment>, colCnt: nat)
    reads (set s | s in row)`top
  {
    InGrid(row, colCnt) && TopsAre(row, Tops(row, colCnt))
  }

  /** So have those of the rows below `n`. */
  ghost predicate RowsDone(rows: seq<seq<DaySegment>>, n: nat, colCnt: nat)
    requires n <= |rows|
    reads Members(rows)`top
  {
    forall r :: 0 <= r < n ==> RowDone(rows[r], colCnt)
  }

  function RowContentHeight(row: seq<DaySegment>, colCnt: nat): real
    requires InGrid(row, colCnt) && colCnt > 0
  {
    SeqMax(Run(row, |row|, colCnt).heights)
  }

  method CalculateVerticals(segments: seq<DaySegment>, rowCnt: nat, colCnt: nat) returns (rowContentHeights: seq<real>)
    requires Distinct(segments) && InGrid(segments, colCnt) && colCnt > 0
    modifies (set s | s in segments)`top
    ensures RowsDone(Rows(segments, rowCnt), rowCnt, colCnt) && |rowContentHeights| == rowCnt
    ensures forall r :: 0 <= r < rowCnt ==> InGrid(SortedRow(segments, r), colCnt) &&
                                            rowContentHeights[r] == RowContentHeight(SortedRow(segments, r), colCnt)
  {
    RowsSeparate(segments, rowCnt, colCnt);
    var segmentRows := BuildSegmentRows(segments, rowCnt);
    var rows := seq(rowCnt, r requires 0 <= r < rowCnt => segmentRows[r]);
    assert rows == Rows(segments, rowCnt);
    rowContentHeights := StackRows(rows, colCnt);
  }

  method StackRows(rows: seq<seq<DaySegment>>, colCnt: nat) returns (rowContentHeights: seq<real>)
    requires Separate(rows, colCnt) && colCnt > 0
    modifies Members(rows)`top
    ensures RowsDone(rows, |rows|, colCnt) && |rowContentHeights| == |rows|
    ensures forall r :: 0 <= r < |rows| ==> rowContentHeights[r] == RowContentHeight(rows[r], colCnt)
  {
    hide RowDone, Run, SeqMax;
    rowContentHeights := [];
    for rowI := 0 to |rows|
      invariant RowsDone(rows, rowI, colCnt) && |rowContentHeights| == rowI
      invariant forall r :: 0 <= r < rowI ==> rowContentHeights[r] == RowContentHeight(rows[r], colCnt)
    {
      var height := StackOneRow(rows, rowI, rows[rowI], colCnt);
      rowContentHeights := rowContentHeights + [height];
    }
  }

  method StackOneRow(ghost rows: seq<seq<DaySegment>>, ghost r: nat, row: seq<DaySegment>, colCnt: nat)
    returns (height: real)
    requires Separate(rows, colCnt) && colCnt > 0 && r < |rows| && row == rows[r] && RowsDone(rows, r, colCnt)
    modifies (set s | s in row)`top
    ensures RowsDone(rows, r + 1, colCnt) && height == RowContentHeight(row, colCnt)
  {
    var colHeights := StackRow(row, colCnt);
    height := SeqMax(colHeights);
    forall q | 0 <= q < r ensures RowDone(rows[q], colCnt) {
      assert old(RowDone(rows[q], colCnt));
      assert forall s :: s in rows[q] ==> s !in row;
    }
  }

  lemma {:induction false} FlattenStart<T>(levels: seq<seq<T>>)
    requires levels != []
    ensures levels[0] <= Flatten(levels)
  {
    if |levels| > 1 {
      FlattenStart(levels[..|levels| - 1]);
    } else {
      assert Flatten(levels[..0]) == [];
    }
  }

  /** A segment that is wider than all others of its row lies at the top. */
  lemma WidestAtTop(segments: seq<DaySegment>, r: int, colCnt: nat, x: DaySegment) returns (n: nat)
    requires var row := RowMembers(segments, r);
      && x in row && Distinct(row) && (forall y :: y in row && y != x ==> Width(y) < Width(x))
      && InGrid(SortedRow(segments, r), colCnt)
    ensures n < |SortedRow(segments, r)| && SortedRow(segments, r)[n] == x
    ensures Tops(SortedRow(segments, r), colCnt)[n] == 0.0
  {
    var members := RowMembers(segments, r);
    var row, subrows := SortedRow(segments, r), Subrows(members);
    n := WidestInFirst(members, x);
    FlattenStart(subrows);
    EveryTopRests(row, n, colCnt);
    forall i | 0 <= i < n
      ensures !ShareColumn(row[i], row[n])
    {
      SubrowsCollisionFree(members, 0, i, n);
    }
  }

  lemma SubrowMember(members: seq<DaySegment>, i: nat, o: DaySegment)
    requires i < |Subrows(members)| && o in Subrows(members)[i]
    ensures o in members
  {
    BuildFirstFitted(ShareColumn, Sort(DayPrecedes, members));
    SortMembers(DayPrecedes, members, o);
  }

  lemma WidestInFirst(members: seq<DaySegment>, x: DaySegment) returns (n: nat)
    requires x in members && Distinct(members) && forall y :: y in members && y != x ==> Width(y) < Width(x)
    ensures Subrows(members) != [] && n < |Subrows(members)[0]| && Subrows(members)[0][n] == x
  {
    var sorted, subrows := Sort(DayPrecedes, members), Subrows(members);
    BuildIsPermutation(ShareColumn, sorted);
    FlattenMembers(subrows, x);
    assert x in multiset(members) && x in multiset(Flatten(subrows));
    var k :| 0 <= k < |subrows| && x in subrows[k];
    if k > 0 {
      var o := SubrowsTurnAway(members, 0, k, x);
      DistinctPermuted(members, sorted);
      if o == x {
        BuildDisjoint(ShareColumn, sorted, 0, k, x);
      } else {
        SubrowMember(members, 0, o);
      }
    }
    n :| 0 <= n < |subrows[0]| && subrows[0][n] == x;
  }
}
