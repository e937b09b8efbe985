/** From three levels on, colliding segments can overlap: a run of placeSlotSegs that does. */
module SlotOverlap {
  import opened Wrappers
  import opened FirstFit
  import opened Sequences
  import opened SlotSegs
  import opened SlotGraph
  import opened SlotCoords
  import opened SlotLevels
  import opened SlotExact
  import opened SlotLayout
  import opened SlotGuarantees
  import opened SliceSegs
  import StableSort

  function Start(i: nat): int {
    if i < 3 then 0 else if i == 3 then 30 else if i == 4 then 110 else 160
  }

  function End(i: nat): int {
    if i == 0 then 100 else if i < 3 then 10 else if i == 3 then 150 else if i == 4 then 200 else 170
  }

  /** Six segments in the order sliceSegs would put them. */
  ghost predicate Example(segs: seq<SlotSeg>) {
    && |segs| == 6 && Distinct(segs)
    && forall i :: 0 <= i < 6 ==> segs[i].start == Start(i) && segs[i].end == End(i)
  }

  /** Six timed events that show as these segments. */
  function ExampleEvents(): seq<TimedEvent> {
    seq(6, i requires 0 <= i < 6 => TimedEvent(Start(i), End(i), 0))
  }

  function ExamplePieces(n: nat): seq<Piece> {
    seq(n, i requires 0 <= i < n => Piece(i, Start(i), End(i), 0, true, true))
  }

  const DAY := 1440

  lemma {:induction false} ExampleCut(n: nat)
    requires n <= 6
    ensures Pieces(ExampleEvents(), n, 0, DAY) == ExamplePieces(n)
  {
    if n == 0 {
      assert ExamplePieces(0) == [];
    } else {
      ExampleCut(n - 1);
      assert ExamplePieces(n) == ExamplePieces(n - 1) + [Piece(n - 1, Start(n - 1), End(n - 1), 0, true, true)];
    }
  }

  lemma ExampleInOrder()
    ensures StableSort.Sorted(PiecePrecedes, ExamplePieces(6))
  {
  }

  lemma ExampleSliced()
    ensures Sliced(ExampleEvents(), 0, DAY) == ExamplePieces(6)
  {
    hide Pieces, StableSort.Sort, StableSort.Sorted, ExamplePieces;
    assert |ExampleEvents()| == 6;
    ExampleCut(6);
    ExampleInOrder();
    StableSort.SortOfSorted(PiecePrecedes, ExamplePieces(6));
  }

  lemma ExampleOf(segs: seq<SlotSeg>)
    requires PiecesOf(segs) == ExamplePieces(6) && Distinct(segs)
    ensures Example(segs)
  {
    hide Start, End;
    forall i | 0 <= i < 6
      ensures segs[i].start == Start(i) && segs[i].end == End(i)
    {
      assert PiecesOf(segs)[i] == ExamplePieces(6)[i];
    }
  }

  /** The level each of them gets. */
  function Level(i: nat): nat {
    if i == 0 || i == 4 then 0 else if i == 2 then 2 else 1
  }

  /** `x` is turned away from the levels of `hits` and fits into the next one. */
  lemma BuildNext(segs: seq<SlotSeg>, n: nat, levels: seq<seq<SlotSeg>>, hits: seq<SlotSeg>)
    requires n < |segs| && levels == Levels(segs[..n]) && |hits| <= |levels|
    requires |hits| < |levels| ==> forall o :: o in levels[|hits|] ==> !Hits(segs[n], o)
    requires forall i :: 0 <= i < |hits| ==> hits[i] in levels[i] && Hits(segs[n], hits[i])
    ensures Levels(segs[..n + 1]) == Append(levels, |hits|, segs[n])
  {
    assert segs[..n + 1][..n] == segs[..n];
  }

  lemma LevelsNone()
    ensures Levels([]) == []
  {
  }

  lemma ExampleTwo(segs: seq<SlotSeg>)
    requires Example(segs)
    ensures Levels(segs[..2]) == [[segs[0]], [segs[1]]]
  {
    hide Levels;
    LevelsNone();
    assert segs[..0] == [];
    BuildNext(segs, 0, [], []);
    BuildNext(segs, 1, [[segs[0]]], [segs[0]]);
  }

  lemma ExampleThree(segs: seq<SlotSeg>)
    requires Example(segs)
    ensures Levels(segs[..3]) == [[segs[0]], [segs[1]], [segs[2]]]
  {
    hide Levels;
    ExampleTwo(segs);
    BuildNext(segs, 2, [[segs[0]], [segs[1]]], [segs[0], segs[1]]);
  }

  lemma ExampleFour(segs: seq<SlotSeg>)
    requires Example(segs)
    ensures Levels(segs[..4]) == [[segs[0]], [segs[1], segs[3]], [segs[2]]]
  {
    hide Levels;
    ExampleThree(segs);
    BuildNext(segs, 3, [[segs[0]], [segs[1]], [segs[2]]], [segs[0]]);
    assert [segs[1]] + [segs[3]] == [segs[1], segs[3]];
    assert Append([[segs[0]], [segs[1]], [segs[2]]], 1, segs[3]) == [[segs[0]], [segs[1], segs[3]], [segs[2]]];
  }

  lemma ExampleFive(segs: seq<SlotSeg>)
    requires Example(segs)
    ensures Levels(segs[..5]) == [[segs[0], segs[4]], [segs[1], segs[3]], [segs[2]]]
  {
    hide Levels;
    ExampleFour(segs);
    var l4: seq<seq<SlotSeg>> := [[segs[0]], [segs[1], segs[3]], [segs[2]]];
    BuildNext(segs, 4, l4, []);
    assert [segs[0]] + [segs[4]] == [segs[0], segs[4]];
    assert Append(l4, 0, segs[4]) == [[segs[0], segs[4]], [segs[1], segs[3]], [segs[2]]];
  }

  lemma ExampleLevels(segs: seq<SlotSeg>)
    requires Example(segs)
    ensures Levels(segs) == [[segs[0], segs[4]], [segs[1], segs[3], segs[5]], [segs[2]]]
  {
    hide Levels;
    ExampleFive(segs);
    var l5: seq<seq<SlotSeg>> := [[segs[0], segs[4]], [segs[1], segs[3]], [segs[2]]];
    BuildNext(segs, 5, l5, [segs[4]]);
    assert [segs[1], segs[3]] + [segs[5]] == [segs[1], segs[3], segs[5]];
    assert Append(l5, 1, segs[5]) == [[segs[0], segs[4]], [segs[1], segs[3], segs[5]], [segs[2]]];
    assert segs[..6] == segs;
  }

  /** Which of them lies ahead of which. */
  predicate Edge(i: nat, j: nat) {
    (i == 0 && 1 <= j <= 3) || (i == 1 && j == 2) || (i == 4 && (j == 3 || j == 5))
  }

  /** The collisions of the example, as a graph. */
  ghost predicate ExampleGraph(g: Dag, segs: seq<SlotSeg>) {
    && |segs| == 6 && Distinct(segs)
    && (forall i :: 0 <= i < 6 ==> segs[i] in g.fwd)
    && (forall s :: s in g.fwd ==> s in segs)
    && forall i, j :: 0 <= i < 6 && 0 <= j < 6 ==> (segs[j] in g.fwd[segs[i]] <==> Edge(i, j))
  }

  lemma ExampleLevel(segs: seq<SlotSeg>, i: nat)
    requires Example(segs) && i < 6
    ensures CollisionGraph(segs).level[segs[i]] == Level(i)
  {
    ExampleLevels(segs);
    LevelsShape(segs);
    LevelIs(Levels(segs), segs[i], Level(i));
  }

  lemma ExampleHits(segs: seq<SlotSeg>, i: nat, j: nat)
    requires Example(segs) && i < 6 && j < 6
    ensures Hits(segs[i], segs[j]) && Level(j) > Level(i) <==> Edge(i, j)
  {
  }

  lemma ExampleEdge(segs: seq<SlotSeg>, i: nat, j: nat)
    requires Example(segs) && i < 6 && j < 6
    ensures segs[j] in CollisionGraph(segs).fwd[segs[i]] <==> Edge(i, j)
  {
    hide CollisionGraph, Edge, Hits, Level, Start, End;
    ExampleLevel(segs, i);
    ExampleLevel(segs, j);
    GraphForward(segs, segs[i], segs[j]);
    ExampleHits(segs, i, j);
  }

  lemma ExampleIsGraph(segs: seq<SlotSeg>)
    requires Example(segs)
    ensures ExampleGraph(CollisionGraph(segs), segs)
  {
    hide CollisionGraph, Edge, Start, End;
    forall i, j | 0 <= i < 6 && 0 <= j < 6
      ensures segs[j] in CollisionGraph(segs).fwd[segs[i]] <==> Edge(i, j)
    {
      ExampleEdge(segs, i, j);
    }
  }

  // --- the coordinates, step by step ---

  lemma PlaceLeaf(g: Dag, s: SlotSeg, p: nat, c: real, m: Memo)
    requires s in g.fwd && g.fwd[s] == [] && s !in m
    ensures Place(g, s, p, c, m) == Settle(s, 1.0, p, c, m)
  {
  }

  /** The forward segments already placed stay put; the one leaf left starts at `c`. */
  lemma {:induction false} PlaceEachLeaf(g: Dag, s: SlotSeg, fs: seq<SlotSeg>, c: real, m: Memo, z: SlotSeg)
    requires s in g.fwd && Above(g, s, fs) && z in g.fwd && g.fwd[z] == [] && z !in m
    requires forall f :: f in fs ==> f in m || f == z
    ensures PlaceEach(g, s, fs, c, m) == if z in fs then m[z := Coord(c, 1.0)] else m
  {
    if fs != [] {
      var n := |fs| - 1;
      assert fs[n] in fs;
      PlaceEachLeaf(g, s, fs[..n], c, m, z);
      if z !in fs[..n] && fs[n] == z { PlaceLeaf(g, z, 0, c, m); }
    }
  }

  lemma NoEdges(g: Dag, segs: seq<SlotSeg>, i: nat)
    requires ExampleGraph(g, segs) && i < 6 && forall j: nat :: j < 6 ==> !Edge(i, j)
    ensures g.fwd[segs[i]] == []
  {
    var fs := g.fwd[segs[i]];
    if fs != [] {
      var j := EdgeTo(g, segs, i, fs[0]);
    }
  }

  /** Every forward segment is one an edge leads to. */
  lemma EdgeTo(g: Dag, segs: seq<SlotSeg>, i: nat, f: SlotSeg) returns (j: nat)
    requires ExampleGraph(g, segs) && i < 6 && f in g.fwd[segs[i]]
    ensures j < 6 && f == segs[j] && Edge(i, j)
  {
    assert f in segs;
    j :| j < |segs| && segs[j] == f;
  }

  /** The second segment of the three-series at time 0: one third to two thirds. */
  lemma PlaceSecond(g: Dag, segs: seq<SlotSeg>)
    requires ExampleGraph(g, segs)
    ensures Place(g, segs[1], 1, 0.0, map[]) ==
            map[segs[2] := Coord(2.0 / 3.0, 1.0), segs[1] := Coord(1.0 / 3.0, 2.0 / 3.0)]
  {
    var fs := Ordered(g, segs[1], map[]);
    NoEdges(g, segs, 2);
    assert segs[2] in g.fwd[segs[1]];
    OrderedMembers(g, segs[1], map[], segs[2]);
    forall f | f in fs ensures f == segs[2] {
      OrderedMembers(g, segs[1], map[], f);
      var j := EdgeTo(g, segs, 1, f);
    }
    assert fs[0] in fs;
    PlaceLeaf(g, segs[2], 2, 0.0, map[]);
    var m1 := Place(g, segs[2], 2, 0.0, map[]);
    PlaceEachDone(g, segs[1], fs, 2.0 / 3.0, Settle(segs[1], 2.0 / 3.0, 1, 0.0, m1));
  }

  lemma StrongestOfFirst(g: Dag, segs: seq<SlotSeg>)
    requires ExampleGraph(g, segs)
    ensures var fs := Ordered(g, segs[0], map[]); fs != [] && fs[0] == segs[1]
  {
    var fs := Ordered(g, segs[0], map[]);
    assert segs[1] in g.fwd[segs[0]];
    OrderedFirst(g, segs[0], map[], segs[1]);
    var j := EdgeTo(g, segs, 0, fs[0]);
    NoEdges(g, segs, 2);
    NoEdges(g, segs, 3);
    PressureStep(g, segs[1]);
    assert segs[2] in g.fwd[segs[1]];
  }

  /** After the first two, only segment 3 is left to visit. */
  lemma OthersOfFirst(g: Dag, segs: seq<SlotSeg>, fs: seq<SlotSeg>, m: Memo)
    requires ExampleGraph(g, segs) && fs == Ordered(g, segs[0], map[]) && segs[1] in m && segs[2] in m
    ensures segs[3] in fs && forall f :: f in fs ==> f in m || f == segs[3]
  {
    forall f | f in fs ensures f in m || f == segs[3] {
      OrderedMembers(g, segs[0], map[], f);
      var j := EdgeTo(g, segs, 0, f);
    }
    OrderedMembers(g, segs[0], map[], segs[3]);
  }

  /** The first segment, and with it segment 3, which is left one third to the far edge. */
  lemma PlaceFirst(g: Dag, segs: seq<SlotSeg>)
    requires ExampleGraph(g, segs)
    ensures Place(g, segs[0], 0, 0.0, map[]) == map[
      segs[2] := Coord(2.0 / 3.0, 1.0), segs[1] := Coord(1.0 / 3.0, 2.0 / 3.0),
      segs[0] := Coord(0.0, 1.0 / 3.0), segs[3] := Coord(1.0 / 3.0, 1.0)]
  {
    var fs := Ordered(g, segs[0], map[]);
    StrongestOfFirst(g, segs);
    PlaceSecond(g, segs);
    var m1: Memo := map[segs[2] := Coord(2.0 / 3.0, 1.0), segs[1] := Coord(1.0 / 3.0, 2.0 / 3.0)];
    var m2 := Settle(segs[0], 1.0 / 3.0, 0, 0.0, m1);
    NoEdges(g, segs, 3);
    OthersOfFirst(g, segs, fs, m2);
    PlaceEachLeaf(g, segs[0], fs, 1.0 / 3.0, m2, segs[3]);
    assert Place(g, segs[0], 0, 0.0, map[]) == m2[segs[3] := Coord(1.0 / 3.0, 1.0)];
  }

  /** Segment 4 relies on the unplaced segment 5, not on segment 3. */
  lemma PlaceFifth(g: Dag, segs: seq<SlotSeg>, m: Memo)
    requires ExampleGraph(g, segs)
    requires segs[3] in m && m[segs[3]] == Coord(1.0 / 3.0, 1.0) && segs[4] !in m && segs[5] !in m
    ensures Place(g, segs[4], 0, 0.0, m)[segs[4]] == Coord(0.0, 1.0 / 2.0)
  {
    var fs := Ordered(g, segs[4], m);
    assert segs[5] in g.fwd[segs[4]];
    OrderedFirst(g, segs[4], m, segs[5]);
    var j := EdgeTo(g, segs, 4, fs[0]);
    NoEdges(g, segs, 3);
    NoEdges(g, segs, 5);
    assert fs[0] == segs[5];
    PlaceLeaf(g, segs[5], 1, 0.0, m);
  }

  lemma LayoutTwo(g: Dag, a: SlotSeg, b: SlotSeg)
    requires a in g.fwd && b in g.fwd
    ensures Layout(g, [a, b]) == Place(g, b, 0, 0.0, Place(g, a, 0, 0.0, map[]))
  {
    assert [a, b][..1] == [a];
    LayoutOne(g, a);
  }

  lemma ExampleLayout(g: Dag, segs: seq<SlotSeg>)
    requires ExampleGraph(g, segs)
    ensures var m := Layout(g, [segs[0], segs[4]]);
      segs[3] in m && m[segs[3]] == Coord(1.0 / 3.0, 1.0) && segs[4] in m && m[segs[4]] == Coord(0.0, 1.0 / 2.0)
  {
    PlaceFirst(g, segs);
    var m := Place(g, segs[0], 0, 0.0, map[]);
    PlaceFifth(g, segs, m);
    LayoutTwo(g, segs[0], segs[4]);
    assert Extends(m, Place(g, segs[4], 0, 0.0, m));
  }

  /** Three levels are enough for two colliding segments to overlap: [0, 1/2] and [1/3, 1]. */
  lemma ThreeLevelsOverlap(segs: seq<SlotSeg>)
    requires Example(segs)
    ensures |Levels(segs)| == 3 && Hits(segs[3], segs[4])
    ensures LayoutOf(segs)[segs[3]] == Coord(1.0 / 3.0, 1.0) && LayoutOf(segs)[segs[4]] == Coord(0.0, 1.0 / 2.0)
  {
    ExampleIsGraph(segs);
    ExampleLevels(segs);
    LayoutUnfold(segs);
    ExampleLayout(CollisionGraph(segs), segs);
  }

  /** A day with six events on which two colliding segments come out overlapping. */
  method OverlappingDay() returns (segs: seq<SlotSeg>)
    ensures Example(segs) && Hits(segs[3], segs[4])
    ensures segs[3].backwardCoord == Some(1.0 / 3.0) && segs[3].forwardCoord == Some(1.0)
    ensures segs[4].backwardCoord == Some(0.0) && segs[4].forwardCoord == Some(1.0 / 2.0)
  {
    var r;
    r, segs := CompileColumn(ExampleEvents(), 0, DAY);
    ExampleSliced();
    ExampleOf(segs);
    ThreeLevelsOverlap(segs);
    ShownAt(segs, 3);
    ShownAt(segs, 4);
  }

  lemma ShownAt(segs: seq<SlotSeg>, i: nat)
    requires Distinct(segs) && i < |segs|
    requires forall s :: s in segs ==> Shows(s, Pressure(CollisionGraph(segs), s), LayoutOf(segs)[s])
    ensures segs[i].backwardCoord == Some(LayoutOf(segs)[segs[i]].backward)
    ensures segs[i].forwardCoord == Some(LayoutOf(segs)[segs[i]].forward)
  {
    assert segs[i] in segs;
  }

  /** No two colliding segments overlap. */
  ghost predicate OverlapFree(segs: seq<SlotSeg>)
    requires Distinct(segs)
  {
    forall a, b :: a in segs && b in segs && a != b && Hits(a, b) ==> Apart(LayoutOf(segs)[a], LayoutOf(segs)[b])
  }

  /** What placeSlotSegs is called with. */
  ghost predicate Admissible(segs: seq<SlotSeg>) {
    Distinct(segs) && StartOrdered(segs) && Proper(segs)
  }

  lemma TwoLevelsOverlapFree(segs: seq<SlotSeg>)
    requires Admissible(segs) && |Levels(segs)| <= 2
    ensures OverlapFree(segs)
  {
    forall a, b | a in segs && b in segs && a != b && Hits(a, b)
      ensures Apart(LayoutOf(segs)[a], LayoutOf(segs)[b])
    {
      ApartUpToTwoLevels(segs, a, b);
    }
  }

  lemma ExampleOverlaps(segs: seq<SlotSeg>)
    requires Example(segs)
    ensures Distinct(segs) && |Levels(segs)| == 3 && !OverlapFree(segs)
  {
    ThreeLevelsOverlap(segs);
    assert !Apart(LayoutOf(segs)[segs[3]], LayoutOf(segs)[segs[4]]);
  }

  lemma ExampleAdmissible(segs: seq<SlotSeg>)
    requires Example(segs)
    ensures Admissible(segs)
  {
  }

  /** Freedom from overlap is guaranteed up to two levels and no further. */
  lemma OverlapFreeIffTwoLevels(limit: nat, example: seq<SlotSeg>)
    requires Example(example)
    ensures (forall segs :: Admissible(segs) && |Levels(segs)| <= limit ==> OverlapFree(segs)) <==> limit <= 2
  {
    forall segs | limit <= 2 && Admissible(segs) && |Levels(segs)| <= limit ensures OverlapFree(segs) {
      TwoLevelsOverlapFree(segs);
    }
    ExampleOverlaps(example);
    ExampleAdmissible(example);
  }
}
