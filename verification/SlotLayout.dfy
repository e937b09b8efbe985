/** The agenda layout as it runs: methods that fill in the fields of the segments. */
module SlotLayout {
  import opened Wrappers
  import opened FirstFit
  import opened Sequences
  import opened SlotSegs
  import opened SlotGraph
  import opened SlotCoords
  import opened SlotLevels
  import opened SlotTheorems

  method ComputeSlotSegCollisions(seg: SlotSeg, otherSegs: seq<SlotSeg>, results: seq<SlotSeg> := [])
    returns (r: seq<SlotSeg>)
    ensures r == results + Collisions(Hits, seg, otherSegs)
  {
    r := results;
    for i := 0 to |otherSegs|
      invariant r == results + Collisions(Hits, seg, otherSegs[..i])
    {
      assert otherSegs[..i + 1][..i] == otherSegs[..i];
      if Hits(seg, otherSegs[i]) {
        r := r + [otherSegs[i]];
      }
    }
    assert otherSegs[..|otherSegs|] == otherSegs;
  }

  method BuildSlotSegLevels(segs: seq<SlotSeg>) returns (levels: seq<seq<SlotSeg>>)
    ensures levels == Levels(segs)
  {
    hide Build;
    BuildNone(Hits);
    levels := [];
    for i := 0 to |segs|
      invariant levels == Levels(segs[..i])
    {
      var seg := segs[i];
      var j := 0;
      while j < |levels|
        invariant j <= |levels|
        invariant FittingLevel(Hits, seg, levels, 0) == FittingLevel(Hits, seg, levels, j)
      {
        var collisions := ComputeSlotSegCollisions(seg, levels[j]);
        if |collisions| == 0 { break; }
        j := j + 1;
      }
      assert segs[..i + 1] == segs[..i] + [seg];
      BuildAppend(Hits, segs[..i], seg);
      if j < |levels| {
        levels := levels[j := levels[j] + [seg]];
      } else {
        levels := levels + [[seg]];
      }
    }
    assert segs[..|segs|] == segs;
  }

  // --- the collision graph ---

  ghost predicate Linked(g: Dag)
    reads g.fwd.Keys`forwardSegs
  {
    forall s :: s in g.fwd ==> s.forwardSegs == g.fwd[s]
  }

  ghost predicate LevelLinked(levels: seq<seq<SlotSeg>>, i: nat, row: seq<SlotSeg>)
    reads row
  {
    forall s :: s in row ==> s.forwardSegs == ForwardUpTo(levels, s, i + 1, |levels|)
  }

  /** The levels below `n` have been searched. */
  ghost predicate LinkedBelow(levels: seq<seq<SlotSeg>>, n: nat)
    requires n <= |levels| && Disjoint(levels)
    reads GraphOf(levels).fwd.Keys
  {
    forall k :: 0 <= k < n ==> LevelLinked(levels, k, levels[k])
  }

  method ComputeForwardSlotSegs(levels: seq<seq<SlotSeg>>)
    requires Disjoint(levels)
    modifies GraphOf(levels).fwd.Keys`forwardSegs
    ensures Linked(GraphOf(levels))
  {
    for i := 0 to |levels|
      invariant LinkedBelow(levels, i)
    {
      LinkLevel(levels, i);
    }
    AllLinked(levels);
  }

  lemma AllLinked(levels: seq<seq<SlotSeg>>)
    requires Disjoint(levels) && LinkedBelow(levels, |levels|)
    ensures Linked(GraphOf(levels))
  {
    var g := GraphOf(levels);
    forall s | s in g.fwd ensures s.forwardSegs == g.fwd[s] {
      var k := LevelOf(levels, s);
      assert LevelLinked(levels, k, levels[k]);
    }
  }

  method LinkLevel(levels: seq<seq<SlotSeg>>, i: nat)
    requires i < |levels| && Disjoint(levels) && LinkedBelow(levels, i)
    modifies (set s | s in levels[i])`forwardSegs
    ensures LinkedBelow(levels, i + 1)
  {
    hide ForwardUpTo, GraphOf;
    for j := 0 to |levels[i]|
      invariant forall l :: 0 <= l < j ==>
                  levels[i][l].forwardSegs == ForwardUpTo(levels, levels[i][l], i + 1, |levels|)
    {
      var forwardSegs := CollectForward(levels, levels[i][j], i + 1);
      levels[i][j].forwardSegs := forwardSegs;
    }
    forall k | 0 <= k < i ensures LevelLinked(levels, k, levels[k]) {
      assert old(LevelLinked(levels, k, levels[k]));
      assert forall s :: s in levels[k] ==> s !in levels[i];
    }
  }

  method CollectForward(levels: seq<seq<SlotSeg>>, seg: SlotSeg, lo: nat) returns (forwardSegs: seq<SlotSeg>)
    requires lo <= |levels|
    ensures forwardSegs == ForwardUpTo(levels, seg, lo, |levels|)
  {
    forwardSegs := [];
    for k := lo to |levels|
      invariant forwardSegs == ForwardUpTo(levels, seg, lo, k)
    {
      forwardSegs := ComputeSlotSegCollisions(seg, levels[k], forwardSegs);
    }
  }

  method FlattenSlotSegLevels(levels: seq<seq<SlotSeg>>) returns (segs: seq<SlotSeg>)
    ensures segs == Flatten(levels)
  {
    segs := [];
    for i := 0 to |levels|
      invariant segs == Flatten(levels[..i])
    {
      ghost var before := segs;
      for j := 0 to |levels[i]|
        invariant segs == before + levels[i][..j]
      {
        segs := segs + [levels[i][j]];
      }
      assert levels[..i + 1][..i] == levels[..i];
      assert levels[i][..|levels[i]|] == levels[i];
    }
    assert levels[..|levels|] == levels;
  }

  // --- pressures ---

  /** The pressures computed so far. */
  ghost function Pressures(g: Dag): map<SlotSeg, nat>
    reads g.fwd.Keys`forwardPressure
  {
    map s | s in g.fwd && s.forwardPressure.Some? :: s.forwardPressure.value
  }

  /** Pressures in `m` are right, and closed under forward segments. */
  ghost predicate PressuresRight(g: Dag, m: map<SlotSeg, nat>) {
    forall s :: s in m ==> s in g.fwd && m[s] == Pressure(g, s) && forall f :: f in g.fwd[s] ==> f in m
  }

  lemma PressureAdded(g: Dag, m: map<SlotSeg, nat>, s: SlotSeg)
    requires s in g.fwd && PressuresRight(g, m) && AllIn(g.fwd[s], |g.fwd[s]|, m)
    ensures PressuresRight(g, m[s := Pressure(g, s)])
  {
  }

  ghost predicate AllIn(fs: seq<SlotSeg>, n: nat, m: map<SlotSeg, nat>)
    requires n <= |fs|
  {
    forall k :: 0 <= k < n ==> fs[k] in m.Keys
  }

  lemma AllInNext(fs: seq<SlotSeg>, n: nat, m: map<SlotSeg, nat>, r: map<SlotSeg, nat>)
    requires n < |fs| && AllIn(fs, n, m) && m.Keys <= r.Keys && fs[n] in r.Keys
    ensures AllIn(fs, n + 1, r)
  {
  }

  lemma NextPressure(g: Dag, s: SlotSeg, fs: seq<SlotSeg>, i: nat)
    requires s in g.fwd && Above(g, s, fs) && i < |fs|
    ensures fs[i] in g.fwd && g.level[fs[i]] > g.level[s]
    ensures PressureOver(g, s, fs[..i + 1]) == Max(PressureOver(g, s, fs[..i]), 1 + Pressure(g, fs[i]))
  {
    assert fs[i] in fs;
    assert fs[..i + 1][..i] == fs[..i];
  }

  lemma NoPressure(g: Dag, s: SlotSeg)
    requires s in g.fwd
    ensures PressureOver(g, s, []) == 0
  {
  }

  lemma PressureIs(g: Dag, s: SlotSeg)
    requires s in g.fwd
    ensures Pressure(g, s) == PressureOver(g, s, g.fwd[s])
  {
  }

  method ComputeSlotSegPressures(ghost g: Dag, seg: SlotSeg)
    requires seg in g.fwd && Linked(g) && PressuresRight(g, Pressures(g))
    modifies g.fwd.Keys`forwardPressure
    ensures PressuresRight(g, Pressures(g)) && seg.forwardPressure == Some(Pressure(g, seg))
    ensures seg in Pressures(g).Keys && old(Pressures(g)).Keys <= Pressures(g).Keys
    decreases g.height - g.level[seg]
  {
    hide Pressure, PressureOver;
    NoPressure(g, seg);
    PressureIs(g, seg);
    var forwardSegs := seg.forwardSegs;
    var forwardPressure := 0;
    if seg.forwardPressure.None? {
      for i := 0 to |forwardSegs|
        invariant forwardPressure == PressureOver(g, seg, forwardSegs[..i])
        invariant PressuresRight(g, Pressures(g))
        invariant old(Pressures(g)).Keys <= Pressures(g).Keys
        invariant AllIn(forwardSegs, i, Pressures(g))
      {
        var forwardSeg := forwardSegs[i];
        NextPressure(g, seg, forwardSegs, i);
        ghost var before := Pressures(g);
        ComputeSlotSegPressures(g, forwardSeg);
        AllInNext(forwardSegs, i, before, Pressures(g));
        forwardPressure := Max(forwardPressure, 1 + forwardSeg.forwardPressure.value);
      }
      assert forwardSegs[..|forwardSegs|] == forwardSegs;
      PressureAdded(g, Pressures(g), seg);
      SetPressure(g, seg, forwardPressure);
    }
  }

  method SetPressure(ghost g: Dag, seg: SlotSeg, forwardPressure: nat)
    requires seg in g.fwd
    modifies seg`forwardPressure
    ensures seg.forwardPressure == Some(forwardPressure)
    ensures Pressures(g) == old(Pressures(g))[seg := forwardPressure]
  {
    seg.forwardPressure := Some(forwardPressure);
  }

  // --- coordinates ---

  /** The coordinates computed so far. */
  ghost function Coords(g: Dag): Memo
    reads g.fwd.Keys`forwardCoord, g.fwd.Keys`backwardCoord
  {
    map s | s in g.fwd && s.forwardCoord.Some? && s.backwardCoord.Some? ::
      Coord(s.backwardCoord.value, s.forwardCoord.value)
  }

  ghost predicate ReadySeg(g: Dag, s: SlotSeg)
    requires s in g.fwd
    reads s
  {
    && s.forwardPressure == Some(Pressure(g, s))
    && (s.forwardCoord.Some? <==> s.backwardCoord.Some?)
    && (s.forwardCoord.None? ==> s.forwardSegs == g.fwd[s])
  }

  /** From level `l` on, pressures are known and unvisited segments have not been sorted. */
  ghost predicate Ready(g: Dag, l: nat)
    reads g.fwd.Keys
  {
    forall s :: s in g.fwd && g.level[s] >= l ==> ReadySeg(g, s)
  }

  ghost function From(g: Dag, l: nat): set<SlotSeg> {
    set s | s in g.fwd && g.level[s] >= l
  }

  method ComputeSlotSegCoords(ghost g: Dag, seg: SlotSeg, seriesBackwardPressure: nat, seriesBackwardCoord: real)
    requires seg in g.fwd && ReadySeg(g, seg) && Ready(g, g.level[seg] + 1)
    modifies seg, From(g, g.level[seg] + 1)
    ensures ReadySeg(g, seg) && Ready(g, g.level[seg] + 1)
    ensures Coords(g) == Place(g, seg, seriesBackwardPressure, seriesBackwardCoord, old(Coords(g)))
    decreases g.height - g.level[seg], 2
  {
    if seg.forwardCoord.None? {
      var forwardCoord := FindForwardCoord(g, seg, seriesBackwardPressure, seriesBackwardCoord);
      SetCoords(g, seg, forwardCoord, seriesBackwardPressure, seriesBackwardCoord);
      ghost var m := Coords(g);
      VisitForwardSegs(g, seg, seg.forwardSegs, forwardCoord);
      assert Coords(g) == PlaceEach(g, seg, seg.forwardSegs, forwardCoord, m);
    }
  }

  /** Where `seg` ends: the far edge, or the coordinate its strongest forward segment gets as
      the next of the series. */
  method FindForwardCoord(ghost g: Dag, seg: SlotSeg, p: nat, c: real) returns (forwardCoord: real)
    requires seg in g.fwd && ReadySeg(g, seg) && Ready(g, g.level[seg] + 1) && seg.forwardCoord.None?
    modifies seg`forwardSegs
    modifies From(g, g.level[seg] + 1)
    ensures Ready(g, g.level[seg] + 1)
    ensures var fs := seg.forwardSegs; var m := old(Coords(g));
      && fs == Ordered(g, seg, m)
      && if fs == [] then forwardCoord == 1.0 && Coords(g) == m
         else Coords(g) == Place(g, fs[0], p + 1, c, m) && forwardCoord == Coords(g)[fs[0]].backward
    decreases g.height - g.level[seg], 1
  {
    hide Place, Ordered, Pressure;
    forwardCoord := 1.0;
    SortForwardSegs(g, seg);
    if |seg.forwardSegs| > 0 {
      var first := seg.forwardSegs[0];
      assert first in seg.forwardSegs;
      ComputeSlotSegCoords(g, first, p + 1, c);
      forwardCoord := first.backwardCoord.value;
    }
  }

  /** The last loop: the less pressurized forward segments start where this one ends. */
  method VisitForwardSegs(ghost g: Dag, ghost seg: SlotSeg, forwardSegs: seq<SlotSeg>, forwardCoord: real)
    requires seg in g.fwd && Above(g, seg, forwardSegs) && Ready(g, g.level[seg] + 1)
    modifies From(g, g.level[seg] + 1)
    ensures Ready(g, g.level[seg] + 1)
    ensures Coords(g) == PlaceEach(g, seg, forwardSegs, forwardCoord, old(Coords(g)))
    decreases g.height - g.level[seg], 0
  {
    hide Place, PlaceEach, Pressure;
    PlaceEachNone(g, seg, forwardCoord, Coords(g));
    assert forwardSegs[..0] == [];
    for i := 0 to |forwardSegs|
      invariant Ready(g, g.level[seg] + 1)
      invariant Coords(g) == PlaceEach(g, seg, forwardSegs[..i], forwardCoord, old(Coords(g)))
    {
      NextPlace(g, seg, forwardSegs, i, forwardCoord, old(Coords(g)));
      ComputeSlotSegCoords(g, forwardSegs[i], 0, forwardCoord);
    }
    assert forwardSegs[..|forwardSegs|] == forwardSegs;
  }

  lemma NextPlace(g: Dag, s: SlotSeg, fs: seq<SlotSeg>, i: nat, c: real, m: Memo)
    requires s in g.fwd && Above(g, s, fs) && i < |fs|
    ensures fs[i] in g.fwd && g.level[fs[i]] > g.level[s]
    ensures PlaceEach(g, s, fs[..i + 1], c, m) == Place(g, fs[i], 0, c, PlaceEach(g, s, fs[..i], c, m))
  {
    assert fs[i] in fs;
    assert fs[..i + 1][..i] == fs[..i];
  }

  function ForwardKey(s: SlotSeg): Key
    requires s.forwardPressure.Some?
    reads s
  {
    Key(s.forwardPressure.value, if s.backwardCoord.Some? then s.backwardCoord.value else 0.0)
  }

  method SortForwardSegs(ghost g: Dag, seg: SlotSeg)
    requires seg in g.fwd && ReadySeg(g, seg) && Ready(g, g.level[seg] + 1) && seg.forwardCoord.None?
    modifies seg`forwardSegs
    ensures seg.forwardSegs == Ordered(g, seg, Coords(g)) && Coords(g) == old(Coords(g))
  {
    KeysAgree(g, seg);
    ghost var m := Coords(g);
    var keys := map f | f in seg.forwardSegs :: ForwardKey(f);
    assert keys == Keys(g, seg, m);
    seg.forwardSegs := SortForward(keys, seg.forwardSegs);
    assert Coords(g) == m;
  }

  lemma KeysAgree(g: Dag, seg: SlotSeg)
    requires seg in g.fwd && Ready(g, g.level[seg] + 1)
    ensures forall f :: f in g.fwd[seg] ==> f.forwardPressure.Some?
    ensures (map f | f in g.fwd[seg] :: ForwardKey(f)) == Keys(g, seg, Coords(g))
  {
    assert forall f :: f in g.fwd[seg] ==> ReadySeg(g, f);
  }

  method SetCoords(ghost g: Dag, seg: SlotSeg, forwardCoord: real, p: nat, c: real)
    requires seg in g.fwd && seg.forwardPressure == Some(Pressure(g, seg))
    modifies seg`forwardCoord, seg`backwardCoord
    ensures ReadySeg(g, seg)
    ensures Coords(g) == Settle(seg, forwardCoord, p, c, old(Coords(g)))
  {
    seg.forwardCoord := Some(forwardCoord);
    seg.backwardCoord := Some(Back(forwardCoord, p, c));
  }

  // --- the whole layout ---

  method ComputeRootPressures(ghost g: Dag, level0: seq<SlotSeg>)
    requires (forall s :: s in level0 ==> s in g.fwd) && Linked(g) && PressuresRight(g, Pressures(g))
    modifies g.fwd.Keys`forwardPressure
    ensures PressuresRight(g, Pressures(g)) && AllIn(level0, |level0|, Pressures(g))
  {
    for i := 0 to |level0|
      invariant PressuresRight(g, Pressures(g))
      invariant AllIn(level0, i, Pressures(g))
    {
      ghost var before := Pressures(g);
      ComputeSlotSegPressures(g, level0[i]);
      AllInNext(level0, i, before, Pressures(g));
    }
  }

  method ComputeRootCoords(ghost g: Dag, level0: seq<SlotSeg>)
    requires (forall s :: s in level0 ==> s in g.fwd && g.level[s] == 0) && Ready(g, 0) && Coords(g) == map[]
    modifies g.fwd.Keys
    ensures Ready(g, 0) && Coords(g) == Layout(g, level0)
  {
    for i := 0 to |level0|
      invariant Ready(g, 0) && Coords(g) == Layout(g, level0[..i])
    {
      NextRoot(g, level0, i);
      PlaceRoot(g, level0[i]);
    }
    assert level0[..|level0|] == level0;
  }

  method PlaceRoot(ghost g: Dag, seg: SlotSeg)
    requires seg in g.fwd && g.level[seg] == 0 && Ready(g, 0)
    modifies g.fwd.Keys
    ensures Ready(g, 0) && Coords(g) == Place(g, seg, 0, 0.0, old(Coords(g)))
  {
    assert ReadySeg(g, seg);
    ComputeSlotSegCoords(g, seg, 0, 0.0);
  }

  lemma NextRoot(g: Dag, roots: seq<SlotSeg>, i: nat)
    requires (forall s :: s in roots ==> s in g.fwd) && i < |roots|
    ensures Layout(g, roots[..i + 1]) == Place(g, roots[i], 0, 0.0, Layout(g, roots[..i]))
  {
    assert roots[..i + 1][..i] == roots[..i];
  }

  ghost predicate Untouched(s: SlotSeg)
    reads s`forwardPressure, s`forwardCoord, s`backwardCoord
  {
    s.forwardPressure.None? && s.forwardCoord.None? && s.backwardCoord.None?
  }

  /** The fields of `s` hold pressure `p` and coordinates `k`. */
  ghost predicate Shows(s: SlotSeg, p: nat, k: Coord)
    reads s
  {
    s.forwardPressure == Some(p) && s.forwardCoord == Some(k.forward) && s.backwardCoord == Some(k.backward)
  }

  /** The two loops over level 0. */
  method WeighAndPlace(ghost g: Dag, level0: seq<SlotSeg>)
    requires Rooted(g, level0) && Linked(g) && forall s :: s in g.fwd ==> Untouched(s)
    modifies g.fwd.Keys
    ensures forall s :: s in g.fwd ==> s in Layout(g, level0) && Shows(s, Pressure(g, s), Layout(g, level0)[s])
  {
    ComputeRootPressures(g, level0);
    AllReady(g, level0);
    ComputeRootCoords(g, level0);
    LayoutTotal(g, level0);
    forall s | s in g.fwd ensures Shows(s, Pressure(g, s), Layout(g, level0)[s]) {
      assert ReadySeg(g, s);
      assert s in Coords(g);
    }
  }

  lemma AllReady(g: Dag, roots: seq<SlotSeg>)
    requires Rooted(g, roots) && Linked(g)
    requires forall s :: s in g.fwd ==> s.forwardCoord.None? && s.backwardCoord.None?
    requires PressuresRight(g, Pressures(g)) && AllIn(roots, |roots|, Pressures(g))
    ensures Ready(g, 0) && Coords(g) == map[]
  {
    forall s | s in g.fwd ensures ReadySeg(g, s) { Reached(g, roots, Pressures(g).Keys, s); }
  }

  /** The coordinates of distinct segments. */
  ghost function LayoutOf(segs: seq<SlotSeg>): (m: Memo)
    requires Distinct(segs)
    ensures forall s :: s in segs ==> s in m
    ensures forall s :: s in m ==> s in segs
  {
    GraphRooted(segs);
    LayoutTotal(CollisionGraph(segs), LevelZero(Levels(segs)));
    Layout(CollisionGraph(segs), LevelZero(Levels(segs)))
  }

  method PlaceSlotSegs(segs: seq<SlotSeg>) returns (r: seq<SlotSeg>)
    requires Distinct(segs) && forall s :: s in segs ==> Untouched(s)
    modifies set s | s in segs
    ensures r == Flatten(Levels(segs))
    ensures forall s :: s in segs ==> Shows(s, Pressure(CollisionGraph(segs), s), LayoutOf(segs)[s])
  {
    var levels := BuildSlotSegLevels(segs);
    GraphFacts(segs);
    LinkAndPlace(levels, CollisionGraph(segs));
    r := FlattenSlotSegLevels(levels);
  }

  method LinkAndPlace(levels: seq<seq<SlotSeg>>, ghost g: Dag)
    requires Disjoint(levels) && g == GraphOf(levels) && Rooted(g, LevelZero(levels))
    requires forall s :: s in g.fwd ==> Untouched(s)
    modifies g.fwd.Keys
    ensures forall s :: s in g.fwd ==> s in Layout(g, LevelZero(levels)) &&
                                       Shows(s, Pressure(g, s), Layout(g, LevelZero(levels))[s])
  {
    LinkBlank(levels, g);
    WeighAndPlace(g, LevelZero(levels));
  }

  method LinkBlank(levels: seq<seq<SlotSeg>>, ghost g: Dag)
    requires Disjoint(levels) && g == GraphOf(levels)
    requires forall s :: s in g.fwd ==> Untouched(s)
    modifies g.fwd.Keys`forwardSegs
    ensures Linked(g) && forall s :: s in g.fwd ==> Untouched(s)
  {
    ComputeForwardSlotSegs(levels);
  }

  /** What PlaceSlotSegs needs to know about the graph of its segments. */
  lemma GraphFacts(segs: seq<SlotSeg>)
    requires Distinct(segs)
    ensures var g := CollisionGraph(segs);
      Disjoint(Levels(segs)) && g == GraphOf(Levels(segs)) && Rooted(g, LevelZero(Levels(segs)))
  {
    LevelsShape(segs);
    GraphRooted(segs);
  }
}
