/** Segments that collide with nothing outside their group are laid out as if they were alone in the column. */
module SlotGroups {
  import opened FirstFit
  import opened Sequences
  import opened SlotSegs
  import opened SlotGraph
  import opened SlotCoords
  import opened SlotLevels
  import opened SlotLayout
  import opened SlotGuarantees

  /** The members of `xs` that belong to `c`, in order. */
  function Restrict<T(==)>(xs: seq<T>, c: set<T>): (r: seq<T>)
    ensures forall x :: x in r ==> x in xs && x in c
    ensures forall x :: x in xs && x in c ==> x in r
  {
    if xs == [] then []
    else
      var n := |xs| - 1;
      Restrict(xs[..n], c) + if xs[n] in c then [xs[n]] else []
  }

  lemma RestrictAppend<T>(xs: seq<T>, x: T, c: set<T>)
    ensures Restrict(xs + [x], c) == if x in c then Restrict(xs, c) + [x] else Restrict(xs, c)
  {
    assert (xs + [x])[..|xs|] == xs;
  }

  lemma RestrictNone<T>(c: set<T>)
    ensures Restrict([], c) == []
  {
  }

  lemma {:induction false} RestrictConcat<T>(a: seq<T>, b: seq<T>, c: set<T>)
    ensures Restrict(a + b, c) == Restrict(a, c) + Restrict(b, c)
  {
    hide Restrict;
    RestrictNone(c);
    if b == [] {
      assert a + b == a;
    } else {
      var front, x := b[..|b| - 1], b[|b| - 1];
      assert b == front + [x] && a + b == (a + front) + [x];
      RestrictConcat(a, front, c);
      RestrictAppend(a + front, x, c);
      RestrictAppend(front, x, c);
    }
  }

  lemma {:induction false} RestrictDistinct<T>(xs: seq<T>, c: set<T>)
    requires Distinct(xs)
    ensures Distinct(Restrict(xs, c))
  {
    if xs != [] {
      var n := |xs| - 1;
      RestrictDistinct(xs[..n], c);
      assert xs[n] !in xs[..n];
    }
  }

  // --- the levels of a group ---

  /** No member of the group hits a member outside it, or is hit by one. */
  ghost predicate Closed<T>(hit: (T, T) -> bool, xs: seq<T>, c: set<T>) {
    forall a, b :: a in xs && b in xs && a in c && b !in c ==> !hit(a, b) && !hit(b, a)
  }

  /** `part` are the levels of the group within `levels`: beyond them no level holds a member. */
  ghost predicate LevelsOfGroup<T>(levels: seq<seq<T>>, part: seq<seq<T>>, c: set<T>) {
    && |part| <= |levels|
    && (forall j :: 0 <= j < |part| ==> Restrict(levels[j], c) == part[j])
    && (forall j :: |part| <= j < |levels| ==> Restrict(levels[j], c) == [])
  }

  lemma {:induction false} NoCollisions<T>(hit: (T, T) -> bool, x: T, others: seq<T>)
    requires forall o :: o in others ==> !hit(x, o)
    ensures Collisions(hit, x, others) == []
  {
    if others != [] {
      NoCollisions(hit, x, others[..|others| - 1]);
    }
  }

  ghost predicate HitsSome<T>(hit: (T, T) -> bool, x: T, level: seq<T>) {
    exists o :: o in level && hit(x, o)
  }

  /** The fitting level is the only one without a hit whose predecessors are all hit. */
  lemma {:induction false} FittingLevelIs<T>(hit: (T, T) -> bool, x: T, levels: seq<seq<T>>, j: nat, k: nat)
    requires j <= k <= |levels| && (k < |levels| ==> forall o :: o in levels[k] ==> !hit(x, o))
    requires forall i :: j <= i < k ==> HitsSome(hit, x, levels[i])
    ensures FittingLevel(hit, x, levels, j) == k
    decreases k - j
  {
    if j < k {
      assert HitsSome(hit, x, levels[j]);
      var o :| o in levels[j] && hit(x, o);
      assert o in Collisions(hit, x, levels[j]);
      FittingLevelIs(hit, x, levels, j + 1, k);
    } else if k < |levels| {
      NoCollisions(hit, x, levels[k]);
    }
  }

  /** Looking for a level, a member of the group sees only the group. */
  lemma FittingLevelInGroup<T>(hit: (T, T) -> bool, x: T, levels: seq<seq<T>>, part: seq<seq<T>>, c: set<T>)
    requires LevelsOfGroup(levels, part, c)
    requires forall j, o :: 0 <= j < |levels| && o in levels[j] && o !in c ==> !hit(x, o)
    ensures FittingLevel(hit, x, levels, 0) == FittingLevel(hit, x, part, 0)
  {
    var k := FittingLevel(hit, x, part, 0);
    forall i | 0 <= i < k
      ensures HitsSome(hit, x, levels[i])
    {
      var o :| o in part[i] && hit(x, o);
      assert o in Restrict(levels[i], c);
    }
    if k < |levels| {
      forall o | o in levels[k]
        ensures !hit(x, o)
      {
        if o in c {
          assert o in Restrict(levels[k], c);
        }
      }
    }
    FittingLevelIs(hit, x, levels, 0, k);
  }

  /** Level `j`, empty beyond the last. */
  function LevelAt<T>(levels: seq<seq<T>>, j: nat): seq<T> {
    if j < |levels| then levels[j] else []
  }

  lemma AppendAt<T>(levels: seq<seq<T>>, k: nat, x: T)
    requires k <= |levels|
    ensures |Append(levels, k, x)| == if k < |levels| then |levels| else k + 1
    ensures forall j: nat ::
      LevelAt(Append(levels, k, x), j) == if j == k then LevelAt(levels, k) + [x] else LevelAt(levels, j)
  {
    assert [] + [x] == [x];
  }

  lemma GroupLevels<T>(levels: seq<seq<T>>, part: seq<seq<T>>, c: set<T>)
    ensures LevelsOfGroup(levels, part, c) <==>
      |part| <= |levels| && forall j: nat :: Restrict(LevelAt(levels, j), c) == LevelAt(part, j)
  {
    hide Restrict;
    RestrictNone(c);
    if |part| <= |levels| && forall j: nat :: Restrict(LevelAt(levels, j), c) == LevelAt(part, j) {
      forall j | 0 <= j < |levels|
        ensures Restrict(levels[j], c) == if j < |part| then part[j] else []
      {
        assert Restrict(LevelAt(levels, j), c) == LevelAt(part, j);
      }
    }
  }

  lemma AppendMember<T>(levels: seq<seq<T>>, part: seq<seq<T>>, c: set<T>, k: nat, x: T)
    requires LevelsOfGroup(levels, part, c) && k <= |part| && x in c
    ensures LevelsOfGroup(Append(levels, k, x), Append(part, k, x), c)
  {
    hide Restrict, Append, LevelAt, LevelsOfGroup;
    GroupLevels(levels, part, c);
    GroupLevels(Append(levels, k, x), Append(part, k, x), c);
    AppendAt(levels, k, x);
    AppendAt(part, k, x);
    RestrictAppend(LevelAt(levels, k), x, c);
  }

  lemma AppendStranger<T>(levels: seq<seq<T>>, part: seq<seq<T>>, c: set<T>, k: nat, x: T)
    requires LevelsOfGroup(levels, part, c) && k <= |levels| && x !in c
    ensures LevelsOfGroup(Append(levels, k, x), part, c)
  {
    hide Restrict, Append, LevelAt, LevelsOfGroup;
    GroupLevels(levels, part, c);
    GroupLevels(Append(levels, k, x), part, c);
    AppendAt(levels, k, x);
    RestrictAppend(LevelAt(levels, k), x, c);
  }

  /** First fit gives the members of a group the levels they have alone. */
  lemma {:induction false} BuildRestricts<T>(hit: (T, T) -> bool, xs: seq<T>, c: set<T>)
    requires Closed(hit, xs, c)
    ensures LevelsOfGroup(Build(hit, xs), Build(hit, Restrict(xs, c)), c)
  {
    if xs != [] {
      var front, x := xs[..|xs| - 1], xs[|xs| - 1];
      assert xs == front + [x];
      RestrictAppend(front, x, c);
      BuildRestricts(hit, front, c);
      var levels, part := Build(hit, front), Build(hit, Restrict(front, c));
      if x in c {
        BuildFirstFitted(hit, front);
        FittingLevelInGroup(hit, x, levels, part, c);
        AppendMember(levels, part, c, FittingLevel(hit, x, part, 0), x);
        BuildAppend(hit, Restrict(front, c), x);
      } else {
        AppendStranger(levels, part, c, FittingLevel(hit, x, levels, 0), x);
      }
    }
  }

  // --- the graph of a group ---

  /** `h` is the part of `g` on the group, and no edge of `g` enters or leaves the group. */
  ghost predicate PartOf(g: Dag, h: Dag, c: set<SlotSeg>) {
    && (forall s :: s in h.fwd ==> s in c && s in g.fwd && g.fwd[s] == h.fwd[s])
    && (forall s :: s in g.fwd && s in c ==> s in h.fwd)
    && (forall s, f :: s in g.fwd && s !in c && f in g.fwd[s] ==> f !in c)
  }

  lemma {:induction false} PressureAlone(g: Dag, h: Dag, c: set<SlotSeg>, s: SlotSeg)
    requires PartOf(g, h, c) && s in h.fwd
    ensures Pressure(g, s) == Pressure(h, s)
    decreases h.height - h.level[s], 1, 0
  {
    PressureOverAlone(g, h, c, s, h.fwd[s]);
  }

  lemma {:induction false} PressureOverAlone(g: Dag, h: Dag, c: set<SlotSeg>, s: SlotSeg, fs: seq<SlotSeg>)
    requires PartOf(g, h, c) && s in h.fwd && Above(g, s, fs) && Above(h, s, fs)
    ensures PressureOver(g, s, fs) == PressureOver(h, s, fs)
    decreases h.height - h.level[s], 0, |fs|
  {
    if fs != [] {
      var n := |fs| - 1;
      assert fs[n] in fs;
      PressureOverAlone(g, h, c, s, fs[..n]);
      PressureAlone(g, h, c, fs[n]);
    }
  }

  // --- the coordinates of a group ---

  /** Both tables say the same about the group. */
  ghost predicate Agree(m: Memo, n: Memo, c: set<SlotSeg>) {
    forall t :: t in c ==> (t in m <==> t in n) && (t in m ==> m[t] == n[t])
  }

  lemma OrderedAlone(g: Dag, h: Dag, c: set<SlotSeg>, s: SlotSeg, m: Memo, n: Memo)
    requires PartOf(g, h, c) && s in h.fwd && Agree(m, n, c)
    ensures Ordered(g, s, m) == Ordered(h, s, n)
  {
    hide Pressure, SortForward;
    forall f | f in g.fwd[s]
      ensures Pressure(g, f) == Pressure(h, f) && f in c
    {
      PressureAlone(g, h, c, f);
    }
    assert Keys(g, s, m) == Keys(h, s, n);
  }

  lemma SettleAgree(s: SlotSeg, f: real, p: nat, b: real, m: Memo, n: Memo, c: set<SlotSeg>)
    requires Agree(m, n, c)
    ensures Agree(Settle(s, f, p, b, m), Settle(s, f, p, b, n), c)
  {
  }

  lemma {:induction false} PlaceAlone(g: Dag, h: Dag, c: set<SlotSeg>, s: SlotSeg, p: nat, b: real, m: Memo, n: Memo)
    requires PartOf(g, h, c) && s in h.fwd && Agree(m, n, c)
    ensures Agree(Place(g, s, p, b, m), Place(h, s, p, b, n), c)
    decreases h.height - h.level[s], 2, 0
  {
    hide Place, PlaceSeries, Settle, Ordered;
    PlaceUnfold(g, s, p, b, m);
    PlaceUnfold(h, s, p, b, n);
    if s !in m {
      OrderedAlone(g, h, c, s, m, n);
      SettleAgree(s, 1.0, p, b, m, n, c);
      if Ordered(h, s, n) != [] {
        PlaceSeriesAlone(g, h, c, s, Ordered(h, s, n), p, b, m, n);
      }
    }
  }

  lemma {:induction false} PlaceSeriesAlone(g: Dag, h: Dag, c: set<SlotSeg>, s: SlotSeg, fs: seq<SlotSeg>, p: nat,
                                            b: real, m: Memo, n: Memo)
    requires PartOf(g, h, c) && s in h.fwd && Above(g, s, fs) && Above(h, s, fs) && Agree(m, n, c)
    requires fs != [] && s !in m && s !in n
    ensures Agree(PlaceSeries(g, s, fs, p, b, m), PlaceSeries(h, s, fs, p, b, n), c)
    decreases h.height - h.level[s], 1, 0
  {
    hide Place, PlaceSeries, PlaceEach, Settle;
    PlaceSeriesUnfold(g, s, fs, p, b, m);
    PlaceSeriesUnfold(h, s, fs, p, b, n);
    var first := fs[0];
    PlaceAlone(g, h, c, first, p + 1, b, m, n);
    var m1, n1 := Place(g, first, p + 1, b, m), Place(h, first, p + 1, b, n);
    var f := n1[first].backward;
    SettleAgree(s, f, p, b, m1, n1, c);
    PlaceEachAlone(g, h, c, s, fs, f, Settle(s, f, p, b, m1), Settle(s, f, p, b, n1));
  }

  lemma {:induction false} PlaceEachAlone(g: Dag, h: Dag, c: set<SlotSeg>, s: SlotSeg, fs: seq<SlotSeg>, b: real,
                                          m: Memo, n: Memo)
    requires PartOf(g, h, c) && s in h.fwd && Above(g, s, fs) && Above(h, s, fs) && Agree(m, n, c)
    ensures Agree(PlaceEach(g, s, fs, b, m), PlaceEach(h, s, fs, b, n), c)
    decreases h.height - h.level[s], 0, |fs|
  {
    hide Place, PlaceEach;
    if fs == [] {
      PlaceEachNone(g, s, b, m);
      PlaceEachNone(h, s, b, n);
    } else {
      var k := |fs| - 1;
      PlaceEachUnfold(g, s, fs, b, m);
      PlaceEachUnfold(h, s, fs, b, n);
      PlaceEachAlone(g, h, c, s, fs[..k], b, m, n);
      PlaceAlone(g, h, c, fs[k], 0, b, PlaceEach(g, s, fs[..k], b, m), PlaceEach(h, s, fs[..k], b, n));
    }
  }

  /** The segments of `fs` are none of the group's. */
  ghost predicate Outside(fs: seq<SlotSeg>, c: set<SlotSeg>) {
    forall f :: f in fs ==> f !in c
  }

  lemma OrderedOutside(g: Dag, h: Dag, c: set<SlotSeg>, s: SlotSeg, m: Memo)
    requires PartOf(g, h, c) && s in g.fwd && s !in c
    ensures Outside(Ordered(g, s, m), c)
  {
    forall f | f in Ordered(g, s, m)
      ensures f !in c
    {
      OrderedMembers(g, s, m, f);
    }
  }

  lemma SettleOutside(s: SlotSeg, f: real, p: nat, b: real, m: Memo, n: Memo, c: set<SlotSeg>)
    requires Agree(m, n, c) && s !in c
    ensures Agree(Settle(s, f, p, b, m), n, c)
  {
  }

  /** Placing a segment outside the group changes nothing in it. */
  lemma {:induction false} PlaceStranger(g: Dag, h: Dag, c: set<SlotSeg>, s: SlotSeg, p: nat, b: real, m: Memo)
    requires PartOf(g, h, c) && s in g.fwd && s !in c
    ensures Agree(Place(g, s, p, b, m), m, c)
    decreases g.height - g.level[s], 2, 0
  {
    hide Place, PlaceSeries, Settle, Ordered;
    PlaceUnfold(g, s, p, b, m);
    if s !in m {
      OrderedOutside(g, h, c, s, m);
      SettleOutside(s, 1.0, p, b, m, m, c);
      if Ordered(g, s, m) != [] {
        PlaceSeriesStranger(g, h, c, s, Ordered(g, s, m), p, b, m);
      }
    }
  }

  lemma {:induction false} PlaceSeriesStranger(g: Dag, h: Dag, c: set<SlotSeg>, s: SlotSeg, fs: seq<SlotSeg>, p: nat,
                                               b: real, m: Memo)
    requires PartOf(g, h, c) && s in g.fwd && s !in c && Above(g, s, fs) && Outside(fs, c)
    requires fs != [] && s !in m
    ensures Agree(PlaceSeries(g, s, fs, p, b, m), m, c)
    decreases g.height - g.level[s], 1, 0
  {
    hide Place, PlaceSeries, PlaceEach, Settle;
    PlaceSeriesUnfold(g, s, fs, p, b, m);
    var first := fs[0];
    PlaceStranger(g, h, c, first, p + 1, b, m);
    var m1 := Place(g, first, p + 1, b, m);
    var f := m1[first].backward;
    SettleOutside(s, f, p, b, m1, m, c);
    PlaceEachStranger(g, h, c, s, fs, f, Settle(s, f, p, b, m1));
  }

  lemma {:induction false} PlaceEachStranger(g: Dag, h: Dag, c: set<SlotSeg>, s: SlotSeg, fs: seq<SlotSeg>, b: real,
                                             m: Memo)
    requires PartOf(g, h, c) && s in g.fwd && Above(g, s, fs) && Outside(fs, c)
    ensures Agree(PlaceEach(g, s, fs, b, m), m, c)
    decreases g.height - g.level[s], 0, |fs|
  {
    hide Place, PlaceEach;
    if fs == [] {
      PlaceEachNone(g, s, b, m);
    } else {
      var k := |fs| - 1;
      PlaceEachUnfold(g, s, fs, b, m);
      PlaceEachStranger(g, h, c, s, fs[..k], b, m);
      PlaceStranger(g, h, c, fs[k], 0, b, PlaceEach(g, s, fs[..k], b, m));
    }
  }

  lemma LayoutAppend(g: Dag, roots: seq<SlotSeg>, s: SlotSeg)
    requires s in g.fwd && forall r :: r in roots ==> r in g.fwd
    ensures (forall r :: r in roots + [s] ==> r in g.fwd)
    ensures Layout(g, roots + [s]) == Place(g, s, 0, 0.0, Layout(g, roots))
  {
    assert (roots + [s])[..|roots|] == roots;
    hide Place;
  }

  lemma LayoutNone(g: Dag)
    ensures Layout(g, []) == map[]
  {
  }

  lemma {:induction false} LayoutAlone(g: Dag, h: Dag, c: set<SlotSeg>, roots: seq<SlotSeg>)
    requires PartOf(g, h, c) && forall s :: s in roots ==> s in g.fwd
    ensures Agree(Layout(g, roots), Layout(h, Restrict(roots, c)), c)
  {
    hide Layout, Place, Restrict;
    RestrictNone(c);
    if roots == [] {
      LayoutNone(g);
      LayoutNone(h);
    } else {
      var front, s := roots[..|roots| - 1], roots[|roots| - 1];
      assert roots == front + [s];
      LayoutAlone(g, h, c, front);
      LayoutAppend(g, front, s);
      RestrictAppend(front, s, c);
      if s in c {
        LayoutAppend(h, Restrict(front, c), s);
        PlaceAlone(g, h, c, s, 0, 0.0, Layout(g, front), Layout(h, Restrict(front, c)));
      } else {
        PlaceStranger(g, h, c, s, 0, 0.0, Layout(g, front));
      }
    }
  }

  // --- the group within the column ---

  lemma {:induction false} CollisionsRestrict(s: SlotSeg, others: seq<SlotSeg>, c: set<SlotSeg>)
    requires forall o :: o in others && o !in c ==> !Hits(s, o)
    ensures Collisions(Hits, s, others) == Collisions(Hits, s, Restrict(others, c))
  {
    if others != [] {
      var front, x := others[..|others| - 1], others[|others| - 1];
      assert others == front + [x];
      CollisionsRestrict(s, front, c);
      RestrictAppend(front, x, c);
      CollisionsAppend(s, front, x);
      CollisionsAppend(s, Restrict(front, c), x);
    }
  }

  lemma CollisionsAppend(s: SlotSeg, others: seq<SlotSeg>, x: SlotSeg)
    ensures Collisions(Hits, s, others + [x]) ==
      if Hits(s, x) then Collisions(Hits, s, others) + [x] else Collisions(Hits, s, others)
  {
    assert (others + [x])[..|others|] == others;
  }

  lemma ForwardUpToUnfold(levels: seq<seq<SlotSeg>>, s: SlotSeg, lo: nat, hi: nat)
    requires lo < hi <= |levels|
    ensures ForwardUpTo(levels, s, lo, hi) ==
      ForwardUpTo(levels, s, lo, hi - 1) + Collisions(Hits, s, levels[hi - 1])
  {
    hide Collisions;
  }

  lemma ForwardUpToNone(levels: seq<seq<SlotSeg>>, s: SlotSeg, lo: nat, hi: nat)
    requires hi <= lo && hi <= |levels|
    ensures ForwardUpTo(levels, s, lo, hi) == []
  {
  }

  lemma {:induction false} ForwardAlone(levels: seq<seq<SlotSeg>>, part: seq<seq<SlotSeg>>, c: set<SlotSeg>, s: SlotSeg,
                                        lo: nat, hi: nat)
    requires LevelsOfGroup(levels, part, c) && hi <= |levels|
    requires forall j, o :: 0 <= j < |levels| && o in levels[j] && o !in c ==> !Hits(s, o)
    ensures ForwardUpTo(levels, s, lo, hi) == ForwardUpTo(part, s, lo, if hi <= |part| then hi else |part|)
  {
    hide ForwardUpTo, Restrict, Collisions, Hits;
    if hi <= lo {
      ForwardUpToNone(levels, s, lo, hi);
      ForwardUpToNone(part, s, lo, if hi <= |part| then hi else |part|);
    } else {
      ForwardAlone(levels, part, c, s, lo, hi - 1);
      ForwardUpToUnfold(levels, s, lo, hi);
      CollisionsRestrict(s, levels[hi - 1], c);
      if hi <= |part| {
        ForwardUpToUnfold(part, s, lo, hi);
      } else {
        assert Collisions(Hits, s, levels[hi - 1]) == [] by { CollisionsNone(s); }
      }
    }
  }

  lemma CollisionsNone(s: SlotSeg)
    ensures Collisions(Hits, s, []) == []
  {
  }

  lemma StrangersMiss(segs: seq<SlotSeg>, c: set<SlotSeg>, s: SlotSeg)
    requires Closed(Hits, segs, c) && s in segs && s in c
    ensures forall j, o :: 0 <= j < |Levels(segs)| && o in Levels(segs)[j] && o !in c ==> !Hits(s, o)
  {
    BuildFirstFitted(Hits, segs);
  }

  lemma LevelAlone(levels: seq<seq<SlotSeg>>, part: seq<seq<SlotSeg>>, c: set<SlotSeg>, s: SlotSeg)
    requires LevelsOfGroup(levels, part, c) && Disjoint(levels) && Placed(part, s)
    ensures Placed(levels, s) && LevelOf(levels, s) == LevelOf(part, s)
  {
    hide Restrict;
    var i := LevelOf(part, s);
    assert s in Restrict(levels[i], c);
    LevelIs(levels, s, i);
  }

  lemma GraphIs(segs: seq<SlotSeg>, s: SlotSeg)
    requires Distinct(segs) && s in segs
    ensures Placed(Levels(segs), s) && Disjoint(Levels(segs))
    ensures CollisionGraph(segs).fwd[s] == Forward(Levels(segs), s)
  {
    hide Levels, Forward;
    LevelsShape(segs);
  }

  lemma ForwardInGroup(levels: seq<seq<SlotSeg>>, part: seq<seq<SlotSeg>>, c: set<SlotSeg>, s: SlotSeg)
    requires LevelsOfGroup(levels, part, c) && Disjoint(levels) && Placed(part, s)
    requires forall j, o :: 0 <= j < |levels| && o in levels[j] && o !in c ==> !Hits(s, o)
    ensures Placed(levels, s) && Forward(levels, s) == Forward(part, s)
  {
    hide Restrict, ForwardUpTo, Hits;
    LevelAlone(levels, part, c, s);
    ForwardAlone(levels, part, c, s, LevelOf(levels, s) + 1, |levels|);
  }

  /** A member of the group has its level and its forward segments from the group alone. */
  lemma MemberAlone(segs: seq<SlotSeg>, c: set<SlotSeg>, s: SlotSeg)
    requires Distinct(segs) && Closed(Hits, segs, c) && s in segs && s in c
    requires Distinct(Restrict(segs, c)) && LevelsOfGroup(Levels(segs), Levels(Restrict(segs, c)), c)
    ensures CollisionGraph(segs).fwd[s] == CollisionGraph(Restrict(segs, c)).fwd[s]
  {
    hide Restrict, Levels, CollisionGraph, Forward, LevelsOfGroup, Placed, Disjoint, Hits, Closed, Distinct;
    GraphIs(segs, s);
    GraphIs(Restrict(segs, c), s);
    StrangersMiss(segs, c, s);
    ForwardInGroup(Levels(segs), Levels(Restrict(segs, c)), c, s);
  }

  lemma LevelsRestrict(segs: seq<SlotSeg>, c: set<SlotSeg>)
    requires Closed(Hits, segs, c)
    ensures LevelsOfGroup(Levels(segs), Levels(Restrict(segs, c)), c)
    ensures Restrict(LevelZero(Levels(segs)), c) == LevelZero(Levels(Restrict(segs, c)))
  {
    hide Restrict, Build, Closed;
    BuildRestricts(Hits, segs, c);
    RestrictNone<SlotSeg>(c);
  }

  lemma StrangersForward(segs: seq<SlotSeg>, c: set<SlotSeg>, s: SlotSeg, f: SlotSeg)
    requires Distinct(segs) && Closed(Hits, segs, c) && s in segs && s !in c && f in CollisionGraph(segs).fwd[s]
    ensures f !in c
  {
    hide Levels, CollisionGraph;
    var g := CollisionGraph(segs);
    assert Above(g, s, g.fwd[s]);
    GraphForward(segs, s, f);
  }

  lemma GroupGraph(segs: seq<SlotSeg>, c: set<SlotSeg>)
    requires Distinct(segs) && Closed(Hits, segs, c)
    ensures Distinct(Restrict(segs, c))
    ensures PartOf(CollisionGraph(segs), CollisionGraph(Restrict(segs, c)), c)
  {
    hide Restrict, Levels, LevelsOfGroup, Closed, CollisionGraph;
    RestrictDistinct(segs, c);
    LevelsRestrict(segs, c);
    forall s | s in segs && s in c
      ensures CollisionGraph(segs).fwd[s] == CollisionGraph(Restrict(segs, c)).fwd[s]
    {
      MemberAlone(segs, c, s);
    }
    forall s, f | s in segs && s !in c && f in CollisionGraph(segs).fwd[s]
      ensures f !in c
    {
      StrangersForward(segs, c, s, f);
    }
  }

  /** A group that collides with nothing outside itself is laid out as if it were alone in the column. */
  lemma GroupsAreIndependent(segs: seq<SlotSeg>, c: set<SlotSeg>, s: SlotSeg)
    requires Distinct(segs) && Closed(Hits, segs, c) && s in segs && s in c
    ensures Distinct(Restrict(segs, c)) && s in LayoutOf(segs) && s in LayoutOf(Restrict(segs, c))
    ensures LayoutOf(segs)[s] == LayoutOf(Restrict(segs, c))[s]
    ensures Pressure(CollisionGraph(segs), s) == Pressure(CollisionGraph(Restrict(segs, c)), s)
  {
    hide Restrict, Levels, CollisionGraph, Layout, LayoutOf, Closed, PartOf, LevelsOfGroup, LevelZero, Pressure;
    GroupGraph(segs, c);
    LevelsRestrict(segs, c);
    LayoutUnfold(segs);
    LayoutUnfold(Restrict(segs, c));
    LayoutAlone(CollisionGraph(segs), CollisionGraph(Restrict(segs, c)), c, LevelZero(Levels(segs)));
    PressureAlone(CollisionGraph(segs), CollisionGraph(Restrict(segs, c)), c, s);
  }

  /** Colliding segments of a group of at most two levels never overlap, whatever else the column holds. */
  lemma GroupApartUpToTwoLevels(segs: seq<SlotSeg>, c: set<SlotSeg>, a: SlotSeg, b: SlotSeg)
    requires Distinct(segs) && Closed(Hits, segs, c) && |Levels(Restrict(segs, c))| <= 2
    requires a in segs && a in c && b in segs && b in c && a != b && Hits(a, b)
    ensures Apart(LayoutOf(segs)[a], LayoutOf(segs)[b])
  {
    GroupsAreIndependent(segs, c, a);
    GroupsAreIndependent(segs, c, b);
    ApartUpToTwoLevels(Restrict(segs, c), a, b);
  }

  /** The members of a group that all collide share the width equally, whatever else the column holds. */
  lemma GroupSharesEqually(segs: seq<SlotSeg>, c: set<SlotSeg>, i: nat)
    requires Distinct(segs) && Closed(Hits, segs, c)
    requires var group := Restrict(segs, c); AllHit(group) && i < |group|
    ensures var group := Restrict(segs, c);
      && group[i] in LayoutOf(segs)
      && LayoutOf(segs)[group[i]] == Coord(i as real / |group| as real, (i + 1) as real / |group| as real)
  {
    var group := Restrict(segs, c);
    GroupsAreIndependent(segs, c, group[i]);
    CliqueSharesEqually(group, i);
  }
}
