/** What widths segments get: every segment belongs to a series, whose members share equally the width between where the
    series starts and the edge it runs into. */
module SlotSeries {
  import opened Sequences
  import opened SlotSegs
  import opened SlotGraph
  import opened SlotCoords
  import opened SlotLevels
  import opened SlotTheorems
  import opened SlotLayout
  import opened SlotGuarantees

  /** One segment's width times the number of segments of its series up to it is the width up to its end. */
  lemma BackDivides(f: real, p: nat, c: real)
    ensures (f - Back(f, p, c)) * (p + 1) as real == f - c
  {
    var n := (p + 1) as real;
    assert (f - c) / n * n == f - c;
  }

  // --- which forward segment is relied on ---

  /** Where a segment begins as far as is known, 0 when nothing is. */
  ghost function KnownStart(m: Memo, s: SlotSeg): real {
    if s in m then m[s].backward else 0.0
  }

  /** `f` comes before `h`: higher pressure, then closer to the initial edge, then earlier, longer, first by title; or
      nothing tells them apart. */
  ghost predicate Preferred(g: Dag, m: Memo, f: SlotSeg, h: SlotSeg)
    requires f in g.fwd && h in g.fwd
  {
    || Pressure(g, f) > Pressure(g, h)
    || (Pressure(g, f) == Pressure(g, h)
        && (|| KnownStart(m, f) < KnownStart(m, h)
            || (KnownStart(m, f) == KnownStart(m, h)
                && (|| f.start < h.start
                    || (f.start == h.start
                        && (|| f.end - f.start > h.end - h.start
                            || (f.end - f.start == h.end - h.start && f.title <= h.title)))))))
  }

  /** The first forward segment is preferred to all others. */
  lemma FirstIsPreferred(g: Dag, s: SlotSeg, m: Memo, h: SlotSeg)
    requires s in g.fwd && h in g.fwd[s]
    ensures Ordered(g, s, m) != [] && Ordered(g, s, m)[0] in g.fwd[s]
    ensures Preferred(g, m, Ordered(g, s, m)[0], h)
  {
    hide Pressure;
    OrderedFirst(g, s, m, h);
  }

  // --- the series of a segment ---

  /** `s`, the forward segment it relies on, the one that relies on, and so on up to a segment placed before. */
  ghost function Series(g: Dag, s: SlotSeg, m: Memo): (xs: seq<SlotSeg>)
    requires s in g.fwd
    ensures s in m ==> xs == []
    ensures s !in m ==> xs != [] && xs[0] == s
    ensures forall x :: x in xs ==> x in g.fwd && x !in m && (x == s || g.level[x] > g.level[s])
    decreases g.height - g.level[s]
  {
    if s in m then []
    else
      var fs := Ordered(g, s, m);
      if fs == [] then [s] else
        assert fs[0] in fs;
        [s] + Series(g, fs[0], m)
  }

  /** What the series runs into: the far edge, or the segment placed before. */
  ghost function SeriesEnd(g: Dag, s: SlotSeg, m: Memo): real
    requires s in g.fwd
    decreases g.height - g.level[s]
  {
    if s in m then m[s].backward
    else
      var fs := Ordered(g, s, m);
      if fs == [] then 1.0 else
        assert fs[0] in fs;
        SeriesEnd(g, fs[0], m)
  }

  lemma SeriesUnfold(g: Dag, s: SlotSeg, m: Memo)
    requires s in g.fwd && s !in m
    ensures Ordered(g, s, m) == [] ==> Series(g, s, m) == [s] && SeriesEnd(g, s, m) == 1.0
    ensures Ordered(g, s, m) != [] ==>
      var first := Ordered(g, s, m)[0];
      && first in Ordered(g, s, m)
      && Series(g, s, m) == [s] + Series(g, first, m) && SeriesEnd(g, s, m) == SeriesEnd(g, first, m)
  {
    hide Ordered;
  }

  /** The k-th of the borders that divide c..f among n. */
  function Border(c: real, f: real, k: nat, n: nat): real
    requires n > 0
  {
    c + k as real * ((f - c) / n as real)
  }

  /** The i-th of n equal shares of c..f. */
  function Share(c: real, f: real, i: nat, n: nat): Coord
    requires n > 0
  {
    Coord(Border(c, f, i, n), Border(c, f, i + 1, n))
  }

  /** The members of `xs` have the shares from the p-th on. */
  ghost predicate Laid(xs: seq<SlotSeg>, p: nat, c: real, f: real, m: Memo) {
    forall i :: 0 <= i < |xs| ==> xs[i] in m && m[xs[i]] == Share(c, f, p + i, p + |xs|)
  }

  lemma BorderStep(c: real, f: real, p: nat, n: nat)
    requires p < n
    ensures Back(Border(c, f, p + 1, n), p, c) == Border(c, f, p, n)
  {
    var w := (f - c) / n as real;
    var a := (p + 1) as real;
    assert (a * w) / a == w;
    assert p as real * w == a * w - w;
  }

  lemma BorderEnds(c: real, f: real, n: nat)
    requires n > 0
    ensures Border(c, f, n, n) == f && Border(c, f, 0, n) == c
  {
  }

  lemma LaidFront(s: SlotSeg, xs: seq<SlotSeg>, p: nat, c: real, f: real, m: Memo)
    requires s !in xs && Laid(xs, p + 1, c, f, m)
    ensures Laid([s] + xs, p, c, f, Settle(s, Border(c, f, p + 1, p + 1 + |xs|), p, c, m))
  {
    hide Border, Back;
    var n := p + 1 + |xs|;
    var r := Settle(s, Border(c, f, p + 1, n), p, c, m);
    BorderStep(c, f, p, n);
    assert r[s] == Share(c, f, p, n);
    forall i | 0 <= i < |[s] + xs|
      ensures ([s] + xs)[i] in r && r[([s] + xs)[i]] == Share(c, f, p + i, n)
    {
      if i > 0 {
        assert ([s] + xs)[i] == xs[i - 1] && xs[i - 1] in xs;
      }
    }
  }

  lemma LaidExtends(xs: seq<SlotSeg>, p: nat, c: real, f: real, m: Memo, r: Memo)
    requires Laid(xs, p, c, f, m) && Extends(m, r)
    ensures Laid(xs, p, c, f, r)
  {
  }

  /** Placing a segment gives its whole series equal shares of the width from where the series starts to what it runs
      into, on every graph, whatever was placed before; `p` segments of the series lie behind. */
  lemma {:induction false} PlaceShares(g: Dag, s: SlotSeg, p: nat, c: real, m: Memo)
    requires s in g.fwd && s !in m
    ensures Laid(Series(g, s, m), p, c, SeriesEnd(g, s, m), Place(g, s, p, c, m))
    decreases g.height - g.level[s]
  {
    hide Place, PlaceSeries, PlaceEach, Settle, Ordered, Laid, Series, SeriesEnd, Border;
    PlaceUnfold(g, s, p, c, m);
    SeriesUnfold(g, s, m);
    LaidNone(p + 1, c, 1.0, m);
    var fs := Ordered(g, s, m);
    if fs == [] {
      BorderEnds(c, 1.0, p + 1);
      LaidFront(s, [], p, c, 1.0, m);
      assert [s] + [] == [s];
    } else {
      PlaceSeriesShares(g, s, fs, p, c, m);
    }
  }

  lemma LaidNone(p: nat, c: real, f: real, m: Memo)
    ensures Laid([], p, c, f, m)
  {
  }

  lemma {:induction false} PlaceSeriesShares(g: Dag, s: SlotSeg, fs: seq<SlotSeg>, p: nat, c: real, m: Memo)
    requires s in g.fwd && s !in m && Above(g, s, fs) && fs != [] && fs[0] in fs
    ensures Laid([s] + Series(g, fs[0], m), p, c, SeriesEnd(g, fs[0], m), PlaceSeries(g, s, fs, p, c, m))
    decreases g.height - g.level[s], 0
  {
    hide Place, PlaceSeries, PlaceEach, Settle, Laid, Series, SeriesEnd, Border;
    PlaceSeriesUnfold(g, s, fs, p, c, m);
    var first := fs[0];
    var m1, f := Place(g, first, p + 1, c, m), SeriesEnd(g, first, m);
    var xs := Series(g, first, m);
    LaidFirst(g, first, p, c, m);
    if first !in m {
      PlaceShares(g, first, p + 1, c, m);
    }
    FirstBorder(g, first, p, c, m);
    LaidFront(s, xs, p, c, f, m1);
    var m2 := Settle(s, m1[first].backward, p, c, m1);
    LaidExtends([s] + xs, p, c, f, m2, PlaceEach(g, s, fs, m1[first].backward, m2));
  }

  lemma LaidFirst(g: Dag, first: SlotSeg, p: nat, c: real, m: Memo)
    requires first in g.fwd
    ensures first in m ==> Laid(Series(g, first, m), p + 1, c, SeriesEnd(g, first, m), Place(g, first, p + 1, c, m))
  {
  }

  /** The first one begins where the share before it ends. */
  lemma {:induction false} FirstBorder(g: Dag, first: SlotSeg, p: nat, c: real, m: Memo)
    requires first in g.fwd
    requires Laid(Series(g, first, m), p + 1, c, SeriesEnd(g, first, m), Place(g, first, p + 1, c, m))
    ensures var xs := Series(g, first, m);
      Place(g, first, p + 1, c, m)[first].backward == Border(c, SeriesEnd(g, first, m), p + 1, p + 1 + |xs|)
  {
    hide Border, Ordered;
    if first in m {
      BorderEnds(c, m[first].backward, p + 1);
    } else {
      assert Series(g, first, m)[0] == first;
    }
  }

  /** Each member relies on the next, and the last one on what the series runs into. */
  ghost predicate Chain(g: Dag, xs: seq<SlotSeg>, f: real, m: Memo) {
    && (forall i :: 0 <= i < |xs| ==> xs[i] in g.fwd)
    && (forall i :: 0 < i < |xs| ==> Strongest(g, xs[i - 1], xs[i]))
    && (xs != [] ==> EndOf(g, xs[|xs| - 1], f, m))
  }

  lemma ChainFront(g: Dag, s: SlotSeg, xs: seq<SlotSeg>, f: real, m: Memo)
    requires s in g.fwd && Chain(g, xs, f, m)
    requires (xs != [] ==> Strongest(g, s, xs[0])) && (xs == [] ==> EndOf(g, s, f, m))
    ensures Chain(g, [s] + xs, f, m)
  {
    hide Strongest, EndOf;
    var r := [s] + xs;
    forall i | 0 < i < |r|
      ensures Strongest(g, r[i - 1], r[i])
    {
      if i > 1 {
        assert r[i - 1] == xs[i - 2] && r[i] == xs[i - 1];
      }
    }
  }

  lemma {:induction false} SeriesIsChain(g: Dag, s: SlotSeg, m: Memo)
    requires s in g.fwd
    ensures Chain(g, Series(g, s, m), SeriesEnd(g, s, m), m)
    decreases g.height - g.level[s]
  {
    hide Series, SeriesEnd, Chain, Strongest, Ordered;
    ChainNone(g, SeriesEnd(g, s, m), m);
    if s !in m {
      SeriesUnfold(g, s, m);
      var fs := Ordered(g, s, m);
      if fs == [] {
        NothingAhead(g, s, m);
        ChainFront(g, s, [], 1.0, m);
        assert [s] + [] == [s];
      } else {
        FirstIsStrongest(g, s, m);
        SeriesIsChain(g, fs[0], m);
        RunsInto(g, s, fs[0], m);
        ChainFront(g, s, Series(g, fs[0], m), SeriesEnd(g, fs[0], m), m);
      }
    }
  }

  lemma ChainNone(g: Dag, f: real, m: Memo)
    ensures Chain(g, [], f, m)
  {
  }

  lemma NothingAhead(g: Dag, s: SlotSeg, m: Memo)
    requires s in g.fwd && Ordered(g, s, m) == []
    ensures EndOf(g, s, 1.0, m)
  {
  }

  lemma RunsInto(g: Dag, s: SlotSeg, f: SlotSeg, m: Memo)
    requires s in g.fwd && f in g.fwd && Strongest(g, s, f)
    ensures Series(g, f, m) == [] ==> EndOf(g, s, SeriesEnd(g, f, m), m)
    ensures Series(g, f, m) != [] ==> Series(g, f, m)[0] == f
  {
  }

  // --- the whole layout ---

  /** The series of `x` starts at the initial edge, or where a segment ends that `x` lies ahead of. */
  ghost predicate StartsAt(g: Dag, x: SlotSeg, c: real, m: Memo)
    requires x in g.fwd
  {
    || (g.level[x] == 0 && c == 0.0)
    || exists o :: o in m && o in g.fwd && x in g.fwd[o] && c == m[o].forward
  }

  /** The series `xs` shares c..f equally, and starts and ends where it should. */
  ghost predicate SeriesLaid(g: Dag, older xs: seq<SlotSeg>, c: real, f: real, m: Memo) {
    xs != [] && Chain(g, xs, f, m) && StartsAt(g, xs[0], c, m) && Laid(xs, 0, c, f, m)
  }

  ghost predicate InSeries(g: Dag, s: SlotSeg, m: Memo) {
    exists xs, c, f :: SeriesLaid(g, xs, c, f, m) && s in xs
  }

  /** Every segment placed belongs to such a series, but for those of the series that are still open. */
  ghost predicate AllInSeries(g: Dag, m: Memo, open: set<SlotSeg>) {
    forall s :: s in m ==> s in open || InSeries(g, s, m)
  }

  lemma SeriesLaidExtends(g: Dag, xs: seq<SlotSeg>, c: real, f: real, m: Memo, r: Memo)
    requires SeriesLaid(g, xs, c, f, m) && Extends(m, r)
    ensures SeriesLaid(g, xs, c, f, r)
  {
    hide Strongest, Laid, EndOf;
    LaidExtends(xs, 0, c, f, m, r);
    EndOfExtended(g, xs[|xs| - 1], f, m, r);
  }

  lemma InSeriesExtends(g: Dag, s: SlotSeg, m: Memo, r: Memo)
    requires InSeries(g, s, m) && Extends(m, r)
    ensures InSeries(g, s, r)
  {
    hide SeriesLaid;
    var xs, c, f :| s in xs && SeriesLaid(g, xs, c, f, m);
    SeriesLaidExtends(g, xs, c, f, m, r);
  }

  /** What is new lies in the open series. */
  lemma AllInSeriesExtends(g: Dag, m: Memo, r: Memo, open: set<SlotSeg>, more: set<SlotSeg>)
    requires AllInSeries(g, m, open) && Extends(m, r) && open <= more
    requires forall s :: s in r && s !in m ==> s in more
    ensures AllInSeries(g, r, more)
  {
    hide InSeries;
    forall s | s in r && s !in more
      ensures InSeries(g, s, r)
    {
      InSeriesExtends(g, s, m, r);
    }
  }

  ghost function Members(xs: seq<SlotSeg>): set<SlotSeg> {
    set x | x in xs
  }

  lemma SettleInSeries(g: Dag, s: SlotSeg, f: real, p: nat, c: real, m: Memo, open: set<SlotSeg>, more: set<SlotSeg>)
    requires AllInSeries(g, m, open) && s !in m && open <= more && s in more
    ensures AllInSeries(g, Settle(s, f, p, c, m), more)
  {
    AllInSeriesExtends(g, m, Settle(s, f, p, c, m), open, more);
  }

  /** Placing leaves only the segment's own series open. */
  lemma {:induction false} PlaceInSeries(g: Dag, s: SlotSeg, p: nat, c: real, m: Memo, open: set<SlotSeg>)
    requires s in g.fwd && AllInSeries(g, m, open)
    ensures AllInSeries(g, Place(g, s, p, c, m), open + Members(Series(g, s, m)))
    decreases g.height - g.level[s], 2, 0
  {
    hide Place, PlaceSeries, Settle, Ordered, AllInSeries, Series;
    PlaceUnfold(g, s, p, c, m);
    if s in m {
      assert Members([]) == {};
      assert open + {} == open;
    } else {
      SeriesUnfold(g, s, m);
      var fs := Ordered(g, s, m);
      if fs == [] {
        SettleInSeries(g, s, 1.0, p, c, m, open, open + Members([s]));
      } else {
        PlaceSeriesInSeries(g, s, fs, p, c, m, open);
      }
    }
  }

  lemma {:induction false} PlaceSeriesInSeries(g: Dag, s: SlotSeg, fs: seq<SlotSeg>, p: nat, c: real, m: Memo,
                                               open: set<SlotSeg>)
    requires s in g.fwd && s !in m && AllInSeries(g, m, open)
    requires fs != [] && fs[0] in fs && fs == Ordered(g, s, m)
    ensures AllInSeries(g, PlaceSeries(g, s, fs, p, c, m), open + Members([s] + Series(g, fs[0], m)))
    decreases g.height - g.level[s], 1, 0
  {
    hide Place, PlaceSeries, PlaceEach, Settle, Ordered, AllInSeries, Series;
    PlaceSeriesUnfold(g, s, fs, p, c, m);
    var first, rest := fs[0], Series(g, fs[0], m);
    PlaceInSeries(g, first, p + 1, c, m, open);
    var m1 := Place(g, first, p + 1, c, m);
    var f, more := m1[first].backward, open + Members([s] + rest);
    assert s in [s] + rest && forall x :: x in rest ==> x in [s] + rest;
    SettleInSeries(g, s, f, p, c, m1, open + Members(rest), more);
    var m2 := Settle(s, f, p, c, m1);
    SettledEnd(s, f, p, c, m1);
    forall h | h in fs
      ensures h in g.fwd[s]
    {
      OrderedMembers(g, s, m, h);
    }
    PlaceEachInSeries(g, s, fs, f, m2, more);
  }

  lemma SettledEnd(s: SlotSeg, f: real, p: nat, c: real, m: Memo)
    ensures s in Settle(s, f, p, c, m) && Settle(s, f, p, c, m)[s].forward == f
  {
  }

  lemma {:induction false} PlaceEachInSeries(g: Dag, s: SlotSeg, fs: seq<SlotSeg>, c: real, m: Memo, open: set<SlotSeg>)
    requires s in g.fwd && Above(g, s, fs) && s in m && c == m[s].forward && AllInSeries(g, m, open)
    requires forall h :: h in fs ==> h in g.fwd[s]
    ensures AllInSeries(g, PlaceEach(g, s, fs, c, m), open)
    decreases g.height - g.level[s], 0, |fs|
  {
    hide Place, PlaceEach, AllInSeries;
    if fs == [] {
      PlaceEachNone(g, s, c, m);
    } else {
      var k := |fs| - 1;
      PlaceEachUnfold(g, s, fs, c, m);
      PlaceEachInSeries(g, s, fs[..k], c, m, open);
      var before := PlaceEach(g, s, fs[..k], c, m);
      assert before[s] == m[s];
      assert StartsAt(g, fs[k], c, before);
      PlaceInSeries(g, fs[k], 0, c, before, open);
      CloseSeries(g, fs[k], c, before, open);
    }
  }

  /** A series that starts where it should is closed once it is placed. */
  lemma CloseSeries(g: Dag, s: SlotSeg, c: real, m: Memo, open: set<SlotSeg>)
    requires s in g.fwd && StartsAt(g, s, c, m)
    requires AllInSeries(g, Place(g, s, 0, c, m), open + Members(Series(g, s, m)))
    ensures AllInSeries(g, Place(g, s, 0, c, m), open)
  {
    hide Place, Series, SeriesEnd;
    var xs, f, r := Series(g, s, m), SeriesEnd(g, s, m), Place(g, s, 0, c, m);
    if s in m {
      assert open + Members(xs) == open;
    } else {
      SeriesIsLaid(g, s, c, m);
      assert forall x :: x in xs ==> InSeries(g, x, r);
      hide InSeries;
      forall x | x in r && x !in open
        ensures InSeries(g, x, r)
      {
        if x in Members(xs) {
          assert x in xs;
        }
      }
    }
  }

  /** The series of a newly placed segment. */
  lemma SeriesIsLaid(g: Dag, s: SlotSeg, c: real, m: Memo)
    requires s in g.fwd && s !in m && StartsAt(g, s, c, m)
    ensures SeriesLaid(g, Series(g, s, m), c, SeriesEnd(g, s, m), Place(g, s, 0, c, m))
  {
    hide Place, Series, SeriesEnd, Laid, Strongest, EndOf;
    var xs, f, r := Series(g, s, m), SeriesEnd(g, s, m), Place(g, s, 0, c, m);
    PlaceShares(g, s, 0, c, m);
    SeriesIsChain(g, s, m);
    EndOfExtended(g, xs[|xs| - 1], f, m, r);
    StartExtends(g, s, c, m, r);
  }

  lemma StartExtends(g: Dag, s: SlotSeg, c: real, m: Memo, r: Memo)
    requires s in g.fwd && StartsAt(g, s, c, m) && Extends(m, r)
    ensures StartsAt(g, s, c, r)
  {
  }

  lemma {:induction false} LayoutInSeries(g: Dag, roots: seq<SlotSeg>)
    requires forall s :: s in roots ==> s in g.fwd && g.level[s] == 0
    ensures AllInSeries(g, Layout(g, roots), {})
  {
    hide Place, AllInSeries;
    if roots == [] {
      NoneInSeries(g);
    } else {
      var n := |roots| - 1;
      assert roots[n] in roots;
      LayoutInSeries(g, roots[..n]);
      PlaceInSeries(g, roots[n], 0, 0.0, Layout(g, roots[..n]), {});
      CloseSeries(g, roots[n], 0.0, Layout(g, roots[..n]), {});
    }
  }

  lemma NoneInSeries(g: Dag)
    ensures AllInSeries(g, map[], {})
  {
  }

  /** For every admissible input: each segment is the i-th of some series of n, each member of which relies on the next,
      and has exactly [c + i (f - c) / n, c + (i + 1) (f - c) / n]; the series starts at c, the initial edge or where a
      segment ends that its first member lies ahead of, and ends at f, the far edge or where a strongest forward segment
      of its last member begins. */
  lemma EverySegmentInSeries(segs: seq<SlotSeg>, s: SlotSeg)
    requires Distinct(segs) && s in segs
    ensures InSeries(CollisionGraph(segs), s, LayoutOf(segs))
  {
    hide CollisionGraph, Layout, InSeries, LayoutOf, LevelZero, Levels;
    LayoutUnfold(segs);
    LayoutInSeries(CollisionGraph(segs), LevelZero(Levels(segs)));
    LaidOut(segs, s);
  }

  lemma LaidOut(segs: seq<SlotSeg>, s: SlotSeg)
    requires Distinct(segs) && s in segs
    ensures s in LayoutOf(segs)
  {
  }

  // --- mutually colliding segments behind a placed one ---

  /** The forward segments of each of `xs` are those that follow it. */
  ghost predicate Tail(g: Dag, xs: seq<SlotSeg>) {
    && Distinct(xs)
    && (forall i :: 0 <= i < |xs| ==> xs[i] in g.fwd)
    && (forall i, f :: 0 <= i < |xs| && f in g.fwd[xs[i]] ==> f in xs[i + 1..])
    && (forall i, j :: 0 <= i < j < |xs| ==> xs[j] in g.fwd[xs[i]])
  }

  lemma TailRest(g: Dag, xs: seq<SlotSeg>)
    requires Tail(g, xs) && xs != []
    ensures Tail(g, xs[1..]) && forall x :: x in xs ==> x in g.fwd
    ensures forall f :: f in g.fwd[xs[0]] <==> f in xs[1..]
  {
    var rest := xs[1..];
    forall i, f | 0 <= i < |rest| && f in g.fwd[rest[i]]
      ensures f in rest[i + 1..]
    {
      assert rest[i] == xs[i + 1] && rest[i + 1..] == xs[i + 2..];
    }
    forall f | f in rest
      ensures f in g.fwd[xs[0]]
    {
      var j :| 0 <= j < |rest| && rest[j] == f;
      assert xs[j + 1] == f;
    }
  }

  lemma {:induction false} TailPressure(g: Dag, xs: seq<SlotSeg>, i: nat)
    requires Tail(g, xs) && i < |xs|
    ensures Pressure(g, xs[i]) == |xs| - 1 - i
    decreases |xs|
  {
    hide Tail, Pressure;
    TailRest(g, xs);
    PressureStep(g, xs[0]);
    if i > 0 {
      assert xs[i] == xs[1..][i - 1];
      TailPressure(g, xs[1..], i - 1);
    } else if |xs| > 1 {
      TailPressure(g, xs[1..], 0);
      assert xs[1] in xs[1..];
      if Pressure(g, xs[0]) > 0 {
        var f :| f in g.fwd[xs[0]] && Pressure(g, xs[0]) == 1 + Pressure(g, f);
        var j :| 0 <= j < |xs[1..]| && xs[1..][j] == f;
        TailPressure(g, xs[1..], j);
      }
    }
  }

  /** Each of them relies on the next. */
  lemma TailFirst(g: Dag, xs: seq<SlotSeg>, m: Memo)
    requires Tail(g, xs) && xs != []
    ensures xs[0] in g.fwd
    ensures if |xs| == 1 then Ordered(g, xs[0], m) == []
            else Ordered(g, xs[0], m) != [] && Ordered(g, xs[0], m)[0] == xs[1]
  {
    hide Tail, Ordered, Pressure;
    TailRest(g, xs);
    if |xs| == 1 {
      if Ordered(g, xs[0], m) != [] {
        OrderedMembers(g, xs[0], m, Ordered(g, xs[0], m)[0]);
      }
    } else {
      assert xs[1] in xs[1..];
      OrderedFirst(g, xs[0], m, xs[1]);
      var j :| 0 <= j < |xs[1..]| && xs[1..][j] == Ordered(g, xs[0], m)[0];
      TailPressure(g, xs[1..], j);
      TailPressure(g, xs[1..], 0);
    }
  }

  /** Such segments are a series of their own, up to the far edge. */
  lemma {:induction false} TailIsSeries(g: Dag, xs: seq<SlotSeg>, m: Memo)
    requires Tail(g, xs) && xs != [] && forall x :: x in xs ==> x !in m
    ensures xs[0] in g.fwd && Series(g, xs[0], m) == xs && SeriesEnd(g, xs[0], m) == 1.0
    decreases |xs|
  {
    hide Series, SeriesEnd, Pressure, Tail, Ordered;
    TailFirst(g, xs, m);
    SeriesUnfold(g, xs[0], m);
    if |xs| == 1 {
      assert xs == [xs[0]];
    } else {
      TailRest(g, xs);
      TailIsSeries(g, xs[1..], m);
      assert [xs[0]] + xs[1..] == xs;
    }
  }

  /** n mutually colliding segments with nothing else ahead of them, behind a placed segment that ends at `c`, share the
      width that is left equally. */
  lemma TailSharesTheRest(g: Dag, xs: seq<SlotSeg>, c: real, m: Memo, i: nat)
    requires Tail(g, xs) && i < |xs| && forall x :: x in xs ==> x !in m
    ensures var r, n := Place(g, xs[0], 0, c, m), |xs|;
      && xs[i] in r
      && r[xs[i]].backward == c + i as real * ((1.0 - c) / n as real)
      && r[xs[i]].forward == c + (i + 1) as real * ((1.0 - c) / n as real)
  {
    hide Place, Series, SeriesEnd, Tail;
    assert xs[0] in g.fwd by { TailRest(g, xs); }
    TailIsSeries(g, xs, m);
    PlaceShares(g, xs[0], 0, c, m);
  }
}
