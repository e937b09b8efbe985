/** What the coordinates guarantee on every collision graph: range, where a segment ends,
    and that nothing reachable is left out. */
module SlotTheorems {
  import opened SlotSegs
  import opened SlotGraph
  import opened SlotCoords

  ghost predicate UnitInterval(k: Coord) {
    0.0 <= k.backward <= 1.0 && 0.0 <= k.forward <= 1.0
  }

  /** `f` is a forward segment of `s` with the highest pressure. */
  ghost predicate Strongest(g: Dag, s: SlotSeg, f: SlotSeg)
    requires s in g.fwd
  {
    f in g.fwd[s] && forall h :: h in g.fwd[s] ==> Pressure(g, h) <= Pressure(g, f)
  }

  /** `f` is the far edge when nothing lies ahead of `s`, else where a strongest forward
      segment begins. */
  ghost predicate EndOf(g: Dag, s: SlotSeg, f: real, m: Memo)
    requires s in g.fwd
  {
    if g.fwd[s] == [] then f == 1.0
    else exists h :: h in m && f == m[h].backward && Strongest(g, s, h)
  }

  ghost predicate ForwardDone(g: Dag, s: SlotSeg, m: Memo)
    requires s in g.fwd
  {
    forall f :: f in g.fwd[s] ==> f in m
  }

  /** `open` holds the segments whose forward segments are still being visited. */
  ghost predicate Sound(g: Dag, m: Memo, open: set<SlotSeg>) {
    forall s :: s in m ==>
      s in g.fwd && UnitInterval(m[s]) && EndOf(g, s, m[s].forward, m) && (s in open || ForwardDone(g, s, m))
  }

  lemma BackInUnit(f: real, p: nat, c: real)
    requires 0.0 <= f <= 1.0 && 0.0 <= c <= 1.0
    ensures 0.0 <= Back(f, p, c) <= 1.0
    ensures p == 0 ==> Back(f, p, c) == c
  {
    var d := (p + 1) as real;
    var w := (f - c) / d;
    var e := d - 1.0;
    assert f - c == w + e * w;
    if f >= c {
      assert w >= 0.0 && e * w >= 0.0;
    } else {
      assert w <= 0.0 && e * w <= 0.0;
    }
  }

  lemma EndOfExtended(g: Dag, s: SlotSeg, f: real, m: Memo, r: Memo)
    requires s in g.fwd && EndOf(g, s, f, m) && Extends(m, r)
    ensures EndOf(g, s, f, r)
  {
    if g.fwd[s] != [] {
      var h :| h in m && f == m[h].backward && Strongest(g, s, h);
      assert h in r && r[h] == m[h];
    }
  }

  lemma SettleSound(g: Dag, s: SlotSeg, f: real, p: nat, c: real, m: Memo, open: set<SlotSeg>)
    requires s in g.fwd && s !in m
    requires 0.0 <= c <= 1.0 && 0.0 <= f <= 1.0
    requires Sound(g, m, open) && EndOf(g, s, f, m)
    ensures Sound(g, Settle(s, f, p, c, m), open + {s})
  {
    BackInUnit(f, p, c);
    var r := Settle(s, f, p, c, m);
    forall t | t in r ensures t in g.fwd && UnitInterval(r[t]) && EndOf(g, t, r[t].forward, r) {
      EndOfExtended(g, t, r[t].forward, m, r);
    }
    forall t | t in r ensures t in open + {s} || ForwardDone(g, t, r) {
    }
  }

  lemma SoundClose(g: Dag, s: SlotSeg, m: Memo, open: set<SlotSeg>)
    requires s in g.fwd && Sound(g, m, open + {s}) && ForwardDone(g, s, m)
    ensures Sound(g, m, open)
  {
  }

  lemma FirstIsStrongest(g: Dag, s: SlotSeg, m: Memo)
    requires s in g.fwd && Ordered(g, s, m) != []
    ensures Strongest(g, s, Ordered(g, s, m)[0])
  {
    forall h | h in g.fwd[s] ensures Pressure(g, h) <= Pressure(g, Ordered(g, s, m)[0]) {
      OrderedFirst(g, s, m, h);
    }
    OrderedMembers(g, s, m, Ordered(g, s, m)[0]);
  }

  lemma {:induction false} PlaceSound(g: Dag, s: SlotSeg, p: nat, c: real, m: Memo, open: set<SlotSeg>)
    requires s in g.fwd && 0.0 <= c <= 1.0 && Sound(g, m, open)
    ensures Sound(g, Place(g, s, p, c, m), open)
    decreases g.height - g.level[s], 2, 0
  {
    if s !in m {
      if Ordered(g, s, m) == [] {
        SettleSound(g, s, 1.0, p, c, m, open);
        SoundClose(g, s, Settle(s, 1.0, p, c, m), open);
      } else {
        PlaceSeriesSound(g, s, p, c, m, open);
      }
    }
  }

  lemma {:induction false} PlaceSeriesSound(g: Dag, s: SlotSeg, p: nat, c: real, m: Memo, open: set<SlotSeg>)
    requires s in g.fwd && 0.0 <= c <= 1.0 && Sound(g, m, open)
    requires s !in m && Ordered(g, s, m) != []
    ensures Sound(g, PlaceSeries(g, s, Ordered(g, s, m), p, c, m), open)
    decreases g.height - g.level[s], 1, 0
  {
    var fs := Ordered(g, s, m);
    FirstIsStrongest(g, s, m);
    PlaceSound(g, fs[0], p + 1, c, m, open);
    var m1 := Place(g, fs[0], p + 1, c, m);
    var f := m1[fs[0]].backward;
    SettleSound(g, s, f, p, c, m1, open);
    var m2 := Settle(s, f, p, c, m1);
    PlaceEachSound(g, s, fs, f, m2, open + {s});
    var r := PlaceEach(g, s, fs, f, m2);
    forall h | h in g.fwd[s] ensures h in r { OrderedMembers(g, s, m, h); }
    SoundClose(g, s, r, open);
  }

  lemma {:induction false} PlaceEachSound(g: Dag, s: SlotSeg, fs: seq<SlotSeg>, c: real, m: Memo, open: set<SlotSeg>)
    requires s in g.fwd && Above(g, s, fs) && 0.0 <= c <= 1.0 && Sound(g, m, open)
    ensures Sound(g, PlaceEach(g, s, fs, c, m), open)
    decreases g.height - g.level[s], 0, |fs|
  {
    if fs != [] {
      var n := |fs| - 1;
      assert fs[n] in fs;
      PlaceEachSound(g, s, fs[..n], c, m, open);
      PlaceSound(g, fs[n], 0, c, PlaceEach(g, s, fs[..n], c, m), open);
    }
  }

  /** The whole layout is sound, with nothing left open. */
  lemma {:induction false} LayoutSound(g: Dag, roots: seq<SlotSeg>)
    requires forall s :: s in roots ==> s in g.fwd
    ensures Sound(g, Layout(g, roots), {})
  {
    if roots != [] {
      var n := |roots| - 1;
      assert roots[n] in roots;
      LayoutSound(g, roots[..n]);
      PlaceSound(g, roots[n], 0, 0.0, Layout(g, roots[..n]), {});
    }
  }

  /** Every segment gets coordinates although only the roots are visited directly. */
  lemma LayoutTotal(g: Dag, roots: seq<SlotSeg>)
    requires Rooted(g, roots)
    ensures Layout(g, roots).Keys == g.fwd.Keys
  {
    LayoutSound(g, roots);
    var m := Layout(g, roots);
    assert Sound(g, m, {});
    hide Layout, Rooted;
    forall s | s in g.fwd
      ensures s in m
    {
      Reached(g, roots, m.Keys, s);
    }
  }
}

/** Graphs whose coordinates are known exactly. */
module SlotExact {
  import opened SlotSegs
  import opened SlotGraph
  import opened SlotCoords

  // --- at most two levels ---

  /** The whole width, or the near or the far half of it. */
  ghost function Half(g: Dag, s: SlotSeg): Coord
    requires s in g.fwd
  {
    if g.level[s] == 1 then Coord(0.5, 1.0)
    else if g.fwd[s] == [] then Coord(0.0, 1.0)
    else Coord(0.0, 0.5)
  }

  ghost predicate Halves(g: Dag, m: Memo) {
    forall s :: s in m ==> s in g.fwd && m[s] == Half(g, s)
  }

  lemma {:induction false} PlaceHalves(g: Dag, s: SlotSeg, p: nat, c: real, m: Memo)
    requires g.height <= 2 && s in g.fwd && Halves(g, m)
    requires if g.level[s] == 0 then p == 0 && c == 0.0 else (p == 1 && c == 0.0) || (p == 0 && c == 0.5)
    ensures Halves(g, Place(g, s, p, c, m))
    decreases g.height - g.level[s], 1, 0
  {
    hide Place, PlaceSeries, PlaceEach, Settle;
    PlaceUnfold(g, s, p, c, m);
    if s !in m {
      var fs := Ordered(g, s, m);
      if fs != [] {
        PlaceSeriesUnfold(g, s, fs, p, c, m);
        PlaceHalves(g, fs[0], p + 1, c, m);
        var m1 := Place(g, fs[0], p + 1, c, m);
        SettleHalf(g, s, m1[fs[0]].backward, p, c, m1);
        PlaceEachHalves(g, s, fs, Settle(s, m1[fs[0]].backward, p, c, m1));
      } else {
        SettleHalf(g, s, 1.0, p, c, m);
      }
    }
  }

  lemma SettleHalf(g: Dag, s: SlotSeg, f: real, p: nat, c: real, m: Memo)
    requires s in g.fwd && Halves(g, m) && Half(g, s) == Coord(Back(f, p, c), f)
    ensures Halves(g, Settle(s, f, p, c, m))
  {
  }

  lemma {:induction false} PlaceEachHalves(g: Dag, s: SlotSeg, fs: seq<SlotSeg>, m: Memo)
    requires g.height <= 2 && s in g.fwd && Above(g, s, fs) && Halves(g, m)
    ensures Halves(g, PlaceEach(g, s, fs, 0.5, m))
    decreases g.height - g.level[s], 0, |fs|
  {
    hide Place, PlaceEach;
    if fs == [] {
      PlaceEachNone(g, s, 0.5, m);
    } else {
      var n := |fs| - 1;
      PlaceEachUnfold(g, s, fs, 0.5, m);
      PlaceEachHalves(g, s, fs[..n], m);
      PlaceHalves(g, fs[n], 0, 0.5, PlaceEach(g, s, fs[..n], 0.5, m));
    }
  }

  lemma {:induction false} LayoutHalves(g: Dag, roots: seq<SlotSeg>)
    requires g.height <= 2 && forall s :: s in roots ==> s in g.fwd && g.level[s] == 0
    ensures Halves(g, Layout(g, roots))
  {
    if roots != [] {
      var n := |roots| - 1;
      assert roots[n] in roots;
      LayoutHalves(g, roots[..n]);
      PlaceHalves(g, roots[n], 0, 0.0, Layout(g, roots[..n]));
    }
  }

  // --- mutually colliding segments ---

  /** `xs` are the segments, one a level, each a forward segment of all before it. */
  ghost predicate Clique(g: Dag, xs: seq<SlotSeg>) {
    && |xs| == g.height
    && (forall i :: 0 <= i < |xs| ==> xs[i] in g.fwd && g.level[xs[i]] == i)
    && (forall s :: s in g.fwd ==> xs[g.level[s]] == s)
    && forall i, j :: 0 <= i < j < |xs| ==> xs[j] in g.fwd[xs[i]]
  }

  lemma {:induction false} CliquePressure(g: Dag, xs: seq<SlotSeg>, i: nat)
    requires Clique(g, xs) && i < |xs|
    ensures Pressure(g, xs[i]) == |xs| - 1 - i
    decreases |xs| - i
  {
    PressureBelowLevels(g, xs[i]);
    if i + 1 < |xs| {
      CliquePressure(g, xs, i + 1);
      PressureStep(g, xs[i]);
      assert xs[i + 1] in g.fwd[xs[i]];
    }
  }

  /** The strongest forward segment is the one in the next level. */
  lemma CliqueFirst(g: Dag, xs: seq<SlotSeg>, i: nat, m: Memo)
    requires Clique(g, xs) && i < |xs|
    ensures Ordered(g, xs[i], m) == [] <==> i + 1 == |xs|
    ensures i + 1 < |xs| ==> Ordered(g, xs[i], m)[0] == xs[i + 1]
  {
    var fs := Ordered(g, xs[i], m);
    assert i + 1 < |xs| ==> xs[i + 1] in g.fwd[xs[i]];
    if fs != [] {
      OrderedMembers(g, xs[i], m, fs[0]);
      var k := g.level[fs[0]];
      OrderedFirst(g, xs[i], m, xs[i + 1]);
      CliquePressure(g, xs, i + 1);
      CliquePressure(g, xs, k);
    }
  }

  /** `w(i)` is where the i-th of n equal shares begins. */
  ghost predicate Shares(w: nat -> real, n: nat) {
    w(n) == 1.0 && forall i: nat :: i < n ==> Back(w(i + 1), i, 0.0) == w(i)
  }

  lemma ShareStep(i: nat, n: nat)
    requires n > 0
    ensures Back((i + 1) as real / n as real, i, 0.0) == i as real / n as real
  {
    var a, d := (i + 1) as real, n as real;
    var x := a / d;
    assert x / a == 1.0 / d by { assert (x / a) * a == x; assert (1.0 / d) * a == x; }
    assert i as real / d == (a - 1.0) / d == x - 1.0 / d;
  }

  function EqualShare(n: nat): nat -> real
    requires n > 0
  {
    (i: nat) => i as real / n as real
  }

  lemma EqualShares(n: nat)
    requires n > 0
    ensures Shares(EqualShare(n), n)
  {
    forall i: nat | i < n ensures Back(EqualShare(n)(i + 1), i, 0.0) == EqualShare(n)(i) { ShareStep(i, n); }
  }

  /** From level `k` on, every segment has its share. */
  ghost predicate SharedFrom(w: nat -> real, xs: seq<SlotSeg>, m: Memo, k: nat) {
    forall j :: k <= j < |xs| ==> xs[j] in m && m[xs[j]] == Coord(w(j), w(j + 1))
  }

  lemma SettleShared(g: Dag, w: nat -> real, xs: seq<SlotSeg>, i: nat, m: Memo)
    requires Clique(g, xs) && Shares(w, |xs|) && i < |xs| && SharedFrom(w, xs, m, i + 1)
    ensures SharedFrom(w, xs, Settle(xs[i], w(i + 1), i, 0.0, m), i)
  {
    var r := Settle(xs[i], w(i + 1), i, 0.0, m);
    forall j | i <= j < |xs| ensures xs[j] in r && r[xs[j]] == Coord(w(j), w(j + 1)) {
      assert g.level[xs[j]] == j && g.level[xs[i]] == i;
    }
  }

  lemma {:induction false} PlaceShared(g: Dag, w: nat -> real, xs: seq<SlotSeg>, i: nat)
    requires Clique(g, xs) && Shares(w, |xs|) && i < |xs|
    ensures SharedFrom(w, xs, Place(g, xs[i], i, 0.0, map[]), i)
    decreases |xs| - i, 1
  {
    CliqueFirst(g, xs, i, map[]);
    if i + 1 == |xs| {
      SettleShared(g, w, xs, i, map[]);
    } else {
      PlaceSeriesShared(g, w, xs, i);
    }
  }

  lemma {:induction false} PlaceSeriesShared(g: Dag, w: nat -> real, xs: seq<SlotSeg>, i: nat)
    requires Clique(g, xs) && Shares(w, |xs|) && i + 1 < |xs|
    requires var fs := Ordered(g, xs[i], map[]); fs != [] && fs[0] == xs[i + 1]
    ensures SharedFrom(w, xs, PlaceSeries(g, xs[i], Ordered(g, xs[i], map[]), i, 0.0, map[]), i)
    decreases |xs| - i, 0
  {
    var fs := Ordered(g, xs[i], map[]);
    PlaceShared(g, w, xs, i + 1);
    var m1 := Place(g, fs[0], i + 1, 0.0, map[]);
    var f := m1[fs[0]].backward;
    assert m1[xs[i + 1]] == Coord(w(i + 1), w(i + 2));
    SettleShared(g, w, xs, i, m1);
    var m2 := Settle(xs[i], f, i, 0.0, m1);
    AllSettled(g, w, xs, i, fs, m2);
    PlaceEachDone(g, xs[i], fs, f, m2);
  }

  lemma AllSettled(g: Dag, w: nat -> real, xs: seq<SlotSeg>, i: nat, fs: seq<SlotSeg>, m: Memo)
    requires Clique(g, xs) && i < |xs| && Above(g, xs[i], fs) && SharedFrom(w, xs, m, i)
    ensures forall f :: f in fs ==> f in m
  {
    forall f | f in fs ensures f in m { assert f == xs[g.level[f]]; }
  }

  lemma {:induction false} PlaceEachDone(g: Dag, s: SlotSeg, fs: seq<SlotSeg>, c: real, m: Memo)
    requires s in g.fwd && Above(g, s, fs)
    requires forall f :: f in fs ==> f in m
    ensures PlaceEach(g, s, fs, c, m) == m
  {
    if fs != [] {
      assert fs[|fs| - 1] in fs;
      PlaceEachDone(g, s, fs[..|fs| - 1], c, m);
    }
  }

  /** The layout of a clique. */
  lemma CliqueLayout(g: Dag, w: nat -> real, xs: seq<SlotSeg>, i: nat)
    requires Clique(g, xs) && Shares(w, |xs|) && i < |xs|
    ensures var m := Layout(g, [xs[0]]); xs[i] in m && m[xs[i]] == Coord(w(i), w(i + 1))
  {
    PlaceShared(g, w, xs, 0);
    LayoutOne(g, xs[0]);
  }

  lemma LayoutOne(g: Dag, s: SlotSeg)
    requires s in g.fwd
    ensures Layout(g, [s]) == Place(g, s, 0, 0.0, map[])
  {
    assert [s][..0] == [];
  }

  /** The halves of colliding segments do not overlap. */
  lemma HalvesApart(g: Dag, m: Memo, a: SlotSeg, b: SlotSeg)
    requires g.height <= 2 && Halves(g, m) && a in m && b in m
    requires a in g.fwd && b in g.fwd[a]
    ensures m[a].forward <= m[b].backward
  {
  }
}
