/** The horizontal coordinates of slot segments, as a function of the collision graph. */
module SlotCoords {
  import opened SlotSegs
  import opened SlotGraph
  import opened StableSort

  datatype Coord = Coord(backward: real, forward: real)
  type Memo = map<SlotSeg, Coord>

  /** What compareForwardSlotSegs looks at; `backward` is 0 for a segment without coordinates. */
  datatype Key = Key(pressure: nat, backward: real)

  /** compareForwardSlotSegs(a, b) < 0. */
  predicate ForwardPrecedes(a: SlotSeg, ka: Key, b: SlotSeg, kb: Key) {
    if ka.pressure != kb.pressure then ka.pressure > kb.pressure
    else if ka.backward != kb.backward then ka.backward < kb.backward
    else Precedes(a, b)
  }

  function ForwardLess(keys: map<SlotSeg, Key>): (SlotSeg, SlotSeg) -> bool {
    (a: SlotSeg, b: SlotSeg) => a in keys && b in keys && ForwardPrecedes(a, keys[a], b, keys[b])
  }

  function SortForward(keys: map<SlotSeg, Key>, fs: seq<SlotSeg>): seq<SlotSeg> {
    Sort(ForwardLess(keys), fs)
  }

  lemma SortForwardFirst(keys: map<SlotSeg, Key>, fs: seq<SlotSeg>, f: SlotSeg)
    requires forall h :: h in fs ==> h in keys
    requires f in fs
    ensures SortForward(keys, fs) != [] && SortForward(keys, fs)[0] in fs
    ensures f == SortForward(keys, fs)[0] || !ForwardLess(keys)(f, SortForward(keys, fs)[0])
  {
    var less := ForwardLess(keys);
    var r := SortForward(keys, fs);
    SortSorted(less, fs);
    SortMembers(less, fs, f);
    SortMembers(less, fs, r[0]);
    var i :| 0 <= i < |r| && r[i] == f;
    assert i > 0 ==> !less(r[i], r[0]);
  }

  /** The keys of the forward segments of `s` when the coordinates in `m` are known. */
  ghost function Keys(g: Dag, s: SlotSeg, m: Memo): map<SlotSeg, Key>
    requires s in g.fwd
  {
    map f | f in g.fwd[s] :: Key(Pressure(g, f), if f in m then m[f].backward else 0.0)
  }

  /** The forward segments of `s` in the order compareForwardSlotSegs puts them in. */
  ghost function Ordered(g: Dag, s: SlotSeg, m: Memo): (r: seq<SlotSeg>)
    requires s in g.fwd
    ensures Above(g, s, r)
    ensures |r| == |g.fwd[s]| && multiset(r) == multiset(g.fwd[s])
  {
    var r := SortForward(Keys(g, s, m), g.fwd[s]);
    assert |r| == |multiset(r)| == |multiset(g.fwd[s])| == |g.fwd[s]|;
    assert forall f :: f in r ==> f in multiset(g.fwd[s]);
    r
  }

  lemma OrderedMembers(g: Dag, s: SlotSeg, m: Memo, f: SlotSeg)
    requires s in g.fwd
    ensures f in Ordered(g, s, m) <==> f in g.fwd[s]
  {
    assert f in Ordered(g, s, m) <==> f in multiset(Ordered(g, s, m));
    assert f in g.fwd[s] <==> f in multiset(g.fwd[s]);
  }

  /** Nothing is preferred to the first one. */
  lemma OrderedFirst(g: Dag, s: SlotSeg, m: Memo, f: SlotSeg)
    requires s in g.fwd && f in g.fwd[s]
    ensures Ordered(g, s, m)[0] in g.fwd[s]
    ensures f == Ordered(g, s, m)[0] || !ForwardLess(Keys(g, s, m))(f, Ordered(g, s, m)[0])
    ensures Pressure(g, f) <= Pressure(g, Ordered(g, s, m)[0])
  {
    SortForwardFirst(Keys(g, s, m), g.fwd[s], f);
  }

  /** The width left between `c` and `f` is shared by the p + 1 segments of the series. */
  function Back(f: real, p: nat, c: real): real {
    f - (f - c) / (p + 1) as real
  }

  /** `s` ends at `f`. */
  ghost function Settle(s: SlotSeg, f: real, p: nat, c: real, m: Memo): Memo {
    m[s := Coord(Back(f, p, c), f)]
  }

  ghost predicate Extends(m: Memo, r: Memo) {
    forall t :: t in m ==> t in r && r[t] == m[t]
  }

  /** computeSlotSegCoords: `p` segments of the series lie behind `s`, the series starts at `c`. */
  ghost function Place(g: Dag, s: SlotSeg, p: nat, c: real, m: Memo): (r: Memo)
    requires s in g.fwd
    ensures s in r && Extends(m, r)
    ensures forall t :: t in r && t !in m ==> t in g.fwd && (t == s || g.level[t] > g.level[s])
    decreases g.height - g.level[s], 2, 0
  {
    if s in m then m
    else
      var fs := Ordered(g, s, m);
      if fs == [] then Settle(s, 1.0, p, c, m) else PlaceSeries(g, s, fs, p, c, m)
  }

  /** The branch with forward segments: the first of them settles where `s` ends. */
  ghost function PlaceSeries(g: Dag, s: SlotSeg, fs: seq<SlotSeg>, p: nat, c: real, m: Memo): (r: Memo)
    requires s in g.fwd && Above(g, s, fs)
    requires fs != [] && s !in m
    ensures s in r && Extends(m, r)
    ensures forall t :: t in r && t !in m ==> t in g.fwd && (t == s || g.level[t] > g.level[s])
    decreases g.height - g.level[s], 1, 0
  {
    assert fs[0] in fs;
    var m1 := Place(g, fs[0], p + 1, c, m);
    PlaceEach(g, s, fs, m1[fs[0]].backward, Settle(s, m1[fs[0]].backward, p, c, m1))
  }

  ghost function PlaceEach(g: Dag, s: SlotSeg, fs: seq<SlotSeg>, c: real, m: Memo): (r: Memo)
    requires s in g.fwd && Above(g, s, fs)
    ensures Extends(m, r) && forall f :: f in fs ==> f in r
    ensures forall t :: t in r && t !in m ==> t in g.fwd && g.level[t] > g.level[s]
    decreases g.height - g.level[s], 0, |fs|
  {
    if fs == [] then m
    else
      var n := |fs| - 1;
      assert fs[n] in fs && forall f :: f in fs ==> f in fs[..n] || f == fs[n];
      var before := PlaceEach(g, s, fs[..n], c, m);
      assert Extends(m, before);
      Place(g, fs[n], 0, c, before)
  }

  lemma PlaceUnfold(g: Dag, s: SlotSeg, p: nat, c: real, m: Memo)
    requires s in g.fwd
    ensures Place(g, s, p, c, m) ==
      if s in m then m
      else if Ordered(g, s, m) == [] then Settle(s, 1.0, p, c, m)
      else PlaceSeries(g, s, Ordered(g, s, m), p, c, m)
  {
    hide PlaceSeries, Ordered, Settle, PlaceEach;
  }

  lemma PlaceSeriesUnfold(g: Dag, s: SlotSeg, fs: seq<SlotSeg>, p: nat, c: real, m: Memo)
    requires s in g.fwd && Above(g, s, fs) && fs != [] && s !in m
    ensures fs[0] in fs
    ensures var m1 := Place(g, fs[0], p + 1, c, m);
      PlaceSeries(g, s, fs, p, c, m) ==
        PlaceEach(g, s, fs, m1[fs[0]].backward, Settle(s, m1[fs[0]].backward, p, c, m1))
  {
    hide Place, PlaceEach, Settle;
  }

  lemma PlaceEachUnfold(g: Dag, s: SlotSeg, fs: seq<SlotSeg>, c: real, m: Memo)
    requires s in g.fwd && Above(g, s, fs) && fs != []
    ensures var k := |fs| - 1;
      && fs[k] in fs
      && Above(g, s, fs[..k])
      && PlaceEach(g, s, fs, c, m) == Place(g, fs[k], 0, c, PlaceEach(g, s, fs[..k], c, m))
  {
    hide Place;
    assert fs[|fs| - 1] in fs;
  }

  lemma PlaceEachNone(g: Dag, s: SlotSeg, c: real, m: Memo)
    requires s in g.fwd
    ensures PlaceEach(g, s, [], c, m) == m
  {
  }

  /** placeSlotSegs visits the segments of level 0 only. */
  ghost function Layout(g: Dag, roots: seq<SlotSeg>): (r: Memo)
    requires forall s :: s in roots ==> s in g.fwd
    ensures forall s :: s in roots ==> s in r
    ensures forall s :: s in r ==> s in g.fwd
  {
    if roots == [] then map[]
    else
      var n := |roots| - 1;
      assert roots[n] in roots;
      Place(g, roots[n], 0, 0.0, Layout(g, roots[..n]))
  }
}
