/** A collision graph: what pressures and coordinates depend on. */
module SlotGraph {
  import opened SlotSegs

  /** Each segment's forward segments and level. */
  datatype Graph = Graph(fwd: map<SlotSeg, seq<SlotSeg>>, level: map<SlotSeg, nat>, height: nat)

  ghost predicate IsDag(g: Graph) {
    && g.fwd.Keys == g.level.Keys
    && forall s :: s in g.fwd ==> g.level[s] < g.height && Above(g, s, g.fwd[s])
  }

  /** Levels increase strictly along forward segments: what makes the recursions end. */
  type Dag = g: Graph | IsDag(g) witness Graph(map[], map[], 0)

  /** `fs` are placed above `s`. */
  ghost predicate Above(g: Graph, s: SlotSeg, fs: seq<SlotSeg>)
    requires s in g.level
  {
    forall f :: f in fs ==> f in g.fwd && f in g.level && g.level[f] > g.level[s]
  }

  // --- pressure: the longest path through forward segments ---

  ghost function Pressure(g: Dag, s: SlotSeg): nat
    requires s in g.fwd
    decreases g.height - g.level[s], 1, 0
  {
    PressureOver(g, s, g.fwd[s])
  }

  ghost function PressureOver(g: Dag, s: SlotSeg, fs: seq<SlotSeg>): (p: nat)
    requires s in g.fwd && Above(g, s, fs)
    decreases g.height - g.level[s], 0, |fs|
  {
    if fs == [] then 0
    else
      var n := |fs| - 1;
      assert fs[n] in fs;
      Max(PressureOver(g, s, fs[..n]), 1 + Pressure(g, fs[n]))
  }

  function Max(a: nat, b: nat): nat { if a < b then b else a }

  lemma {:induction false} PressureOverMax(g: Dag, s: SlotSeg, fs: seq<SlotSeg>)
    requires s in g.fwd && Above(g, s, fs)
    ensures forall f :: f in fs ==> Pressure(g, f) < PressureOver(g, s, fs)
    ensures PressureOver(g, s, fs) > 0 ==>
      exists f :: f in fs && PressureOver(g, s, fs) == 1 + Pressure(g, f)
  {
    if fs != [] {
      var n := |fs| - 1;
      PressureOverMax(g, s, fs[..n]);
      assert fs[n] in fs;
    }
  }

  lemma PressureStep(g: Dag, s: SlotSeg)
    requires s in g.fwd
    ensures Above(g, s, g.fwd[s])
    ensures forall f :: f in g.fwd[s] ==> Pressure(g, f) < Pressure(g, s)
    ensures Pressure(g, s) > 0 ==>
      exists f :: f in g.fwd[s] && Pressure(g, s) == 1 + Pressure(g, f)
  {
    PressureOverMax(g, s, g.fwd[s]);
  }

  /** A collision path: every segment is a forward segment of the one before it. */
  ghost predicate IsPath(g: Dag, path: seq<SlotSeg>) {
    && (forall i :: 0 <= i < |path| ==> path[i] in g.fwd)
    && (forall i :: 0 < i < |path| ==> path[i] in g.fwd[path[i - 1]])
  }

  /** No forward path out of `s` visits more than `Pressure` further segments. */
  lemma {:induction false} PressureBoundsPaths(g: Dag, path: seq<SlotSeg>)
    requires IsPath(g, path) && path != []
    ensures |path| - 1 <= Pressure(g, path[0])
  {
    if |path| > 1 {
      var rest := path[1..];
      assert forall i :: 0 < i < |rest| ==> rest[i - 1] == path[i] && rest[i] == path[i + 1];
      PressureBoundsPaths(g, rest);
      PressureStep(g, path[0]);
      assert path[1] in g.fwd[path[0]];
    }
  }

  /** ... and some forward path out of `s` visits exactly that many. */
  lemma {:induction false} LongestPath(g: Dag, s: SlotSeg) returns (path: seq<SlotSeg>)
    requires s in g.fwd
    ensures IsPath(g, path) && |path| == Pressure(g, s) + 1 && path[0] == s
    decreases Pressure(g, s)
  {
    PressureStep(g, s);
    if Pressure(g, s) == 0 {
      path := [s];
    } else {
      var f :| f in g.fwd[s] && Pressure(g, s) == 1 + Pressure(g, f);
      var rest := LongestPath(g, f);
      path := [s] + rest;
      forall i | 0 < i < |path| ensures path[i] in g.fwd[path[i - 1]] {
        if i > 1 { assert path[i] == rest[i - 1] && path[i - 1] == rest[i - 2]; }
      }
    }
  }

  lemma {:induction false} PressureBelowLevels(g: Dag, s: SlotSeg)
    requires s in g.fwd
    ensures g.level[s] + Pressure(g, s) < g.height
    decreases Pressure(g, s)
  {
    PressureStep(g, s);
    if Pressure(g, s) > 0 {
      var f :| f in g.fwd[s] && Pressure(g, s) == 1 + Pressure(g, f);
      PressureBelowLevels(g, f);
    }
  }

  // --- reachability ---

  /** `roots` are the segments of level 0, and every other segment lies ahead of some segment. */
  ghost predicate Rooted(g: Dag, roots: seq<SlotSeg>) {
    && (forall s :: s in roots ==> s in g.fwd && g.level[s] == 0)
    && (forall s :: s in g.fwd ==> s in roots || exists o :: o in g.fwd && s in g.fwd[o])
  }

  /** Whatever contains the roots and is closed under forward segments contains every segment. */
  lemma {:induction false} Reached(g: Dag, roots: seq<SlotSeg>, done: set<SlotSeg>, s: SlotSeg)
    requires Rooted(g, roots) && s in g.fwd
    requires forall o :: o in roots ==> o in done
    requires forall o, f :: o in done && o in g.fwd && f in g.fwd[o] ==> f in done
    ensures s in done
    decreases g.level[s]
  {
    if s !in roots {
      var o :| o in g.fwd && s in g.fwd[o];
      Reached(g, roots, done, o);
    }
  }
}
