/** First fit on segments sorted by start is an optimal interval colouring. */
module SlotLevels {
  import opened FirstFit
  import opened Sequences
  import opened SlotSegs
  import opened SlotGraph

  function Levels(segs: seq<SlotSeg>): seq<seq<SlotSeg>> {
    Build(Hits, segs)
  }

  ghost predicate Placed(levels: seq<seq<SlotSeg>>, s: SlotSeg) {
    exists i :: 0 <= i < |levels| && s in levels[i]
  }

  /** No segment sits in two levels. */
  ghost predicate Disjoint(levels: seq<seq<SlotSeg>>) {
    forall i, j, s :: 0 <= i < j < |levels| && s in levels[i] ==> s !in levels[j]
  }

  ghost function LevelOf(levels: seq<seq<SlotSeg>>, s: SlotSeg): (i: nat)
    requires Placed(levels, s)
    ensures i < |levels| && s in levels[i]
  {
    var i :| 0 <= i < |levels| && s in levels[i]; i
  }

  lemma LevelIs(levels: seq<seq<SlotSeg>>, s: SlotSeg, i: nat)
    requires Disjoint(levels) && i < |levels| && s in levels[i]
    ensures Placed(levels, s) && LevelOf(levels, s) == i
  {
  }

  /** What computeForwardSlotSegs collects from levels lo..hi for `s`. */
  function ForwardUpTo(levels: seq<seq<SlotSeg>>, s: SlotSeg, lo: nat, hi: nat): (r: seq<SlotSeg>)
    requires hi <= |levels|
    decreases hi
  {
    if hi <= lo then [] else ForwardUpTo(levels, s, lo, hi - 1) + Collisions(Hits, s, levels[hi - 1])
  }

  ghost function Forward(levels: seq<seq<SlotSeg>>, s: SlotSeg): seq<SlotSeg>
    requires Placed(levels, s)
  {
    ForwardUpTo(levels, s, LevelOf(levels, s) + 1, |levels|)
  }

  lemma {:induction false} ForwardUpToSound(levels: seq<seq<SlotSeg>>, s: SlotSeg, lo: nat, hi: nat, f: SlotSeg)
      returns (k: nat)
    requires hi <= |levels| && f in ForwardUpTo(levels, s, lo, hi)
    ensures Hits(s, f) && lo <= k < hi && f in levels[k]
  {
    k := hi - 1;
    if f in ForwardUpTo(levels, s, lo, hi - 1) { k := ForwardUpToSound(levels, s, lo, hi - 1, f); }
  }

  lemma {:induction false} ForwardUpToComplete(levels: seq<seq<SlotSeg>>, s: SlotSeg, lo: nat, hi: nat, f: SlotSeg,
      k: nat)
    requires lo <= k < hi <= |levels| && Hits(s, f) && f in levels[k]
    ensures f in ForwardUpTo(levels, s, lo, hi)
  {
    if k < hi - 1 { ForwardUpToComplete(levels, s, lo, hi - 1, f, k); }
  }

  /** The forward segments are exactly the colliding segments of later levels. */
  lemma ForwardMembers(levels: seq<seq<SlotSeg>>, s: SlotSeg, f: SlotSeg)
    requires Disjoint(levels) && Placed(levels, s)
    ensures f in Forward(levels, s) <==>
      Hits(s, f) && Placed(levels, f) && LevelOf(levels, f) > LevelOf(levels, s)
  {
    var lo := LevelOf(levels, s) + 1;
    if f in Forward(levels, s) {
      var k := ForwardUpToSound(levels, s, lo, |levels|, f);
      LevelIs(levels, f, k);
    } else if Hits(s, f) && Placed(levels, f) && LevelOf(levels, f) >= lo {
      ForwardUpToComplete(levels, s, lo, |levels|, f, LevelOf(levels, f));
    }
  }

  /** The collision graph of the levels. */
  ghost function GraphOf(levels: seq<seq<SlotSeg>>): (g: Dag)
    requires Disjoint(levels)
    ensures forall s :: s in g.fwd ==>
              Placed(levels, s) && g.fwd[s] == Forward(levels, s) && g.level[s] == LevelOf(levels, s)
    ensures forall i, s :: 0 <= i < |levels| && s in levels[i] ==> s in g.fwd
    ensures g.height == |levels|
  {
    var all := set i, s | 0 <= i < |levels| && s in levels[i] :: s;
    var g := Graph(map s | s in all :: Forward(levels, s), map s | s in all :: LevelOf(levels, s), |levels|);
    assert IsDag(g) by {
      forall s | s in g.fwd ensures g.level[s] < g.height && Above(g, s, g.fwd[s]) {
        forall f | f in g.fwd[s] ensures f in g.fwd && f in g.level && g.level[f] > g.level[s] {
          ForwardMembers(levels, s, f);
        }
      }
    }
    g
  }

  ghost predicate StartOrdered(segs: seq<SlotSeg>) {
    forall i, j :: 0 <= i < j < |segs| ==> segs[i].start <= segs[j].start
  }

  ghost predicate Proper(segs: seq<SlotSeg>) {
    forall s :: s in segs ==> s.start < s.end
  }

  predicate Active(s: SlotSeg, t: int) {
    s.start <= t < s.end
  }

  /** The segments that occupy the instant `t`. */
  function ActiveAt(segs: seq<SlotSeg>, t: int): seq<SlotSeg> {
    if segs == [] then []
    else ActiveAt(segs[..|segs| - 1], t) + if Active(segs[|segs| - 1], t) then [segs[|segs| - 1]] else []
  }

  lemma {:induction false} ActiveAtMembers(segs: seq<SlotSeg>, s: SlotSeg, t: int)
    ensures s in ActiveAt(segs, t) <==> s in segs && Active(s, t)
  {
    if segs != [] {
      ActiveAtMembers(segs[..|segs| - 1], s, t);
    }
  }

  lemma ActiveAtLast(segs: seq<SlotSeg>, s: SlotSeg, t: int)
    ensures ActiveAt(segs + [s], t) == ActiveAt(segs, t) + if Active(s, t) then [s] else []
  {
    var all := segs + [s];
    assert all[..|all| - 1] == segs && all[|all| - 1] == s;
  }

  lemma ActiveAtNone(t: int)
    ensures ActiveAt([], t) == []
  {
  }

  lemma {:induction false} ActiveAtConcat(a: seq<SlotSeg>, b: seq<SlotSeg>, t: int)
    ensures ActiveAt(a + b, t) == ActiveAt(a, t) + ActiveAt(b, t)
  {
    hide ActiveAt, Active;
    if b == [] {
      ActiveAtNone(t);
      assert a + b == a;
    } else {
      var front, last := b[..|b| - 1], b[|b| - 1];
      assert b == front + [last] && a + b == (a + front) + [last];
      ActiveAtConcat(a, front, t);
      ActiveAtLast(a + front, last, t);
      ActiveAtLast(front, last, t);
    }
  }

  lemma {:induction false} ActiveAtPermuted(a: seq<SlotSeg>, b: seq<SlotSeg>, t: int)
    requires multiset(a) == multiset(b)
    ensures |ActiveAt(a, t)| == |ActiveAt(b, t)|
    decreases |a|
  {
    hide ActiveAt, Active;
    if a == [] {
      assert |multiset(a)| == |a| == |multiset(b)| == |b|;
    } else {
      assert a[0] in multiset(b);
      var j :| 0 <= j < |b| && b[j] == a[0];
      var c, d := a[..0] + a[1..], b[..j] + b[j + 1..];
      RemoveAt(a, 0);
      RemoveAt(b, j);
      Cancel(multiset(c), multiset(d), a[0]);
      ActiveAtPermuted(c, d, t);
      ActiveAtWithout(a, 0, t);
      ActiveAtWithout(b, j, t);
    }
  }

  lemma ActiveAtWithout(b: seq<SlotSeg>, j: nat, t: int)
    requires j < |b|
    ensures |ActiveAt(b, t)| == |ActiveAt(b[..j] + b[j + 1..], t)| + if Active(b[j], t) then 1 else 0
  {
    hide ActiveAt, Active;
    assert b == (b[..j] + [b[j]]) + b[j + 1..];
    ActiveAtLast(b[..j], b[j], t);
    ActiveAtConcat(b[..j], b[j + 1..], t);
    ActiveAtConcat(b[..j] + [b[j]], b[j + 1..], t);
  }

  lemma {:induction false} OneActivePerRow(row: seq<SlotSeg>, t: int)
    requires RowFree(Hits, row)
    ensures |ActiveAt(row, t)| <= 1
  {
    if row != [] {
      var n := |row| - 1;
      OneActivePerRow(row[..n], t);
      if ActiveAt(row[..n], t) != [] {
        var o := ActiveAt(row[..n], t)[0];
        ActiveAtMembers(row[..n], o, t);
        var i :| 0 <= i < n && row[i] == o;
        assert !Hits(row[n], row[i]);
      }
    }
  }

  ghost predicate HasActive(row: seq<SlotSeg>, t: int) {
    exists o :: o in row && Active(o, t)
  }

  lemma {:induction false} ActiveAtMostLevels(levels: seq<seq<SlotSeg>>, t: int)
    requires CollisionFree(Hits, levels)
    ensures |ActiveAt(Flatten(levels), t)| <= |levels|
  {
    if levels != [] {
      var n := |levels| - 1;
      ActiveAtMostLevels(levels[..n], t);
      ActiveAtConcat(Flatten(levels[..n]), levels[n], t);
      OneActivePerRow(levels[n], t);
    }
  }

  lemma {:induction false} ActiveInEveryLevel(levels: seq<seq<SlotSeg>>, t: int)
    requires forall k :: 0 <= k < |levels| ==> HasActive(levels[k], t)
    ensures |ActiveAt(Flatten(levels), t)| >= |levels|
  {
    if levels != [] {
      var n := |levels| - 1;
      ActiveInEveryLevel(levels[..n], t);
      ActiveAtConcat(Flatten(levels[..n]), levels[n], t);
      assert HasActive(levels[n], t);
      var o :| o in levels[n] && Active(o, t);
      ActiveAtMembers(levels[n], o, t);
    }
  }

  /** No instant is shared by more segments than there are levels ... */
  lemma LevelsBoundConcurrency(segs: seq<SlotSeg>, t: int)
    ensures |ActiveAt(segs, t)| <= |Levels(segs)|
  {
    BuildCollisionFree(Hits, segs);
    BuildIsPermutation(Hits, segs);
    ActiveAtMostLevels(Levels(segs), t);
    ActiveAtPermuted(segs, Flatten(Levels(segs)), t);
  }

  lemma LevelsNonempty(segs: seq<SlotSeg>)
    requires segs != []
    ensures Levels(segs) != []
  {
    BuildIsPermutation(Hits, segs);
    assert segs[0] in multiset(Flatten(Levels(segs)));
  }

  /** Each level holds a segment that is active when a segment of the last level starts. */
  lemma ActiveBelow(segs: seq<SlotSeg>, k: nat, n: nat, s: SlotSeg)
    requires StartOrdered(segs) && Proper(segs)
    requires k <= n < |Levels(segs)| && s in Levels(segs)[n]
    ensures HasActive(Levels(segs)[k], s.start)
  {
    var levels := Levels(segs);
    BuildFirstFitted(Hits, segs);
    if k < n {
      assert TurnedAway(Hits, segs, levels[k], s);
      var o :| o in levels[k] && Hits(s, o) && Earlier(segs, o, s);
      assert Active(o, s.start);
    } else {
      assert Active(s, s.start);
    }
  }

  /** ... and some instant is shared by exactly that many: no level is wasted. */
  lemma LevelsAreNeeded(segs: seq<SlotSeg>) returns (t: int)
    requires StartOrdered(segs) && Proper(segs) && segs != []
    ensures |ActiveAt(segs, t)| == |Levels(segs)|
  {
    var levels := Levels(segs);
    LevelsNonempty(segs);
    BuildCollisionFree(Hits, segs);
    var n := |levels| - 1;
    var s: SlotSeg := levels[n][0];
    t := s.start;
    forall k | 0 <= k < |levels| ensures HasActive(levels[k], t) { ActiveBelow(segs, k, n, s); }
    ActiveInEveryLevel(levels, t);
    BuildIsPermutation(Hits, segs);
    ActiveAtPermuted(segs, Flatten(levels), t);
    LevelsBoundConcurrency(segs, t);
  }

  /** The levels of distinct segments: what the other theorems start from. */
  lemma LevelsShape(segs: seq<SlotSeg>)
    requires Distinct(segs)
    ensures Disjoint(Levels(segs))
    ensures forall s :: s in segs <==> Placed(Levels(segs), s)
  {
    var levels := Levels(segs);
    forall i, j, s | 0 <= i < j < |levels| && s in levels[i] ensures s !in levels[j] {
      BuildDisjoint(Hits, segs, i, j, s);
    }
    forall s ensures s in segs <==> Placed(levels, s) {
      BuildIsPermutation(Hits, segs);
      FlattenMembers(levels, s);
      assert s in segs <==> s in multiset(segs);
      assert s in Flatten(levels) <==> s in multiset(Flatten(levels));
    }
  }

  /** The collision graph of distinct segments. */
  ghost function CollisionGraph(segs: seq<SlotSeg>): (g: Dag)
    requires Distinct(segs)
    ensures g.height == |Levels(segs)|
    ensures forall s :: s in segs ==> s in g.fwd
    ensures forall s :: s in g.fwd ==> s in segs
    ensures Levels(segs) != [] ==> forall s :: s in Levels(segs)[0] ==> s in g.fwd && g.level[s] == 0
  {
    LevelsShape(segs);
    LevelsRoots(segs);
    GraphOf(Levels(segs))
  }

  lemma LevelsRoots(segs: seq<SlotSeg>)
    requires Disjoint(Levels(segs))
    ensures Levels(segs) != [] ==>
      forall s :: s in Levels(segs)[0] ==> Placed(Levels(segs), s) && LevelOf(Levels(segs), s) == 0
  {
    if Levels(segs) != [] {
      forall s | s in Levels(segs)[0] ensures Placed(Levels(segs), s) && LevelOf(Levels(segs), s) == 0 {
        LevelIs(Levels(segs), s, 0);
      }
    }
  }

  /** The forward segments of `s` are the colliding segments of later levels. */
  lemma GraphForward(segs: seq<SlotSeg>, s: SlotSeg, f: SlotSeg)
    requires Distinct(segs) && s in segs && f in segs
    ensures var g := CollisionGraph(segs); f in g.fwd[s] <==> Hits(s, f) && g.level[f] > g.level[s]
  {
    LevelsShape(segs);
    ForwardMembers(Levels(segs), s, f);
  }

  lemma RowApart(row: seq<SlotSeg>, a: SlotSeg, b: SlotSeg)
    requires RowFree(Hits, row) && a in row && b in row && a != b
    ensures !Hits(a, b)
  {
    var i :| 0 <= i < |row| && row[i] == a;
    var j :| 0 <= j < |row| && row[j] == b;
    assert i < j ==> !Hits(row[j], row[i]);
    assert j < i ==> !Hits(row[i], row[j]);
  }

  /** Colliding segments never share a level. */
  lemma CollidingLevels(segs: seq<SlotSeg>, a: SlotSeg, b: SlotSeg)
    requires Distinct(segs) && a in segs && b in segs && a != b && Hits(a, b)
    ensures var g := CollisionGraph(segs); g.level[a] != g.level[b]
  {
    LevelsShape(segs);
    BuildCollisionFree(Hits, segs);
    var g := CollisionGraph(segs);
    if g.level[a] == g.level[b] {
      RowApart(Levels(segs)[g.level[a]], a, b);
    }
  }

  /** A segment above level 0 is a forward segment of one a level below. */
  lemma HasPredecessor(segs: seq<SlotSeg>, s: SlotSeg) returns (o: SlotSeg)
    requires Disjoint(Levels(segs)) && Placed(Levels(segs), s) && LevelOf(Levels(segs), s) > 0
    ensures Placed(Levels(segs), o) && LevelOf(Levels(segs), o) == LevelOf(Levels(segs), s) - 1
    ensures s in Forward(Levels(segs), o)
  {
    var levels := Levels(segs);
    var k := LevelOf(levels, s);
    BuildFirstFitted(Hits, segs);
    assert TurnedAway(Hits, segs, levels[k - 1], s);
    o :| o in levels[k - 1] && Hits(s, o) && Earlier(segs, o, s);
    LevelIs(levels, o, k - 1);
    ForwardMembers(levels, o, s);
  }

  function LevelZero(levels: seq<seq<SlotSeg>>): seq<SlotSeg> {
    if |levels| > 0 then levels[0] else []
  }

  /** First fit leaves no segment unreachable from level 0. */
  lemma GraphRooted(segs: seq<SlotSeg>)
    requires Distinct(segs)
    ensures Rooted(CollisionGraph(segs), LevelZero(Levels(segs)))
  {
    LevelsShape(segs);
    var g := CollisionGraph(segs);
    forall s | s in g.fwd ensures s in LevelZero(Levels(segs)) || exists o :: o in g.fwd && s in g.fwd[o] {
      if g.level[s] > 0 {
        var o := HasPredecessor(segs, s);
        assert o in g.fwd && s in g.fwd[o];
      }
    }
  }
}
