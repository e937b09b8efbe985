/** What placeSlotSegs guarantees about the segments it is given. */
module SlotGuarantees {
  import opened Sequences
  import opened SlotSegs
  import opened SlotGraph
  import opened SlotCoords
  import opened SlotLevels
  import opened SlotTheorems
  import opened SlotExact
  import opened SlotLayout

  lemma LayoutUnfold(segs: seq<SlotSeg>)
    requires Distinct(segs)
    ensures Rooted(CollisionGraph(segs), LevelZero(Levels(segs)))
    ensures LayoutOf(segs) == Layout(CollisionGraph(segs), LevelZero(Levels(segs)))
  {
    GraphRooted(segs);
  }

  /** Coordinates lie in [0, 1]; a segment ends at 1 when nothing collides ahead of it, else
      where a strongest forward segment begins. */
  lemma CoordinatesSound(segs: seq<SlotSeg>, s: SlotSeg)
    requires Distinct(segs) && s in segs
    ensures UnitInterval(LayoutOf(segs)[s])
    ensures EndOf(CollisionGraph(segs), s, LayoutOf(segs)[s].forward, LayoutOf(segs))
  {
    LayoutUnfold(segs);
    LayoutSound(CollisionGraph(segs), LevelZero(Levels(segs)));
    assert s in LayoutOf(segs);
  }

  /** `a` and `b` do not share horizontal space. */
  predicate Apart(a: Coord, b: Coord) {
    a.forward <= b.backward || b.forward <= a.backward
  }

  /** With at most two levels, colliding segments never overlap. */
  lemma ApartUpToTwoLevels(segs: seq<SlotSeg>, a: SlotSeg, b: SlotSeg)
    requires Distinct(segs) && |Levels(segs)| <= 2
    requires a in segs && b in segs && a != b && Hits(a, b)
    ensures Apart(LayoutOf(segs)[a], LayoutOf(segs)[b])
  {
    var g := CollisionGraph(segs);
    LayoutUnfold(segs);
    LayoutHalves(g, LevelZero(Levels(segs)));
    assert a in LayoutOf(segs) && b in LayoutOf(segs);
    CollidingLevels(segs, a, b);
    if g.level[a] < g.level[b] {
      GraphForward(segs, a, b);
      HalvesApart(g, LayoutOf(segs), a, b);
    } else {
      GraphForward(segs, b, a);
      HalvesApart(g, LayoutOf(segs), b, a);
    }
  }

  /** ... which a caller can read off the input: at most two segments share any instant. */
  lemma ApartUpToTwoConcurrent(segs: seq<SlotSeg>, a: SlotSeg, b: SlotSeg)
    requires Distinct(segs) && StartOrdered(segs) && Proper(segs)
    requires forall t :: |ActiveAt(segs, t)| <= 2
    requires a in segs && b in segs && a != b && Hits(a, b)
    ensures Apart(LayoutOf(segs)[a], LayoutOf(segs)[b])
  {
    var t := LevelsAreNeeded(segs);
    ApartUpToTwoLevels(segs, a, b);
  }

  // --- n mutually colliding segments ---

  ghost predicate AllHit(segs: seq<SlotSeg>) {
    forall i, j :: 0 <= i < j < |segs| ==> Hits(segs[i], segs[j])
  }

  function Singletons(segs: seq<SlotSeg>): seq<seq<SlotSeg>> {
    seq(|segs|, i requires 0 <= i < |segs| => [segs[i]])
  }

  lemma {:induction false} LevelsOfClique(segs: seq<SlotSeg>)
    requires AllHit(segs)
    ensures Levels(segs) == Singletons(segs)
  {
    if segs != [] {
      var n := |segs| - 1;
      var levels := Levels(segs[..n]);
      LevelsOfClique(segs[..n]);
      forall k | 0 <= k < n ensures segs[k] in levels[k] && Hits(segs[n], segs[k]) {
        assert Hits(segs[k], segs[n]);
      }
    }
  }

  lemma GraphOfClique(segs: seq<SlotSeg>)
    requires Distinct(segs) && AllHit(segs)
    ensures Clique(CollisionGraph(segs), segs)
    ensures segs != [] ==> LevelZero(Levels(segs)) == [segs[0]]
  {
    LevelsOfClique(segs);
    LevelsShape(segs);
    var g := CollisionGraph(segs);
    forall i | 0 <= i < |segs| ensures segs[i] in g.fwd && g.level[segs[i]] == i {
      assert segs[i] in Levels(segs)[i];
      LevelIs(Levels(segs), segs[i], i);
    }
    forall i, j | 0 <= i < j < |segs| ensures segs[j] in g.fwd[segs[i]] {
      GraphForward(segs, segs[i], segs[j]);
    }
    forall s | s in g.fwd ensures segs[g.level[s]] == s {
      assert s in Levels(segs)[g.level[s]];
    }
  }

  /** n mutually colliding segments get exactly [i/n, (i + 1)/n]. */
  lemma CliqueSharesEqually(segs: seq<SlotSeg>, i: nat)
    requires Distinct(segs) && AllHit(segs) && i < |segs|
    ensures segs[i] in LayoutOf(segs)
    ensures LayoutOf(segs)[segs[i]] == Coord(i as real / |segs| as real, (i + 1) as real / |segs| as real)
  {
    GraphOfClique(segs);
    LayoutUnfold(segs);
    EqualShares(|segs|);
    CliqueLayout(CollisionGraph(segs), EqualShare(|segs|), segs, i);
  }
}
