/** First-fit placement, as both the agenda slots and the all-day rows of the calendar use it:
    each item goes to the first level none of whose members it hits, or to a new last level. */
module FirstFit {
  import opened Sequences

  /** The members of `others` that `x` hits, in order. */
  function Collisions<T>(hit: (T, T) -> bool, x: T, others: seq<T>): (r: seq<T>)
    ensures forall o :: o in r ==> o in others && hit(x, o)
    ensures forall o :: o in others && hit(x, o) ==> o in r
  {
    if others == [] then []
    else
      var n := |others| - 1;
      Collisions(hit, x, others[..n]) + if hit(x, others[n]) then [others[n]] else []
  }

  /** The first level at or after `j` that `x` fits into; |levels| when there is none. */
  function FittingLevel<T>(hit: (T, T) -> bool, x: T, levels: seq<seq<T>>, j: nat): (k: nat)
    requires j <= |levels|
    ensures j <= k <= |levels|
    ensures k < |levels| ==> forall o :: o in levels[k] ==> !hit(x, o)
    ensures forall i :: j <= i < k ==> exists o :: o in levels[i] && hit(x, o)
    decreases |levels| - j
  {
    if j == |levels| || Collisions(hit, x, levels[j]) == [] then
      j
    else
      assert Collisions(hit, x, levels[j])[0] in Collisions(hit, x, levels[j]);
      FittingLevel(hit, x, levels, j + 1)
  }

  function Append<T>(levels: seq<seq<T>>, k: nat, x: T): seq<seq<T>>
    requires k <= |levels|
  {
    if k < |levels| then levels[k := levels[k] + [x]] else levels + [[x]]
  }

  function Build<T>(hit: (T, T) -> bool, xs: seq<T>): seq<seq<T>> {
    if xs == [] then []
    else
      var n := |xs| - 1;
      var levels := Build(hit, xs[..n]);
      Append(levels, FittingLevel(hit, xs[n], levels, 0), xs[n])
  }

  lemma BuildAppend<T>(hit: (T, T) -> bool, xs: seq<T>, x: T)
    ensures Build(hit, xs + [x]) == Append(Build(hit, xs), FittingLevel(hit, x, Build(hit, xs), 0), x)
  {
    assert (xs + [x])[..|xs|] == xs;
  }

  lemma BuildNone<T>(hit: (T, T) -> bool)
    ensures Build(hit, []) == []
  {
  }

  function Flatten<T>(levels: seq<seq<T>>): seq<T> {
    if levels == [] then [] else Flatten(levels[..|levels| - 1]) + levels[|levels| - 1]
  }

  /** No member of a level hits an earlier member of it. */
  ghost predicate CollisionFree<T>(hit: (T, T) -> bool, levels: seq<seq<T>>) {
    forall k :: 0 <= k < |levels| ==> RowFree(hit, levels[k])
  }

  ghost predicate RowFree<T>(hit: (T, T) -> bool, row: seq<T>) {
    forall a, b :: 0 <= a < b < |row| ==> !hit(row[b], row[a])
  }

  /** `o` occurs in `xs` before some occurrence of `x`. */
  ghost predicate Earlier<T>(xs: seq<T>, o: T, x: T) {
    exists a, b :: 0 <= a < b < |xs| && xs[a] == o && xs[b] == x
  }

  /** `x` was turned away from `level` by an item that came before it. */
  ghost predicate TurnedAway<T>(hit: (T, T) -> bool, xs: seq<T>, level: seq<T>, x: T) {
    exists o :: o in level && hit(x, o) && Earlier(xs, o, x)
  }

  ghost predicate FirstFitted<T>(hit: (T, T) -> bool, xs: seq<T>, levels: seq<seq<T>>) {
    forall k, i, x :: 0 <= i < k < |levels| && x in levels[k] ==> TurnedAway(hit, xs, levels[i], x)
  }

  ghost predicate Within<T>(levels: seq<seq<T>>, xs: seq<T>) {
    forall k, x :: 0 <= k < |levels| && x in levels[k] ==> x in xs
  }

  lemma {:induction false} FlattenAppend<T>(levels: seq<seq<T>>, k: nat, x: T)
    requires k <= |levels|
    ensures multiset(Flatten(Append(levels, k, x))) == multiset(Flatten(levels)) + multiset{x}
  {
    var ls := Append(levels, k, x);
    var n := |levels| - 1;
    if k == |levels| {
      assert ls[..|ls| - 1] == levels;
    } else if k == n {
      assert ls[..n] == levels[..n];
    } else {
      FlattenAppend(levels[..n], k, x);
      assert ls[..n] == Append(levels[..n], k, x);
    }
  }

  /** Nothing is lost and nothing is duplicated. */
  lemma {:induction false} BuildIsPermutation<T>(hit: (T, T) -> bool, xs: seq<T>)
    ensures multiset(Flatten(Build(hit, xs))) == multiset(xs)
  {
    if xs != [] {
      var n := |xs| - 1;
      BuildIsPermutation(hit, xs[..n]);
      var levels := Build(hit, xs[..n]);
      var k := FittingLevel(hit, xs[n], levels, 0);
      assert Build(hit, xs) == Append(levels, k, xs[n]);
      FlattenAppend(levels, k, xs[n]);
      SplitLast(xs);
    }
  }

  lemma SplitLast<T>(xs: seq<T>)
    requires xs != []
    ensures multiset(xs) == multiset(xs[..|xs| - 1]) + multiset{xs[|xs| - 1]}
  {
    assert xs == xs[..|xs| - 1] + [xs[|xs| - 1]];
  }

  lemma {:induction false} FlattenMembers<T>(levels: seq<seq<T>>, x: T)
    ensures x in Flatten(levels) <==> exists k :: 0 <= k < |levels| && x in levels[k]
  {
    if levels != [] {
      var n := |levels| - 1;
      FlattenMembers(levels[..n], x);
      if k :| 0 <= k < |levels| && x in levels[k] {
        assert k < n ==> x in levels[..n][k];
      }
    }
  }

  lemma {:induction false} BuildCollisionFree<T>(hit: (T, T) -> bool, xs: seq<T>)
    ensures CollisionFree(hit, Build(hit, xs))
    ensures forall k :: 0 <= k < |Build(hit, xs)| ==> Build(hit, xs)[k] != []
  {
    if xs != [] {
      var n := |xs| - 1;
      BuildCollisionFree(hit, xs[..n]);
      var levels := Build(hit, xs[..n]);
      var k := FittingLevel(hit, xs[n], levels, 0);
      var r := Append(levels, k, xs[n]);
      forall i | 0 <= i < |r| ensures RowFree(hit, r[i]) && r[i] != [] {
        if i != k { assert r[i] == levels[i]; }
      }
    }
  }

  lemma {:induction false} BuildFirstFitted<T>(hit: (T, T) -> bool, xs: seq<T>)
    ensures Within(Build(hit, xs), xs)
    ensures FirstFitted(hit, xs, Build(hit, xs))
  {
    if xs != [] {
      var n := |xs| - 1;
      var ys := xs[..n];
      BuildFirstFitted(hit, ys);
      var levels := Build(hit, ys);
      var k := FittingLevel(hit, xs[n], levels, 0);
      var r := Append(levels, k, xs[n]);
      assert forall y :: y in ys ==> y in xs;
      forall j, i, x | 0 <= i < j < |r| && x in r[j] ensures TurnedAway(hit, xs, r[i], x) {
        if j < |levels| && x in levels[j] {
          assert TurnedAway(hit, ys, levels[i], x);
          var o :| o in levels[i] && hit(x, o) && Earlier(ys, o, x);
          var a, b :| 0 <= a < b < |ys| && ys[a] == o && ys[b] == x;
          assert xs[a] == o && xs[b] == x;
          assert o in r[i];
        } else {
          assert x == xs[n] && j == k;
          var o :| o in levels[i] && hit(x, o);
          assert o in ys;
          var a :| 0 <= a < |ys| && ys[a] == o;
          assert xs[a] == o && xs[n] == x;
          assert o in r[i];
        }
      }
    }
  }

  ghost predicate InOrder<T>(xs: seq<T>, level: seq<T>) {
    forall a, b :: 0 <= a < b < |level| ==> Earlier(xs, level[a], level[b])
  }

  /** Within a level, members keep the order they came in. */
  lemma {:induction false} BuildInOrder<T>(hit: (T, T) -> bool, xs: seq<T>)
    ensures forall k :: 0 <= k < |Build(hit, xs)| ==> InOrder(xs, Build(hit, xs)[k])
  {
    if xs != [] {
      hide InOrder, FittingLevel;
      var ys, y := xs[..|xs| - 1], xs[|xs| - 1];
      assert xs == ys + [y];
      BuildInOrder(hit, ys);
      BuildFirstFitted(hit, ys);
      BuildAppend(hit, ys, y);
      hide Build;
      AppendInOrder(Build(hit, ys), FittingLevel(hit, y, Build(hit, ys), 0), ys, y);
    }
  }

  lemma AppendInOrder<T>(levels: seq<seq<T>>, j: nat, xs: seq<T>, y: T)
    requires j <= |levels| && Within(levels, xs) && forall k :: 0 <= k < |levels| ==> InOrder(xs, levels[k])
    ensures forall k :: 0 <= k < |Append(levels, j, y)| ==> InOrder(xs + [y], Append(levels, j, y)[k])
  {
    hide InOrder;
    InOrderOne(xs + [y], y);
    forall k | 0 <= k < |levels|
      ensures InOrder(xs + [y], levels[k]) && InOrder(xs + [y], levels[k] + [y])
    {
      InOrderMore(levels[k], xs, y);
    }
  }

  lemma InOrderOne<T>(xs: seq<T>, y: T)
    ensures InOrder(xs, [y])
  {
  }

  lemma InOrderMore<T>(level: seq<T>, xs: seq<T>, y: T)
    requires InOrder(xs, level) && forall x :: x in level ==> x in xs
    ensures InOrder(xs + [y], level) && InOrder(xs + [y], level + [y])
  {
    hide Earlier;
    forall a, b | 0 <= a < b < |level + [y]|
      ensures Earlier(xs + [y], (level + [y])[a], (level + [y])[b])
    {
      if b < |level| {
        EarlierInMore(xs, y, level[a], level[b]);
      } else {
        EarlierThanLast(xs, y, level[a]);
      }
    }
    forall a, b | 0 <= a < b < |level|
      ensures Earlier(xs + [y], level[a], level[b])
    {
      EarlierInMore(xs, y, level[a], level[b]);
    }
  }

  lemma EarlierInMore<T>(xs: seq<T>, y: T, a: T, b: T)
    requires Earlier(xs, a, b)
    ensures Earlier(xs + [y], a, b)
  {
    var i, j :| 0 <= i < j < |xs| && xs[i] == a && xs[j] == b;
    assert (xs + [y])[i] == a && (xs + [y])[j] == b;
  }

  lemma EarlierThanLast<T>(xs: seq<T>, y: T, a: T)
    requires a in xs
    ensures Earlier(xs + [y], a, y)
  {
    var i :| 0 <= i < |xs| && xs[i] == a;
    assert (xs + [y])[i] == a && (xs + [y])[|xs|] == y;
  }

  lemma AppendDisjoint<T>(levels: seq<seq<T>>, k: nat, y: T, i: nat, j: nat, x: T)
    requires k <= |levels| && i < j < |Append(levels, k, y)|
    requires x in Append(levels, k, y)[i] && x in Append(levels, k, y)[j]
    requires forall l :: 0 <= l < |levels| ==> y !in levels[l]
    ensures j < |levels| && x in levels[i] && x in levels[j]
  {
  }

  /** With distinct items every item sits in exactly one level. */
  lemma {:induction false} BuildDisjoint<T>(hit: (T, T) -> bool, xs: seq<T>, i: nat, j: nat, x: T)
    requires Distinct(xs)
    requires i < j < |Build(hit, xs)| && x in Build(hit, xs)[i]
    ensures x !in Build(hit, xs)[j]
  {
    if x in Build(hit, xs)[j] {
      var n := |xs| - 1;
      var levels := Build(hit, xs[..n]);
      forall l | 0 <= l < |levels| ensures xs[n] !in levels[l] {
        BuildFirstFitted(hit, xs[..n]);
        assert xs[n] !in xs[..n];
      }
      AppendDisjoint(levels, FittingLevel(hit, xs[n], levels, 0), xs[n], i, j, x);
      BuildDisjoint(hit, xs[..n], i, j, x);
    }
  }
}
