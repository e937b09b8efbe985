/** `Array.sort` of the host language: the stable sort by a comparator that is a weak order. */
module StableSort {

  /** `less` is a weak order on the members of `xs`. */
  ghost predicate WeakOrderOn<T>(less: (T, T) -> bool, xs: seq<T>) {
    && (forall a, b :: a in xs && b in xs && less(a, b) ==> !less(b, a))
    && (forall a, b, c :: a in xs && b in xs && c in xs && !less(b, a) && !less(c, b) ==> !less(c, a))
  }

  /** Puts `x` after every leading member that does not come after it. */
  function Insert<T>(less: (T, T) -> bool, xs: seq<T>, x: T): (r: seq<T>)
    ensures multiset(r) == multiset(xs) + multiset{x}
  {
    if xs == [] then [x]
    else
      var n := |xs| - 1;
      if less(x, xs[n]) then
        assert xs == xs[..n] + [xs[n]];
        Insert(less, xs[..n], x) + [xs[n]]
      else xs + [x]
  }

  lemma InsertEmpty<T>(less: (T, T) -> bool, x: T)
    ensures Insert(less, [], x) == [x]
  {
  }

  lemma InsertLast<T>(less: (T, T) -> bool, xs: seq<T>, y: T, x: T)
    ensures Insert(less, xs + [y], x) == if less(x, y) then Insert(less, xs, x) + [y] else xs + [y] + [x]
  {
    assert (xs + [y])[..|xs|] == xs;
  }

  function Sort<T>(less: (T, T) -> bool, xs: seq<T>): (r: seq<T>)
    ensures multiset(r) == multiset(xs)
  {
    if xs == [] then []
    else
      assert xs == xs[..|xs| - 1] + [xs[|xs| - 1]];
      Insert(less, Sort(less, xs[..|xs| - 1]), xs[|xs| - 1])
  }

  ghost predicate Sorted<T>(less: (T, T) -> bool, xs: seq<T>) {
    forall i, j :: 0 <= i < j < |xs| ==> !less(xs[j], xs[i])
  }

  lemma InsertMembers<T>(less: (T, T) -> bool, xs: seq<T>, x: T, y: T)
    ensures y in Insert(less, xs, x) <==> y in xs || y == x
  {
    assert y in Insert(less, xs, x) <==> y in multiset(Insert(less, xs, x));
    assert y in xs <==> y in multiset(xs);
  }

  lemma SortMembers<T>(less: (T, T) -> bool, xs: seq<T>, y: T)
    ensures y in Sort(less, xs) <==> y in xs
  {
    assert y in Sort(less, xs) <==> y in multiset(Sort(less, xs));
    assert y in xs <==> y in multiset(xs);
  }

  lemma {:induction false} InsertSorted<T>(less: (T, T) -> bool, xs: seq<T>, x: T)
    requires WeakOrderOn(less, xs + [x])
    requires Sorted(less, xs)
    ensures Sorted(less, Insert(less, xs, x))
  {
    if xs != [] {
      var n := |xs| - 1;
      assert forall y :: y in xs || y == x ==> y in xs + [x];
      if less(x, xs[n]) {
        assert forall y :: y in xs[..n] + [x] ==> y in xs + [x];
        InsertSorted(less, xs[..n], x);
        forall y | y in Insert(less, xs[..n], x) ensures !less(xs[n], y) {
          InsertMembers(less, xs[..n], x, y);
        }
      } else {
        forall i | 0 <= i < |xs| ensures !less(x, xs[i]) {
          assert i < n ==> !less(xs[n], xs[i]);
        }
      }
    }
  }

  /** The sort orders its input. */
  lemma {:induction false} SortSorted<T>(less: (T, T) -> bool, xs: seq<T>)
    requires WeakOrderOn(less, xs)
    ensures Sorted(less, Sort(less, xs))
  {
    if xs != [] {
      var ys := xs[..|xs| - 1];
      var x := xs[|xs| - 1];
      SortSorted(less, ys);
      forall y | y in Sort(less, ys) + [x] ensures y in xs {
        SortMembers(less, ys, y);
      }
      InsertSorted(less, Sort(less, ys), x);
    }
  }

  lemma SortLast<T>(less: (T, T) -> bool, xs: seq<T>, x: T)
    ensures Sort(less, xs + [x]) == Insert(less, Sort(less, xs), x)
  {
    assert (xs + [x])[..|xs|] == xs;
  }

  lemma InsertAtEnd<T>(less: (T, T) -> bool, xs: seq<T>, x: T)
    requires xs != [] ==> !less(x, xs[|xs| - 1])
    ensures Insert(less, xs, x) == xs + [x]
  {
    assert xs == [] ==> xs + [x] == [x];
  }

  /** The sort leaves an ordered input as it is. */
  lemma {:induction false} SortOfSorted<T>(less: (T, T) -> bool, xs: seq<T>)
    requires Sorted(less, xs)
    ensures Sort(less, xs) == xs
  {
    hide Insert;
    if xs != [] {
      var front, x := xs[..|xs| - 1], xs[|xs| - 1];
      assert xs == front + [x];
      SortOfSorted(less, front);
      SortLast(less, front, x);
      InsertAtEnd(less, front, x);
    }
  }

  // --- stability ---

  predicate Tied<T>(less: (T, T) -> bool, y: T, x: T) {
    !less(y, x) && !less(x, y)
  }

  /** The members that nothing tells from `x`, in their order. */
  function Ties<T>(less: (T, T) -> bool, xs: seq<T>, x: T): seq<T> {
    if xs == [] then []
    else Ties(less, xs[..|xs| - 1], x) + if Tied(less, xs[|xs| - 1], x) then [xs[|xs| - 1]] else []
  }

  lemma TiesAppend<T>(less: (T, T) -> bool, xs: seq<T>, y: T, x: T)
    ensures Ties(less, xs + [y], x) == Ties(less, xs, x) + if Tied(less, y, x) then [y] else []
  {
    assert (xs + [y])[..|xs|] == xs;
  }

  lemma {:induction false} InsertTies<T>(less: (T, T) -> bool, xs: seq<T>, y: T, x: T, all: seq<T>)
    requires WeakOrderOn(less, all) && x in all && y in all && forall z :: z in xs ==> z in all
    ensures Ties(less, Insert(less, xs, y), x) == Ties(less, xs, x) + if Tied(less, y, x) then [y] else []
  {
    hide Insert, Ties;
    if xs == [] {
      InsertEmpty(less, y);
      TiesAppend(less, [], y, x);
      assert [] + [y] == [y];
    } else {
      var front, last := xs[..|xs| - 1], xs[|xs| - 1];
      assert xs == front + [last];
      assert last in xs;
      InsertLast(less, front, last, y);
      TiesAppend(less, front, last, x);
      if less(y, last) {
        InsertTies(less, front, y, x, all);
        TiesAppend(less, Insert(less, front, y), last, x);
      } else {
        TiesAppend(less, xs, y, x);
      }
    }
  }

  /** The sort keeps the order of members that nothing tells apart. */
  lemma {:induction false} SortStable<T>(less: (T, T) -> bool, xs: seq<T>, x: T)
    requires WeakOrderOn(less, xs) && x in xs
    ensures Ties(less, Sort(less, xs), x) == Ties(less, xs, x)
  {
    SortTies(less, xs, x, xs);
  }

  lemma {:induction false} SortTies<T>(less: (T, T) -> bool, xs: seq<T>, x: T, all: seq<T>)
    requires WeakOrderOn(less, all) && x in all && forall z :: z in xs ==> z in all
    ensures Ties(less, Sort(less, xs), x) == Ties(less, xs, x)
  {
    hide Insert, Ties;
    if xs != [] {
      var front, last := xs[..|xs| - 1], xs[|xs| - 1];
      assert xs == front + [last] && last in xs;
      SortTies(less, front, x, all);
      SortLast(less, front, last);
      forall z | z in Sort(less, front)
        ensures z in all
      {
        SortMembers(less, front, z);
      }
      InsertTies(less, Sort(less, front), last, x, all);
      TiesAppend(less, front, last, x);
    }
  }
}
