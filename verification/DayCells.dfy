/** The conversions between grid cells, cell offsets and day offsets of a calendar view with
    hidden days. Days are integers; a weekday is a day modulo 7. */
module DayCells {
  import opened Wrappers

  /** The truncated remainder of the host language. */
  function Rem(a: int, b: int): int
    requires b > 0
  {
    if a >= 0 then a % b else -((-a) % b)
  }

  lemma WrapRem(a: int, b: int)
    requires b > 0
    ensures 0 <= Rem(a, b) + b && (Rem(a, b) + b) % b == a % b
  {
    if a < 0 {
      NegativeMod(a, b);
      var r := (-a) % b;
      Reduced(b - r, b);
    } else {
      var r := a % b;
      DivMod(r + b, b, 1, r);
    }
  }

  /** The remainder of a negated number. */
  lemma NegativeMod(a: int, b: int)
    requires b > 0
    ensures var r := (-a) % b; 0 <= r < b && a % b == if r == 0 then 0 else b - r
  {
    var q, r := (-a) / b, (-a) % b;
    Division(-a, b);
    if r == 0 {
      Product(-q, b, q);
      DivMod(a, b, -q, 0);
    } else {
      Product(-q - 1, b, q);
      DivMod(a, b, -q - 1, b - r);
    }
  }

  lemma Division(a: int, b: int)
    requires b > 0
    ensures a == a / b * b + a % b && 0 <= a % b < b
  {
  }

  lemma Product(p: int, b: int, q: int)
    ensures p * b == -(q * b) + (p + q) * b
  {
  }

  lemma Reduced(n: int, b: int)
    requires b > 0 && 0 <= n <= b
    ensures n % b == if n == b then 0 else n
  {
    if n == b { DivMod(n, b, 1, 0); } else { DivMod(n, b, 0, n); }
  }

  /** Quotient and remainder are unique. */
  lemma DivMod(a: int, b: int, q: int, r: int)
    requires b > 0 && a == q * b + r && 0 <= r < b
    ensures a / b == q && a % b == r
  {
    var d := a / b - q;
    assert d * b == r - a % b;
    Multiple(d, b);
  }

  lemma Multiple(d: int, b: int)
    requires b > 0
    ensures d >= 1 ==> d * b >= b
    ensures d <= -1 ==> d * b <= -b
  {
  }

  // --- the week ---

  /** The tables the view's initializer fills in: which weekdays are hidden, how many visible
      days precede each weekday, and the visible weekdays in order. */
  datatype Week = Week(isHidden: seq<bool>, dayToCell: seq<int>, cellToDay: seq<int>)

  /** How many of the first `n` weekdays are visible. */
  function VisibleBefore(isHidden: seq<bool>, n: nat): nat
    requires n <= |isHidden|
  {
    if n == 0 then 0 else VisibleBefore(isHidden, n - 1) + if isHidden[n - 1] then 0 else 1
  }

  ghost predicate Tables(w: Week, n: nat) {
    && |w.isHidden| == |w.dayToCell| == n && |w.cellToDay| == VisibleBefore(w.isHidden, n)
    && (forall d :: 0 <= d < n ==> w.dayToCell[d] == VisibleBefore(w.isHidden, d))
    && (forall c :: 0 <= c < |w.cellToDay| ==>
      0 <= w.cellToDay[c] < n && !w.isHidden[w.cellToDay[c]] && w.dayToCell[w.cellToDay[c]] == c)
  }

  ghost predicate ValidWeek(w: Week) {
    Tables(w, 7) && |w.cellToDay| > 0
  }

  /** The initializer; it throws when every day is hidden. */
  method InitWeek(hiddenDays: set<int>) returns (r: Option<Week>)
    ensures r.Some? <==> exists d :: 0 <= d < 7 && d !in hiddenDays
    ensures r.Some? ==> ValidWeek(r.value) && forall d :: 0 <= d < 7 ==> (r.value.isHidden[d] <==> d in hiddenDays)
  {
    var isHidden, dayToCell, cellToDay := [], [], [];
    assert Tables(Week(isHidden, dayToCell, cellToDay), 0);
    hide Tables;
    for dayIndex := 0 to 7
      invariant Tables(Week(isHidden, dayToCell, cellToDay), dayIndex) && |isHidden| == dayIndex
      invariant forall d :: 0 <= d < dayIndex ==> (isHidden[d] <==> d in hiddenDays)
      invariant cellToDay == [] <==> forall d :: 0 <= d < dayIndex ==> d in hiddenDays
    {
      TablesNext(isHidden, dayToCell, cellToDay, dayIndex in hiddenDays);
      dayToCell := dayToCell + [|cellToDay|];
      isHidden := isHidden + [dayIndex in hiddenDays];
      if dayIndex !in hiddenDays {
        cellToDay := cellToDay + [dayIndex];
      }
    }
    if |cellToDay| == 0 {
      return None;
    }
    r := Some(Week(isHidden, dayToCell, cellToDay));
  }

  /** One more day, hidden or not. */
  lemma TablesNext(isHidden: seq<bool>, dayToCell: seq<int>, cellToDay: seq<int>, h: bool)
    requires Tables(Week(isHidden, dayToCell, cellToDay), |isHidden|)
    ensures Tables(Week(isHidden + [h], dayToCell + [|cellToDay|], if h then cellToDay else cellToDay + [|isHidden|]),
                   |isHidden| + 1)
  {
    VisibleBeforeAppend(isHidden, h);
  }

  lemma VisibleBeforeAppend(isHidden: seq<bool>, h: bool)
    ensures forall d :: 0 <= d <= |isHidden| ==> VisibleBefore(isHidden + [h], d) == VisibleBefore(isHidden, d)
  {
    for d := 0 to |isHidden| + 1
      invariant forall e :: 0 <= e < d ==> VisibleBefore(isHidden + [h], e) == VisibleBefore(isHidden, e)
    {
    }
  }

  /** A week has at most seven visible days. */
  lemma AtMostSevenCells(w: Week)
    requires ValidWeek(w)
    ensures |w.cellToDay| <= 7
  {
    VisibleBeforeBound(w.isHidden, 7);
  }

  lemma {:induction false} VisibleBeforeBound(isHidden: seq<bool>, n: nat)
    requires n <= |isHidden|
    ensures VisibleBefore(isHidden, n) <= n
  {
    if n > 0 {
      VisibleBeforeBound(isHidden, n - 1);
    }
  }

  // --- absolute days ---

  predicate Visible(w: Week, n: int)
    requires |w.isHidden| == 7
  {
    !w.isHidden[n % 7]
  }

  /** Number of visible days in a..b. */
  function VisibleDays(w: Week, a: int, b: int): nat
    requires |w.isHidden| == 7
    decreases b - a
  {
    if b <= a then 0 else VisibleDays(w, a, b - 1) + if Visible(w, b - 1) then 1 else 0
  }

  /** Cells before day `n`, and the day of cell `k`, both counted from a week's first day. */
  function DayCell(w: Week, n: int): int
    requires |w.dayToCell| == 7
  {
    n / 7 * |w.cellToDay| + w.dayToCell[n % 7]
  }

  function CellDay(w: Week, k: int): int
    requires |w.cellToDay| > 0
  {
    k / |w.cellToDay| * 7 + w.cellToDay[k % |w.cellToDay|]
  }

  lemma NextDayCell(w: Week, n: int)
    requires ValidWeek(w)
    ensures DayCell(w, n + 1) == DayCell(w, n) + if Visible(w, n) then 1 else 0
  {
    var c := |w.cellToDay|;
    if n % 7 == 6 {
      assert (n + 1) / 7 == n / 7 + 1 && (n + 1) % 7 == 0;
      assert (n / 7 + 1) * c == n / 7 * c + c;
    } else {
      assert (n + 1) / 7 == n / 7 && (n + 1) % 7 == n % 7 + 1;
    }
  }

  /** Cells count visible days, also before the first week. */
  lemma {:induction false} DayCellCounts(w: Week, a: int, b: int)
    requires ValidWeek(w) && a <= b
    ensures DayCell(w, b) - DayCell(w, a) == VisibleDays(w, a, b)
    decreases b - a
  {
    if a < b {
      DayCellCounts(w, a, b - 1);
      NextDayCell(w, b - 1);
    }
  }

  /** The day of a cell is visible, and its cell is that cell again. */
  lemma CellDayCell(w: Week, k: int)
    requires ValidWeek(w)
    ensures Visible(w, CellDay(w, k)) && DayCell(w, CellDay(w, k)) == k
  {
    var c := |w.cellToDay|;
    var d := w.cellToDay[k % c];
    DivMod(CellDay(w, k), 7, k / c, d);
  }

  lemma {:induction false} NoneVisible(w: Week, a: int, b: int, n: int)
    requires |w.isHidden| == 7 && VisibleDays(w, a, b) == 0 && a <= n < b
    ensures !Visible(w, n)
    decreases b - a
  {
    if n < b - 1 { NoneVisible(w, a, b - 1, n); }
  }

  /** Going to the cell of a day and back finds the first visible day from there on. */
  lemma DayCellDay(w: Week, n: int)
    requires ValidWeek(w)
    ensures var v := CellDay(w, DayCell(w, n));
      v >= n && Visible(w, v) && forall u :: n <= u < v ==> !Visible(w, u)
  {
    var v := CellDay(w, DayCell(w, n));
    CellDayCell(w, DayCell(w, n));
    if v < n {
      DayCellCounts(w, v, n);
      NoneVisible(w, v, n, v);
    }
    DayCellCounts(w, n, v);
    forall u | n <= u < v ensures !Visible(w, u) { NoneVisible(w, n, v, u); }
  }

  /** Days and cells are ordered alike. */
  lemma CellDayOrder(w: Week, k: int, n: int)
    requires ValidWeek(w)
    ensures n <= CellDay(w, k) <==> DayCell(w, n) <= k
  {
    CellDayCell(w, k);
    var v := CellDay(w, k);
    if n <= v {
      DayCellCounts(w, n, v);
    } else {
      DayCellCounts(w, v + 1, n);
      NextDayCell(w, v);
    }
  }
}
