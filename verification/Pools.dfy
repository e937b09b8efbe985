/** The connection pool as a value: its slots, its limit, and how far the driver has been asked. */
module Pools {
  import opened Sequences
  import opened Wrappers

  /** Connections are numbered by the attempt that opened them, so a new one differs from all before. */
  type Connection = nat

  datatype Slot = Slot(connection: Connection, busy: bool)

  /** The driver decides which attempts to open succeed and which tests find a connection alive; `limit` is the number
      of connections its metadata reports, 0 when unknown. */
  datatype Driver = Driver(opens: nat -> bool, alive: nat -> bool, limit: int)

  datatype Pool = Pool(slots: seq<Slot>, max: int, attempts: nat, tests: nat)

  // --- the operations ---

  predicate Full(p: Pool) {
    p.max > 0 && |p.slots| >= p.max
  }

  /** Opening into an empty pool lowers the limit to the driver's. */
  function NewConnection(d: Driver, p: Pool): (Pool, Option<Connection>) {
    var asked := p.(attempts := p.attempts + 1);
    if !d.opens(p.attempts) then (asked, None)
    else (asked.(max := if |p.slots| == 0 && 0 < d.limit < p.max then d.limit else p.max), Some(p.attempts))
  }

  function CreateConnections(d: Driver, p: Pool, n: int): Pool
    decreases n
  {
    if n <= 0 || Full(p) then p
    else
      var (q, c) := NewConnection(d, p);
      CreateConnections(d, if c.Some? then q.(slots := q.slots + [Slot(c.value, false)]) else q, n - 1)
  }

  predicate AllBusy(slots: seq<Slot>) {
    forall i :: 0 <= i < |slots| ==> slots[i].busy
  }

  /** The first slot that is not busy, or the number of slots. */
  function FirstFree(slots: seq<Slot>): (i: nat)
    ensures i <= |slots| && AllBusy(slots[..i])
    ensures i < |slots| ==> !slots[i].busy
  {
    if slots == [] || !slots[0].busy then 0
    else
      var i := FirstFree(slots[1..]);
      assert slots[..i + 1] == [slots[0]] + slots[1..][..i];
      i + 1
  }

  /** The free slot becomes busy before its connection is tested, and stays so when a dead one cannot be replaced. */
  function FindFreeConnection(d: Driver, p: Pool): (Pool, Option<Connection>) {
    var i := FirstFree(p.slots);
    if i == |p.slots| then (p, None)
    else
      var c := p.slots[i].connection;
      var claimed := p.(slots := p.slots[i := Slot(c, true)], tests := p.tests + 1);
      if d.alive(p.tests) then (claimed, Some(c))
      else
        var (q, renewed) := NewConnection(d, claimed);
        if renewed.None? then (q, None)
        else (q.(slots := q.slots[i := Slot(renewed.value, true)]), renewed)
  }

  function GetFreeConnection(d: Driver, p: Pool, increment: int): (Pool, Option<Connection>) {
    var (q, c) := FindFreeConnection(d, p);
    if c.Some? then (q, c) else FindFreeConnection(d, CreateConnections(d, q, increment))
  }

  /** The slot that holds the connection becomes free; an unknown connection is ignored. */
  function ReturnConnection(slots: seq<Slot>, c: Connection): seq<Slot> {
    if slots == [] then []
    else if slots[0].connection == c then [Slot(c, false)] + slots[1..]
    else [slots[0]] + ReturnConnection(slots[1..], c)
  }

  // --- what they keep ---

  /** No connection sits in two slots, and none is newer than the last attempt. */
  ghost predicate Sound(p: Pool) {
    && (forall i, j :: 0 <= i < j < |p.slots| ==> p.slots[i].connection != p.slots[j].connection)
    && (forall i :: 0 <= i < |p.slots| ==> p.slots[i].connection < p.attempts)
  }

  /** With a positive limit the pool stays within it, and within the driver's own. */
  ghost predicate Capped(d: Driver, p: Pool) {
    p.max > 0 ==> |p.slots| <= p.max && (p.slots != [] && d.limit > 0 ==> p.max <= d.limit)
  }

  /** Opening asks the driver once; into an empty pool it brings the limit down to the driver's own, if that is
      known. */
  lemma NewConnectionLimits(d: Driver, p: Pool)
    ensures var (q, c) := NewConnection(d, p);
      && c == (if d.opens(p.attempts) then Some(p.attempts) else None)
      && q == p.(attempts := p.attempts + 1, max := q.max)
      && (c.Some? && p.slots == [] && d.limit > 0 ==> q.max <= d.limit && (q.max == p.max || q.max == d.limit))
      && (c.None? || p.slots != [] || d.limit <= 0 || p.max <= d.limit ==> q.max == p.max)
  {
  }

  /** The connections that the attempts from..to open, in free slots. */
  function NewSlots(d: Driver, from: nat, to: nat): seq<Slot>
    decreases to
  {
    if to <= from then []
    else NewSlots(d, from, to - 1) + if d.opens(to - 1) then [Slot(to - 1, false)] else []
  }

  lemma {:induction false} NewSlotsFront(d: Driver, from: nat, to: nat)
    requires from < to
    ensures NewSlots(d, from, to) == (if d.opens(from) then [Slot(from, false)] else []) + NewSlots(d, from + 1, to)
  {
    NewSlotsBack(d, from, to);
    NewSlotsBack(d, from + 1, to);
    hide NewSlots;
    if from + 1 < to {
      NewSlotsFront(d, from, to - 1);
      Assoc(if d.opens(from) then [Slot(from, false)] else [], NewSlots(d, from + 1, to - 1),
            if d.opens(to - 1) then [Slot(to - 1, false)] else []);
    } else {
      assert [] + (if d.opens(from) then [Slot(from, false)] else [])
          == (if d.opens(from) then [Slot(from, false)] else []) + [];
    }
  }

  lemma NewSlotsBack(d: Driver, from: nat, to: nat)
    ensures to <= from ==> NewSlots(d, from, to) == []
    ensures NewSlots(d, from, from) == []
    ensures from < to ==>
      NewSlots(d, from, to) == NewSlots(d, from, to - 1) + (if d.opens(to - 1) then [Slot(to - 1, false)] else [])
  {
  }

  /** createConnections makes `n` attempts, fewer only when the pool is full before, and adds a free slot for each
      attempt that succeeds, in their order. */
  lemma {:induction false} CreateAttempts(d: Driver, p: Pool, n: int)
    ensures var q := CreateConnections(d, p, n);
      && p.attempts <= q.attempts <= p.attempts + (if n > 0 then n else 0)
      && (q.attempts == p.attempts + (if n > 0 then n else 0) || Full(q))
      && q.slots == p.slots + NewSlots(d, p.attempts, q.attempts)
    decreases n
  {
    CreateUnfold(d, p, n);
    hide CreateConnections;
    if n > 0 && !Full(p) {
      var (q, c) := NewConnection(d, p);
      var r := if c.Some? then q.(slots := q.slots + [Slot(c.value, false)]) else q;
      CreateAttempts(d, r, n - 1);
      NewSlotsFront(d, p.attempts, CreateConnections(d, r, n - 1).attempts);
    }
  }

  lemma CreateUnfold(d: Driver, p: Pool, n: int)
    ensures CreateConnections(d, p, n) ==
      if n <= 0 || Full(p) then p
      else
        var (q, c) := NewConnection(d, p);
        CreateConnections(d, if c.Some? then q.(slots := q.slots + [Slot(c.value, false)]) else q, n - 1)
  {
  }

  lemma {:induction false} CreateKeeps(d: Driver, p: Pool, n: int)
    requires Sound(p) && Capped(d, p)
    ensures var q := CreateConnections(d, p, n);
      && Sound(q) && Capped(d, q) && p.slots <= q.slots && |q.slots| <= |p.slots| + (if n > 0 then n else 0)
      && (q.max > 0 <==> p.max > 0) && q.max <= p.max && q.attempts >= p.attempts && q.tests == p.tests
      && (forall i :: |p.slots| <= i < |q.slots| ==> !q.slots[i].busy && q.slots[i].connection >= p.attempts)
    decreases n
  {
    CreateUnfold(d, p, n);
    hide CreateConnections;
    if n > 0 && !Full(p) {
      var (q, c) := NewConnection(d, p);
      CreateKeeps(d, if c.Some? then q.(slots := q.slots + [Slot(c.value, false)]) else q, n - 1);
    }
  }

  /** When opening never fails, the pool grows by `n` or up to its limit. */
  lemma {:induction false} CreateGrows(d: Driver, p: Pool, n: nat)
    requires Capped(d, p) && forall k :: d.opens(k)
    ensures var q := CreateConnections(d, p, n);
      (|q.slots| == |p.slots| + n || Full(q)) && |q.slots| >= |p.slots| && (n > 0 && !Full(p) ==> |q.slots| > |p.slots|)
    decreases n
  {
    if n > 0 && !Full(p) {
      var (q, c) := NewConnection(d, p);
      CreateGrows(d, q.(slots := q.slots + [Slot(c.value, false)]), n - 1);
    }
  }

  lemma FindKeeps(d: Driver, p: Pool)
    requires Sound(p) && Capped(d, p)
    ensures var (q, c) := FindFreeConnection(d, p);
      && Sound(q) && Capped(d, q) && |q.slots| == |p.slots| && q.max == p.max && q.attempts >= p.attempts
  {
  }

  /** What a search hands out: the connection of the first free slot if its test finds it alive, else a new one if one
      can be opened, else nothing. One test is made, and one attempt to open when it fails. */
  lemma FoundWasChecked(d: Driver, p: Pool)
    ensures var (q, c) := FindFreeConnection(d, p); var i := FirstFree(p.slots);
      && (i == |p.slots| ==> (q, c) == (p, None))
      && (i < |p.slots| && d.alive(p.tests) ==> c == Some(p.slots[i].connection) && q.attempts == p.attempts)
      && (i < |p.slots| && !d.alive(p.tests) ==> c == if d.opens(p.attempts) then Some(p.attempts) else None)
      && (i < |p.slots| && !d.alive(p.tests) ==> q.attempts == p.attempts + 1)
      && (i < |p.slots| ==> q.tests == p.tests + 1)
  {
  }

  /** A connection getFreeConnection hands out was found alive by the last test made, or comes from the last attempt to
      open one, which succeeded after that test had failed. */
  lemma GotWasChecked(d: Driver, p: Pool, increment: int)
    ensures var (q, c) := GetFreeConnection(d, p, increment);
      c.Some? ==>
        && q.tests > p.tests
        && (d.alive(q.tests - 1) || (c.value == q.attempts - 1 && d.opens(c.value)))
        && (d.alive(q.tests - 1) ==> exists i :: 0 <= i < |q.slots| && q.slots[i] == Slot(c.value, true))
  {
    FoundWasChecked(d, p);
    var (q, c) := FindFreeConnection(d, p);
    if c.Some? {
      FoundSits(d, p);
    } else {
      CreateTestsNothing(d, q, increment);
      FoundWasChecked(d, CreateConnections(d, q, increment));
      FoundSits(d, CreateConnections(d, q, increment));
    }
  }

  lemma FoundSits(d: Driver, p: Pool)
    ensures var (q, c) := FindFreeConnection(d, p);
      c.Some? ==> exists i :: 0 <= i < |q.slots| && q.slots[i] == Slot(c.value, true)
  {
    var (q, c) := FindFreeConnection(d, p);
    if c.Some? {
      assert q.slots[FirstFree(p.slots)] == Slot(c.value, true);
    }
  }

  lemma {:induction false} CreateTestsNothing(d: Driver, p: Pool, n: int)
    ensures CreateConnections(d, p, n).tests == p.tests
    decreases n
  {
    if n > 0 && !Full(p) {
      var (q, c) := NewConnection(d, p);
      CreateTestsNothing(d, if c.Some? then q.(slots := q.slots + [Slot(c.value, false)]) else q, n - 1);
    }
  }

  /** A connection handed out sits in exactly one slot, which was free and is busy now; it is the one that was there or
      a new one. All other slots are as they were. */
  lemma FoundIn(d: Driver, p: Pool)
    requires Sound(p)
    ensures var (q, c) := FindFreeConnection(d, p); var i := FirstFree(p.slots);
      c.Some? ==>
        && i < |p.slots| && q.slots == p.slots[i := Slot(c.value, true)] && !p.slots[i].busy
        && (c.value == p.slots[i].connection || c.value == p.attempts)
  {
  }

  /** getFreeConnection keeps the pool sound and within its limit, whatever the driver does. */
  lemma GetKeeps(d: Driver, p: Pool, increment: int)
    requires Sound(p) && Capped(d, p)
    ensures var (q, c) := GetFreeConnection(d, p, increment);
      && Sound(q) && Capped(d, q) && (q.max > 0 <==> p.max > 0) && q.max <= p.max
      && |p.slots| <= |q.slots| <= |p.slots| + (if increment > 0 then increment else 0)
  {
    FindKeeps(d, p);
    var (q, c) := FindFreeConnection(d, p);
    CreateKeeps(d, q, increment);
    FindKeeps(d, CreateConnections(d, q, increment));
  }

  /** If opening never fails and the increment is positive: null exactly when every slot was busy and the pool full,
      and then nothing has changed. */
  lemma NullExactlyWhenExhausted(d: Driver, p: Pool, increment: int)
    requires Sound(p) && Capped(d, p) && increment > 0 && forall k :: d.opens(k)
    ensures var (q, c) := GetFreeConnection(d, p, increment);
      && (c.None? <==> AllBusy(p.slots) && Full(p))
      && (c.None? ==> q == p)
  {
    if FirstFree(p.slots) == |p.slots| {
      assert p.slots[..|p.slots|] == p.slots;
      CreateKeeps(d, p, increment);
      CreateGrows(d, p, increment);
      var q := CreateConnections(d, p, increment);
      if !Full(p) {
        assert |q.slots| > |p.slots| && !q.slots[|p.slots|].busy;
        assert FirstFree(q.slots) < |q.slots| by {
          assert q.slots[..|q.slots|] == q.slots;
        }
      }
    } else {
      assert !p.slots[FirstFree(p.slots)].busy;
    }
  }

  /** The pool grows only when no slot was free, or when the free one was dead and could not be replaced. */
  lemma GrowsOnlyWhenNoneFree(d: Driver, p: Pool, increment: int)
    requires Sound(p) && Capped(d, p)
    ensures var (q, c) := GetFreeConnection(d, p, increment);
      |q.slots| > |p.slots| ==> AllBusy(p.slots) || (!d.alive(p.tests) && !d.opens(p.attempts))
  {
    assert p.slots[..|p.slots|] == p.slots;
    var (q, c) := FindFreeConnection(d, p);
    if c.None? {
      CreateKeeps(d, q, increment);
    }
  }

  /** Returning what was handed out makes its slot free again and touches no other. */
  lemma {:induction false} ReturnedAt(slots: seq<Slot>, c: Connection, i: nat)
    requires i < |slots| && slots[i].connection == c
    requires forall j :: 0 <= j < i ==> slots[j].connection != c
    ensures ReturnConnection(slots, c) == slots[i := Slot(c, false)]
  {
    if i > 0 {
      ReturnedAt(slots[1..], c, i - 1);
      assert slots[i := Slot(c, false)] == [slots[0]] + slots[1..][i - 1 := Slot(c, false)];
    }
  }

  lemma {:induction false} ReturnUnknown(slots: seq<Slot>, c: Connection)
    requires forall j :: 0 <= j < |slots| ==> slots[j].connection != c
    ensures ReturnConnection(slots, c) == slots
  {
    if slots != [] {
      ReturnUnknown(slots[1..], c);
    }
  }

  /** Get and return are inverse up to replacement: the slots are as before, but for a new connection in a slot whose
      old one was dead. */
  lemma GetThenReturn(d: Driver, p: Pool)
    requires Sound(p)
    ensures var (q, c) := FindFreeConnection(d, p); var i := FirstFree(p.slots);
      c.Some? ==> ReturnConnection(q.slots, c.value) == p.slots[i := Slot(c.value, false)]
  {
    var (q, c) := FindFreeConnection(d, p);
    if c.Some? {
      FoundIn(d, p);
      ReturnedAt(q.slots, c.value, FirstFree(p.slots));
    }
  }
}
