/** The steps of the lock's holder, taken without interference, are getFreeConnection. */
module PoolRefinement {
  import opened Wrappers
  import opened Pools
  import opened PoolInterleavings

  /** A state with the number of tests made so far. */
  datatype Thread = Thread(s: State, tests: nat)

  function PoolOf(x: Thread): Pool {
    Pool(x.s.slots, x.s.max, x.s.attempts, x.tests)
  }

  function WithPool(s: State, p: Pool, phase: Phase): Thread {
    Thread(s.(slots := p.slots, max := p.max, attempts := p.attempts, phase := phase), p.tests)
  }

  /** One step of the holder, with the driver's answer. */
  function Next(g: Config, d: Driver, x: Thread): Thread {
    if x.s.phase.Testing? then Thread(LockStep(g, x.s, d.alive(x.tests)), x.tests + 1)
    else Thread(LockStep(g, x.s, d.opens(x.s.attempts)), x.tests)
  }

  function Alone(g: Config, d: Driver, x: Thread, n: nat): Thread
    decreases n
  {
    if n == 0 then x else Alone(g, d, Next(g, d, x), n - 1)
  }

  lemma {:induction false} AloneThen(g: Config, d: Driver, x: Thread, m: nat, n: nat)
    ensures Alone(g, d, x, m + n) == Alone(g, d, Alone(g, d, x, m), n)
    decreases m
  {
    AloneUnfold(g, d, x, m);
    AloneUnfold(g, d, x, m + n);
    hide Alone, Next;
    if m > 0 {
      AloneThen(g, d, Next(g, d, x), m - 1, n);
    }
  }

  lemma AloneUnfold(g: Config, d: Driver, x: Thread, n: nat)
    ensures Alone(g, d, x, n) == if n == 0 then x else Alone(g, d, Next(g, d, x), n - 1)
  {
    hide Next;
  }

  function AfterCreating(getter: Option<Client>): Phase {
    match getter case None => Idle case Some(c) => Looking(c, 0, true)
  }

  lemma {:induction false} Creates(g: Config, d: Driver, x: Thread) returns (n: nat)
    requires x.s.phase.Creating? && d.limit == g.limit
    ensures Alone(g, d, x, n)
      == WithPool(x.s, CreateConnections(d, PoolOf(x), x.s.phase.left), AfterCreating(x.s.phase.getter))
    decreases x.s.phase.left
  {
    var y := Next(g, d, x);
    if x.s.phase.left <= 0 || Full(PoolOf(x)) {
      n := 1;
      assert Alone(g, d, x, 1) == Alone(g, d, y, 0);
    } else if y.s.phase.Creating? {
      n := Creates(g, d, y);
      n := n + 1;
    } else {
      n := Creates(g, d, Next(g, d, y));
      assert Alone(g, d, x, n + 2) == Alone(g, d, y, n + 1);
      n := n + 2;
    }
  }

  /** The end of a search: the client holds the connection found, or the search goes on elsewhere. */
  function Searched(g: Config, d: Driver, x: Thread, c: Client, again: bool): Thread {
    var (q, k) := FindFreeConnection(d, PoolOf(x));
    if k.Some? then
      var y := WithPool(x.s, q, Idle);
      y.(s := y.s.(held := y.s.held + {(c, k.value)}))
    else WithPool(x.s, q, NotFound(g, x.s, c, again).phase)
  }

  lemma {:induction false} Searches(g: Config, d: Driver, x: Thread) returns (n: nat)
    requires x.s.phase.Looking? && x.s.phase.i <= FirstFree(x.s.slots) && d.limit == g.limit
    ensures Alone(g, d, x, n) == Searched(g, d, x, x.s.phase.client, x.s.phase.again)
    decreases |x.s.slots| - x.s.phase.i
  {
    var i, f := x.s.phase.i, FirstFree(x.s.slots);
    var y := Next(g, d, x);
    if i == |x.s.slots| {
      n := 1;
      assert Alone(g, d, x, 1) == Alone(g, d, y, 0);
    } else if i < f {
      assert x.s.slots[..f][i].busy;
      n := Searches(g, d, y);
      n := n + 1;
    } else {
      n := Claims(g, d, y);
      n := n + 1;
    }
  }

  lemma Claims(g: Config, d: Driver, x: Thread) returns (n: nat)
    requires x.s.phase.Claiming? && x.s.phase.i == FirstFree(x.s.slots) < |x.s.slots| && d.limit == g.limit
    ensures Alone(g, d, x, n) == Searched(g, d, x, x.s.phase.client, x.s.phase.again)
  {
    var x1 := Next(g, d, x);
    var x2 := Next(g, d, x1);
    var x3 := Next(g, d, x2);
    assert Alone(g, d, x, 3) == Alone(g, d, x1, 2) == Alone(g, d, x2, 1) == Alone(g, d, x3, 0);
    if d.alive(x.tests) || !d.opens(x.s.attempts) {
      n := 3;
    } else {
      var x4 := Next(g, d, x3);
      var x5 := Next(g, d, x4);
      assert Alone(g, d, x, 5) == Alone(g, d, x1, 4) == Alone(g, d, x2, 3) == Alone(g, d, x3, 2)
        == Alone(g, d, x4, 1) == Alone(g, d, x5, 0);
      n := 5;
    }
  }

  lemma SearchCreateSearch(g: Config, d: Driver, x: Thread, c: Client) returns (n: nat)
    requires x.s.phase == Looking(c, 0, false) && d.limit == g.limit
    ensures var (q, k) := GetFreeConnection(d, PoolOf(x), g.increment); var y := Alone(g, d, x, n);
      && PoolOf(y) == q && y.s.returning == x.s.returning
      && y.s.phase == (if k.Some? then Idle else Looking(c, 0, false))
      && y.s.held == x.s.held + (if k.Some? then {(c, k.value)} else {})
  {
    hide Alone, CreateConnections, FindFreeConnection;
    n := Searches(g, d, x);
    var y := Alone(g, d, x, n);
    if y.s.phase.Creating? {
      var m := Creates(g, d, y);
      AloneThen(g, d, x, n, m);
      var z := Alone(g, d, y, m);
      var l := Searches(g, d, z);
      AloneThen(g, d, x, n + m, l);
      n := n + m + l;
    }
  }

  /** An undisturbed call hands the client the connection getFreeConnection finds, and leaves the pool it leaves; when
      that finds none, the call has gone to sleep and starts over on that pool. */
  lemma CallIsGetFreeConnection(g: Config, d: Driver, x: Thread, c: Client) returns (n: nat)
    requires x.s.phase.Idle? && d.limit == g.limit
    ensures var (q, k) := GetFreeConnection(d, PoolOf(x), g.increment);
      var y := Alone(g, d, x.(s := Step(g, x.s, Get(c))), n);
      && PoolOf(y) == q && y.s.returning == x.s.returning
      && y.s.phase == (if k.Some? then Idle else Looking(c, 0, false))
      && y.s.held == x.s.held + (if k.Some? then {(c, k.value)} else {})
  {
    hide Alone, GetFreeConnection;
    n := SearchCreateSearch(g, d, x.(s := Step(g, x.s, Get(c))), c);
  }

  /** Left alone, the run begins with what createConnections opens into an empty pool. */
  lemma StartsAsCreated(g: Config, d: Driver) returns (n: nat)
    requires d.limit == g.limit
    ensures var y := Alone(g, d, Thread(Init(g), 0), n);
      && PoolOf(y) == CreateConnections(d, Pool([], g.max, 0, 0), g.initial)
      && y.s.phase == Idle && y.s.held == {} && y.s.returning == {}
  {
    hide Alone, CreateConnections;
    n := Creates(g, d, Thread(Init(g), 0));
  }
}
