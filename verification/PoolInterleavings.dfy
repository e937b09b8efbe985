/** Every interleaving of getConnection, which runs under the pool's lock, and returnConnection, which does not. Each
    step is one access to the shared slots. Clients return only what they hold, once. */
module PoolInterleavings {
  import opened Wrappers
  import opened Pools

  type Client = int

  /** A call of returnConnection that scans slot `i`, or has found its connection there. */
  datatype Return = Return(connection: Connection, i: nat, found: bool)

  /** Where the thread that holds the lock is. `again` tells the second search of getFreeConnection from the first. */
  datatype Phase =
    | Idle
    | Creating(left: int, getter: Option<Client>)
    | Adding(connection: Connection, left: int, getter: Option<Client>)
    | Looking(client: Client, i: nat, again: bool)
    | Claiming(client: Client, i: nat, again: bool)
    | Testing(client: Client, i: nat, again: bool)
    | Reopening(client: Client, i: nat, again: bool)
    | Replacing(client: Client, i: nat, connection: Connection)
    | Giving(client: Client, i: nat)

  datatype State = State(slots: seq<Slot>, max: int, attempts: nat, phase: Phase, held: set<(Client, Connection)>,
    returning: set<Return>)

  datatype Config = Config(initial: int, increment: int, max: int, limit: int)

  /** A client asks for a connection; the holder of the lock takes a step, and if it asks the driver, `ok` is the
      answer; a client begins to return a connection; a return takes a step. */
  datatype Action =
    | Get(client: Client)
    | Lock(ok: bool)
    | Release(client: Client, connection: Connection)
    | Scan(r: Return)

  /** createPool runs before anyone can ask. */
  function Init(g: Config): State {
    State([], g.max, 0, Creating(g.initial, None), {}, {})
  }

  function Step(g: Config, s: State, a: Action): State {
    match a
    case Get(c) => if s.phase == Idle then s.(phase := Looking(c, 0, false)) else s
    case Lock(ok) => LockStep(g, s, ok)
    case Release(c, k) =>
      if (c, k) in s.held then s.(held := s.held - {(c, k)}, returning := s.returning + {Return(k, 0, false)}) else s
    case Scan(r) => if r in s.returning then ScanStep(s, r) else s
  }

  function Run(g: Config, actions: seq<Action>): State {
    if actions == [] then Init(g) else Step(g, Run(g, actions[..|actions| - 1]), actions[|actions| - 1])
  }

  /** No connection was found: create some and search again, or sleep and start over. */
  function NotFound(g: Config, s: State, c: Client, again: bool): State {
    s.(phase := if again then Looking(c, 0, false) else Creating(g.increment, Some(c)))
  }

  function LockStep(g: Config, s: State, ok: bool): State {
    match s.phase
    case Idle => s
    case Creating(left, getter) =>
      if left <= 0 || (s.max > 0 && |s.slots| >= s.max) then
        s.(phase := match getter case None => Idle case Some(c) => Looking(c, 0, true))
      else if !ok then s.(attempts := s.attempts + 1, phase := Creating(left - 1, getter))
      else Opened(g, s).(phase := Adding(s.attempts, left, getter))
    case Adding(k, left, getter) =>
      s.(slots := s.slots + [Slot(k, false)], phase := Creating(left - 1, getter))
    case Looking(c, i, again) =>
      if i >= |s.slots| then NotFound(g, s, c, again)
      else s.(phase := if s.slots[i].busy then Looking(c, i + 1, again) else Claiming(c, i, again))
    case Claiming(c, i, again) => SetSlot(s, i, true).(phase := Testing(c, i, again))
    case Testing(c, i, again) => s.(phase := if ok then Giving(c, i) else Reopening(c, i, again))
    case Reopening(c, i, again) =>
      if !ok then NotFound(g, s.(attempts := s.attempts + 1), c, again)
      else Opened(g, s).(phase := Replacing(c, i, s.attempts))
    case Replacing(c, i, k) =>
      (if i < |s.slots| then s.(slots := s.slots[i := s.slots[i].(connection := k)]) else s).(phase := Giving(c, i))
    case Giving(c, i) =>
      (if i < |s.slots| then s.(held := s.held + {(c, s.slots[i].connection)}) else s).(phase := Idle)
  }

  function Opened(g: Config, s: State): State {
    s.(attempts := s.attempts + 1, max := if |s.slots| == 0 && 0 < g.limit < s.max then g.limit else s.max)
  }

  function SetSlot(s: State, i: nat, busy: bool): State {
    if i < |s.slots| then s.(slots := s.slots[i := s.slots[i].(busy := busy)]) else s
  }

  function ScanStep(s: State, r: Return): State {
    if r.found then SetSlot(s.(returning := s.returning - {r}), r.i, false)
    else if r.i >= |s.slots| then s.(returning := s.returning - {r})
    else s.(returning := s.returning - {r}
                       + {if s.slots[r.i].connection == r.connection then r.(found := true) else r.(i := r.i + 1)})
  }

  // --- the invariant ---

  /** Nobody holds the connection or is returning it. */
  ghost predicate Unclaimed(s: State, k: Connection) {
    (forall c :: (c, k) !in s.held) && forall r :: r in s.returning ==> r.connection != k
  }

  /** The connection sits in a slot from `i` on. */
  ghost predicate SitsFrom(s: State, k: Connection, i: nat) {
    exists j :: i <= j < |s.slots| && s.slots[j].connection == k
  }

  ghost predicate New(s: State, k: Connection) {
    k < s.attempts && Unclaimed(s, k) && !SitsFrom(s, k, 0)
  }

  ghost predicate SlotsSound(s: State) {
    && (forall i, j :: 0 <= i < j < |s.slots| ==> s.slots[i].connection != s.slots[j].connection)
    && (forall i :: 0 <= i < |s.slots| ==> s.slots[i].connection < s.attempts)
    && (forall i :: 0 <= i < |s.slots| && !s.slots[i].busy ==> Unclaimed(s, s.slots[i].connection))
  }

  ghost predicate HeldSound(s: State) {
    forall c, k :: (c, k) in s.held ==>
      && SitsFrom(s, k, 0)
      && (forall c' :: (c', k) in s.held ==> c' == c)
      && (forall r :: r in s.returning ==> r.connection != k)
  }

  ghost predicate ReturnsSound(s: State) {
    && (forall r :: r in s.returning ==> SitsFrom(s, r.connection, r.i))
    && (forall r, r' :: r in s.returning && r' in s.returning && r.connection == r'.connection ==> r == r')
    && (forall r :: r in s.returning && r.found ==> r.i < |s.slots| && s.slots[r.i].connection == r.connection)
  }

  ghost predicate PhaseSound(s: State) {
    match s.phase
    case Idle => true
    case Creating(_, _) => true
    case Adding(k, _, _) => New(s, k) && (s.max > 0 ==> |s.slots| < s.max)
    case Looking(_, _, _) => true
    case Claiming(_, i, _) => i < |s.slots| && !s.slots[i].busy
    case Testing(_, i, _) => i < |s.slots| && s.slots[i].busy && Unclaimed(s, s.slots[i].connection)
    case Reopening(_, i, _) => i < |s.slots| && s.slots[i].busy && Unclaimed(s, s.slots[i].connection)
    case Replacing(_, i, k) => i < |s.slots| && s.slots[i].busy && Unclaimed(s, s.slots[i].connection) && New(s, k)
    case Giving(_, i) => i < |s.slots| && s.slots[i].busy && Unclaimed(s, s.slots[i].connection)
  }

  ghost predicate CapSound(g: Config, s: State) {
    && (s.max > 0 <==> g.max > 0) && s.max <= g.max
    && (s.max > 0 ==> |s.slots| <= s.max)
    && (s.max > 0 && g.limit > 0 && (s.slots != [] || s.phase.Adding?) ==> s.max <= g.limit)
  }

  ghost predicate Invariant(g: Config, s: State) {
    SlotsSound(s) && HeldSound(s) && ReturnsSound(s) && PhaseSound(s) && CapSound(g, s)
  }

  // --- every step keeps it ---

  lemma AddKeeps(g: Config, s: State, ok: bool)
    requires Invariant(g, s) && s.phase.Adding?
    ensures Invariant(g, LockStep(g, s, ok))
  {
    var t := LockStep(g, s, ok);
    Grown(s, t);
  }

  lemma Grown(s: State, t: State)
    requires s.slots <= t.slots
    ensures forall k, i: nat :: SitsFrom(s, k, i) ==> SitsFrom(t, k, i)
  {
    forall k, i: nat | SitsFrom(s, k, i)
      ensures SitsFrom(t, k, i)
    {
      var j :| i <= j < |s.slots| && s.slots[j].connection == k;
      assert t.slots[j].connection == k;
    }
  }

  /** Changing busy flags moves no connection. */
  lemma SameConnections(s: State, t: State)
    requires |s.slots| == |t.slots|
    requires forall j :: 0 <= j < |s.slots| ==> s.slots[j].connection == t.slots[j].connection
    ensures forall k, i: nat :: SitsFrom(s, k, i) <==> SitsFrom(t, k, i)
  {
    forall k, i: nat
      ensures SitsFrom(s, k, i) <==> SitsFrom(t, k, i)
    {
      if SitsFrom(s, k, i) {
        var j :| i <= j < |s.slots| && s.slots[j].connection == k;
        assert t.slots[j].connection == k;
      }
      if SitsFrom(t, k, i) {
        var j :| i <= j < |t.slots| && t.slots[j].connection == k;
        assert s.slots[j].connection == k;
      }
    }
  }

  lemma ClaimKeeps(g: Config, s: State, ok: bool)
    requires Invariant(g, s) && s.phase.Claiming?
    ensures Invariant(g, LockStep(g, s, ok))
  {
    SameConnections(s, LockStep(g, s, ok));
  }

  lemma ReplaceKeeps(g: Config, s: State, ok: bool)
    requires Invariant(g, s) && s.phase.Replacing?
    ensures Invariant(g, LockStep(g, s, ok))
  {
    var t, at := LockStep(g, s, ok), s.phase.i;
    forall k, i: nat | SitsFrom(s, k, i) && k != s.slots[at].connection
      ensures SitsFrom(t, k, i)
    {
      var j :| i <= j < |s.slots| && s.slots[j].connection == k;
      assert t.slots[j].connection == k;
    }
    forall j | 0 <= j < |s.slots|
      ensures s.slots[j].connection != s.phase.connection
    {
      assert SitsFrom(s, s.slots[j].connection, 0);
    }
  }

  lemma GiveKeeps(g: Config, s: State, ok: bool)
    requires Invariant(g, s) && s.phase.Giving?
    ensures Invariant(g, LockStep(g, s, ok))
  {
    var t, k := LockStep(g, s, ok), s.slots[s.phase.i].connection;
    SameConnections(s, t);
    assert SitsFrom(t, k, 0);
    forall i | 0 <= i < |t.slots| && !t.slots[i].busy
      ensures Unclaimed(t, t.slots[i].connection)
    {
      assert Unclaimed(s, s.slots[i].connection);
    }
  }

  lemma OpenKeeps(g: Config, s: State, ok: bool)
    requires Invariant(g, s) && s.phase.Creating?
    ensures Invariant(g, LockStep(g, s, ok))
  {
    var t := LockStep(g, s, ok);
    SameConnections(s, t);
    OpenedIsNew(g, s);
  }

  lemma ReopenKeeps(g: Config, s: State, ok: bool)
    requires Invariant(g, s) && s.phase.Reopening?
    ensures Invariant(g, LockStep(g, s, ok))
  {
    var t := LockStep(g, s, ok);
    SameConnections(s, t);
    OpenedIsNew(g, s);
  }

  /** The number of the next attempt is nowhere yet. */
  lemma OpenedIsNew(g: Config, s: State)
    requires Invariant(g, s)
    ensures New(Opened(g, s), s.attempts)
  {
    assert forall i: nat :: !SitsFrom(s, s.attempts, i);
  }

  /** Steps that neither open a connection nor write a slot. */
  lemma LookKeeps(g: Config, s: State, ok: bool)
    requires Invariant(g, s) && (s.phase.Idle? || s.phase.Looking? || s.phase.Testing?)
    ensures Invariant(g, LockStep(g, s, ok))
  {
    SameConnections(s, LockStep(g, s, ok));
  }

  lemma LockKeeps(g: Config, s: State, ok: bool)
    requires Invariant(g, s)
    ensures Invariant(g, LockStep(g, s, ok))
  {
    hide Invariant, LockStep;
    match s.phase
    case Adding(_, _, _) => AddKeeps(g, s, ok);
    case Claiming(_, _, _) => ClaimKeeps(g, s, ok);
    case Replacing(_, _, _) => ReplaceKeeps(g, s, ok);
    case Giving(_, _) => GiveKeeps(g, s, ok);
    case Creating(_, _) => OpenKeeps(g, s, ok);
    case Reopening(_, _, _) => ReopenKeeps(g, s, ok);
    case _ => LookKeeps(g, s, ok);
  }

  lemma ReleaseKeeps(g: Config, s: State, c: Client, k: Connection)
    requires Invariant(g, s) && (c, k) in s.held
    ensures Invariant(g, Step(g, s, Release(c, k)))
  {
    var t := Step(g, s, Release(c, k));
    SameConnections(s, t);
    ReleasedSound(s, t, c, k);
    forall k' | Unclaimed(s, k')
      ensures Unclaimed(t, k')
    {
      assert k' != k;
    }
    hide Unclaimed, SitsFrom, HeldSound, ReturnsSound;
  }

  lemma ReleasedSound(s: State, t: State, c: Client, k: Connection)
    requires HeldSound(s) && ReturnsSound(s) && (c, k) in s.held
    requires t == s.(held := s.held - {(c, k)}, returning := s.returning + {Return(k, 0, false)})
    ensures HeldSound(t) && ReturnsSound(t)
  {
    SameConnections(s, t);
    hide SitsFrom;
  }

  /** The connection was returned once, so nobody else claims it when its slot becomes free. */
  lemma FreeKeeps(g: Config, s: State, r: Return)
    requires Invariant(g, s) && r in s.returning && r.found
    ensures Invariant(g, ScanStep(s, r))
  {
    var t := ScanStep(s, r);
    SameConnections(s, t);
    assert Unclaimed(t, r.connection);
    forall k | Unclaimed(s, k)
      ensures Unclaimed(t, k)
    {
    }
    assert t.slots[r.i] == Slot(r.connection, false);
  }

  /** The scan moves on, past a slot that holds another connection, or has found its slot. */
  lemma MoveKeeps(g: Config, s: State, r: Return)
    requires Invariant(g, s) && r in s.returning && !r.found
    ensures Invariant(g, ScanStep(s, r))
    ensures r.i < |s.slots|
  {
    var t := ScanStep(s, r);
    var j :| r.i <= j < |s.slots| && s.slots[j].connection == r.connection;
    var moved := if s.slots[r.i].connection == r.connection then r.(found := true) else r.(i := r.i + 1);
    assert moved in t.returning && SitsFrom(t, moved.connection, moved.i);
    SameConnections(s, t);
    MovedReturns(s, t, r, moved);
    hide Unclaimed, SitsFrom, HeldSound, ReturnsSound;
    forall k
      ensures Unclaimed(s, k) <==> Unclaimed(t, k)
    {
      SameClaims(s, t, r, moved, k);
    }
  }

  lemma MovedReturns(s: State, t: State, r: Return, moved: Return)
    requires HeldSound(s) && ReturnsSound(s) && r in s.returning && moved.connection == r.connection
    requires t == s.(returning := s.returning - {r} + {moved}) && SitsFrom(t, moved.connection, moved.i)
    requires moved.found ==> moved.i < |s.slots| && s.slots[moved.i].connection == moved.connection
    ensures HeldSound(t) && ReturnsSound(t)
  {
    SameConnections(s, t);
    hide SitsFrom;
  }

  lemma SameClaims(s: State, t: State, r: Return, moved: Return, k: Connection)
    requires r in s.returning && moved.connection == r.connection && t.held == s.held
    requires t.returning == s.returning - {r} + {moved}
    ensures Unclaimed(s, k) <==> Unclaimed(t, k)
  {
    assert moved in t.returning;
  }

  lemma {:induction false} RunKeepsInvariant(g: Config, actions: seq<Action>)
    ensures Invariant(g, Run(g, actions))
  {
    if actions != [] {
      var s, a := Run(g, actions[..|actions| - 1]), actions[|actions| - 1];
      RunKeepsInvariant(g, actions[..|actions| - 1]);
      match a
      case Get(c) => SameConnections(s, Step(g, s, a));
      case Lock(ok) => LockKeeps(g, s, ok);
      case Release(c, k) => if (c, k) in s.held { ReleaseKeeps(g, s, c, k); }
      case Scan(r) => if r in s.returning { if r.found { FreeKeeps(g, s, r); } else { MoveKeeps(g, s, r); } }
    }
  }

  // --- safety ---

  /** In every reachable state, no connection is held by two clients, distinct slots hold distinct connections, every
      connection held sits in a busy slot, and a positive limit is kept together with the driver's own. */
  lemma PoolIsSafe(g: Config, actions: seq<Action>)
    ensures var s := Run(g, actions);
      && (forall c, c', k :: (c, k) in s.held && (c', k) in s.held ==> c == c')
      && (forall i, j :: 0 <= i < j < |s.slots| ==> s.slots[i].connection != s.slots[j].connection)
      && (forall c, k :: (c, k) in s.held ==> exists i :: 0 <= i < |s.slots| && s.slots[i] == Slot(k, true))
      && (g.max > 0 ==> |s.slots| <= g.max && (g.limit > 0 ==> |s.slots| <= g.limit))
  {
    RunKeepsInvariant(g, actions);
    var s := Run(g, actions);
    forall c, k | (c, k) in s.held
      ensures exists i :: 0 <= i < |s.slots| && s.slots[i] == Slot(k, true)
    {
      var i :| 0 <= i < |s.slots| && s.slots[i].connection == k;
      assert !Unclaimed(s, k);
    }
  }

  /** A return never runs off the end of the pool: it finds the busy slot of its connection and frees that one. */
  lemma ReturnsFindTheirSlot(g: Config, actions: seq<Action>, r: Return)
    requires r in Run(g, actions).returning
    ensures var s := Run(g, actions);
      && r.i < |s.slots|
      && (r.found ==> s.slots[r.i] == Slot(r.connection, true)
                      && ScanStep(s, r).slots == s.slots[r.i := Slot(r.connection, false)])
  {
    RunKeepsInvariant(g, actions);
    var s := Run(g, actions);
    if r.found {
      assert !Unclaimed(s, r.connection);
    } else {
      MoveKeeps(g, s, r);
    }
  }

  // --- what was checked before it is handed out ---

  /** The holder of the lock works for client `c` on slot `i`, which it has claimed. */
  predicate InHand(phase: Phase, c: Client, i: nat) {
    match phase
    case Testing(client, at, _) => client == c && at == i
    case Reopening(client, at, _) => client == c && at == i
    case Replacing(client, at, _) => client == c && at == i
    case Giving(client, at) => client == c && at == i
    case _ => false
  }

  /** Slot `i` was claimed for `c` by action `m`, and has been in hand ever since. */
  ghost predicate ClaimedAt(g: Config, actions: seq<Action>, m: nat, c: Client, i: nat) {
    && m < |actions| && actions[m].Lock?
    && (exists again :: Run(g, actions[..m]).phase == Claiming(c, i, again))
    && forall t :: m < t <= |actions| ==> InHand(Run(g, actions[..t]).phase, c, i)
  }

  /** Action `j` is the driver's answer that connection `k` in slot `i` is alive, or that it was opened as connection
      `k` for the slot. */
  ghost predicate AnsweredAt(g: Config, actions: seq<Action>, j: nat, c: Client, i: nat, k: Connection) {
    && j < |actions| && actions[j] == Lock(true)
    && var s := Run(g, actions[..j]);
    && InHand(s.phase, c, i)
    && ((s.phase.Testing? && i < |s.slots| && s.slots[i].connection == k) || (s.phase.Reopening? && s.attempts == k))
  }

  lemma ClaimedFurther(g: Config, actions: seq<Action>, m: nat, c: Client, i: nat)
    requires actions != [] && ClaimedAt(g, actions[..|actions| - 1], m, c, i) && InHand(Run(g, actions).phase, c, i)
    ensures ClaimedAt(g, actions, m, c, i)
  {
    hide Run, InHand;
    var front := actions[..|actions| - 1];
    assert front[..m] == actions[..m];
    forall t | m < t <= |actions|
      ensures InHand(Run(g, actions[..t]).phase, c, i)
    {
      if t < |actions| {
        assert front[..t] == actions[..t];
      } else {
        assert actions[..t] == actions;
      }
    }
  }

  lemma AnsweredFurther(g: Config, actions: seq<Action>, j: nat, c: Client, i: nat, k: Connection)
    requires actions != [] && AnsweredAt(g, actions[..|actions| - 1], j, c, i, k)
    ensures AnsweredAt(g, actions, j, c, i, k)
  {
    hide Run, InHand;
    assert actions[..|actions| - 1][..j] == actions[..j];
  }

  /** What one step does to the slot in hand. */
  lemma StepInHand(g: Config, s: State, a: Action, c: Client, i: nat)
    requires Invariant(g, s) && InHand(Step(g, s, a).phase, c, i)
    ensures if InHand(s.phase, c, i) then i < |s.slots| == |Step(g, s, a).slots|
            else a.Lock? && exists again :: s.phase == Claiming(c, i, again)
    ensures var t := Step(g, s, a);
      && (!InHand(s.phase, c, i) ==> t.phase.Testing?)
      && (InHand(s.phase, c, i) ==>
            && (t.phase.Replacing? ==> if s.phase.Replacing? then t.phase == s.phase
                                       else s.phase.Reopening? && a == Lock(true) && s.attempts == t.phase.connection)
            && (t.phase.Giving? ==>
                  && t.slots[i].connection == (if s.phase.Replacing? then s.phase.connection else s.slots[i].connection)
                  && (s.phase.Replacing? || s.phase.Giving? || (s.phase.Testing? && a == Lock(true)))))
  {
    hide SlotsSound, HeldSound, ReturnsSound, CapSound, Unclaimed, New, SitsFrom;
    match a
    case Lock(ok) =>
    case Get(_) =>
    case Release(_, _) =>
    case Scan(r) =>
  }

  /** Whatever slot is in hand was claimed before; when it is about to be given, the driver's answer came since. */
  lemma {:induction false} HandWasClaimed(g: Config, actions: seq<Action>, c: Client, i: nat) returns (m: nat, j: nat)
    requires InHand(Run(g, actions).phase, c, i)
    ensures ClaimedAt(g, actions, m, c, i)
    ensures var s := Run(g, actions);
      && (s.phase.Replacing? ==> m < j && AnsweredAt(g, actions, j, c, i, s.phase.connection))
      && (s.phase.Giving? ==> i < |s.slots| && m < j && AnsweredAt(g, actions, j, c, i, s.slots[i].connection))
  {
    hide Step, Invariant, InHand;
    RunUnfold(g, actions);
    StartsIdle(g, actions, c, i);
    var n := |actions| - 1;
    var front, a := actions[..n], actions[n];
    var s := Run(g, front);
    hide Run;
    RunKeepsInvariant(g, front);
    StepInHand(g, s, a, c, i);
    if InHand(s.phase, c, i) {
      m, j := HandWasClaimed(g, front, c, i);
      ClaimedFurther(g, actions, m, c, i);
      if s.phase.Replacing? || s.phase.Giving? {
        AnsweredFurther(g, actions, j, c, i, if s.phase.Replacing? then s.phase.connection else s.slots[i].connection);
      } else {
        j := n;
      }
    } else {
      m, j := n, n;
      assert actions[..|actions|] == actions;
    }
  }

  lemma RunUnfold(g: Config, actions: seq<Action>)
    ensures actions != [] ==>
      Run(g, actions) == Step(g, Run(g, actions[..|actions| - 1]), actions[|actions| - 1])
  {
    hide Step;
  }

  lemma StartsIdle(g: Config, actions: seq<Action>, c: Client, i: nat)
    requires InHand(Run(g, actions).phase, c, i)
    ensures actions != []
  {
    hide Step;
  }

  /** In every run, a connection that enters a client's hands was found alive, or newly opened, after its slot was
      claimed for that client: the slot was claimed, then came the driver's answer, then the connection is given. */
  lemma HandedOutWasChecked(g: Config, actions: seq<Action>, c: Client, k: Connection)
    returns (i: nat, m: nat, j: nat)
    requires actions != [] && (c, k) in Run(g, actions).held && (c, k) !in Run(g, actions[..|actions| - 1]).held
    ensures m < j < |actions| - 1
    ensures ClaimedAt(g, actions[..|actions| - 1], m, c, i) && AnsweredAt(g, actions[..|actions| - 1], j, c, i, k)
  {
    RunUnfold(g, actions);
    var front := actions[..|actions| - 1];
    i := GivenNow(g, Run(g, front), actions[|actions| - 1], c, k);
    m, j := HandWasClaimed(g, front, c, i);
  }

  lemma GivenNow(g: Config, s: State, a: Action, c: Client, k: Connection) returns (i: nat)
    requires (c, k) in Step(g, s, a).held && (c, k) !in s.held
    ensures s.phase == Giving(c, i) && i < |s.slots| && s.slots[i].connection == k
  {
    i := s.phase.i;
  }
}
