/** All runs of the fetch protocol: any order of refetches, additions, removals and answers, every
    request answering exactly once. */
module EventRuns {
  import opened Wrappers
  import opened EventFetch
  import opened Sequences

  datatype Delivery = Delivery(request: Request, answer: Answer)

  /** The manager, the requests not yet answered, the answers given by sources that were not removed since, and the
      orphans: the sources removed while this generation was asking them, whose answers still come or came later. */
  datatype World = World(s: State, open: seq<Request>, given: seq<Delivery>, orphans: multiset<Source>)

  datatype Action =
    | DoFetch(start: int, end: int, timings: seq<Timing>)
    | DoAdd(source: Source, timing: Timing)
    | DoAnswer(k: nat, answer: Answer)
    | DoRemove(source: Source)

  function Initial(sources: seq<Source>, hooks: Hooks): World {
    World(State([STICKY] + sources, None, 0, 0, [], [], hooks), [], [], multiset{})
  }

  /** Asking a source leaves a request open or an answer given. */
  function AskWorld(w: World, source: Source, timing: Timing): World {
    var r := RequestFor(w.s, source);
    var s := Ask(w.s, source, timing);
    if timing.Now? then w.(s := s, given := w.given + [Delivery(r, timing.answer)])
    else w.(s := s, open := w.open + [r])
  }

  function AskWorldUpTo(w: World, n: nat, timings: seq<Timing>): (r: World)
    requires n <= |w.s.sources|
    ensures r.s == AskUpTo(w.s, n, timings) && r.orphans == w.orphans
  {
    if n == 0 then w else AskWorld(AskWorldUpTo(w, n - 1, timings), w.s.sources[n - 1], TimingOf(timings, n - 1))
  }

  function Without<T>(xs: seq<T>, k: nat): seq<T>
    requires k < |xs|
  {
    xs[..k] + xs[k + 1..]
  }

  /** The source is registered and counted, but not asked yet. */
  function Added(w: World, source: Source): World {
    w.(s := w.s.(sources := w.s.sources + [source], pendingSourceCnt := w.s.pendingSourceCnt + 1))
  }

  function WithoutGiven(given: seq<Delivery>, source: Source): seq<Delivery> {
    if given == [] then []
    else
      var rest := WithoutGiven(given[..|given| - 1], source);
      if given[|given| - 1].request.source == source then rest else rest + [given[|given| - 1]]
  }

  /** The cache loses what the source has given; what it is still asked for becomes an orphan's. */
  function Removed(w: World, source: Source): World {
    w.(s := Remove(w.s, source), given := WithoutGiven(w.given, source),
       orphans := w.orphans[source := OpenSources(w.open, w.s.currentFetchID)[source]])
  }

  function Step(w: World, a: Action): World {
    match a
    case DoFetch(start, end, timings) =>
      AskWorldUpTo(w.(s := Refetch(w.s, start, end), orphans := multiset{}), |w.s.sources|, timings)
    case DoAdd(source, timing) => AskWorld(Added(w, source), source, timing)
    case DoAnswer(k, answer) =>
      if k >= |w.open| then w
      else w.(s := Receive(w.s, w.open[k], answer), open := Without(w.open, k),
          given := w.given + [Delivery(w.open[k], answer)])
    case DoRemove(source) => Removed(w, source)
  }

  function Run(w: World, actions: seq<Action>): World {
    if actions == [] then w else Step(Run(w, actions[..|actions| - 1]), actions[|actions| - 1])
  }

  lemma RunNext(w: World, actions: seq<Action>, a: Action)
    ensures Run(w, actions + [a]) == Step(Run(w, actions), a)
  {
    hide Step;
    assert (actions + [a])[..|actions|] == actions;
  }

  lemma RunNone(w: World)
    ensures Run(w, []) == w
  {
  }

  /** The manager's part of a step is the manager's own operation. */
  lemma StepIsManager(w: World, a: Action)
    ensures Step(w, a).s ==
      match a
      case DoFetch(start, end, timings) => Fetch(w.s, start, end, timings)
      case DoAdd(source, timing) => Add(w.s, source, timing)
      case DoAnswer(k, answer) => if k < |w.open| then Receive(w.s, w.open[k], answer) else w.s
      case DoRemove(source) => Remove(w.s, source)
  {
  }

  /** The array reportEvents was last given, which renderEvents draws. */
  function Rendered(s: State): seq<Event> {
    if s.reports == [] then [] else s.reports[|s.reports| - 1]
  }

  // --- what is counted ---

  function OpenCount(open: seq<Request>, id: nat): nat {
    if open == [] then 0
    else OpenCount(open[..|open| - 1], id) + if open[|open| - 1].fetchID == id then 1 else 0
  }

  /** The sources asked by generation `id`, answered or not. */
  function OpenSources(open: seq<Request>, id: nat): multiset<Source> {
    if open == [] then multiset{}
    else
      var r := open[|open| - 1];
      OpenSources(open[..|open| - 1], id) + if r.fetchID == id then multiset{r.source} else multiset{}
  }

  function GivenSources(given: seq<Delivery>, id: nat): multiset<Source> {
    if given == [] then multiset{}
    else
      var r := given[|given| - 1].request;
      GivenSources(given[..|given| - 1], id) + if r.fetchID == id then multiset{r.source} else multiset{}
  }

  /** Everything generation `id` has delivered, in order. */
  function Delivered(h: Hooks, given: seq<Delivery>, id: nat): seq<Event> {
    if given == [] then []
    else
      var d := given[|given| - 1];
      Delivered(h, given[..|given| - 1], id) +
      if d.request.fetchID == id then Contribution(h, d.request.source, d.answer) else []
  }

  lemma {:induction false} OpenAppend(open: seq<Request>, r: Request, id: nat)
    ensures OpenCount(open + [r], id) == OpenCount(open, id) + if r.fetchID == id then 1 else 0
    ensures OpenSources(open + [r], id) == OpenSources(open, id)
        + if r.fetchID == id then multiset{r.source} else multiset{}
  {
    assert (open + [r])[..|open|] == open;
  }

  lemma {:induction false} OpenRemove(open: seq<Request>, k: nat, id: nat)
    requires k < |open|
    ensures OpenCount(open, id) == OpenCount(Without(open, k), id) + if open[k].fetchID == id then 1 else 0
    ensures OpenSources(open, id) == OpenSources(Without(open, k), id)
        + if open[k].fetchID == id then multiset{open[k].source} else multiset{}
  {
    hide OpenCount, OpenSources;
    var front, last := open[..|open| - 1], open[|open| - 1];
    assert open == front + [last];
    OpenAppend(front, last, id);
    if k < |front| {
      OpenRemove(front, k, id);
      assert Without(open, k) == Without(front, k) + [last];
      OpenAppend(Without(front, k), last, id);
    } else {
      assert Without(open, k) == front;
    }
  }

  lemma GivenAppend(h: Hooks, given: seq<Delivery>, d: Delivery, id: nat)
    ensures GivenSources(given + [d], id) == GivenSources(given, id)
        + if d.request.fetchID == id then multiset{d.request.source} else multiset{}
    ensures Delivered(h, given + [d], id) == Delivered(h, given, id)
        + if d.request.fetchID == id then Contribution(h, d.request.source, d.answer) else []
  {
    assert (given + [d])[..|given|] == given;
  }

  // --- the invariant ---

  /** Requests are never newer than the manager, and the current ones ask for its range. */
  predicate Known(s: State, r: Request) {
    r.fetchID <= s.currentFetchID && (r.fetchID == s.currentFetchID ==> r.range == s.range)
  }

  ghost predicate AllKnown(w: World) {
    && (forall r :: r in w.open ==> Known(w.s, r))
    && (forall d :: d in w.given ==> Known(w.s, d.request))
  }

  /** There has been a fetch: from then on the manager holds a range. */
  predicate Fetched(s: State) {
    s.currentFetchID > 0
  }

  /** The cache is what the generation has delivered. */
  ghost predicate Cached(w: World) {
    w.s.cache == Delivered(w.s.hooks, w.given, w.s.currentFetchID)
  }

  /** The generation's requests are those of the sources, but for the ones still to be asked, and of the orphans. */
  ghost predicate Accounted(w: World, unasked: multiset<Source>) {
    var id := w.s.currentFetchID;
    multiset(w.s.sources) + w.orphans == OpenSources(w.open, id) + GivenSources(w.given, id) + unasked
  }

  /** `unasked` sources of the generation are still to be asked. */
  ghost predicate Invariant(w: World, unasked: multiset<Source>) {
    && w.s.pendingSourceCnt == OpenCount(w.open, w.s.currentFetchID) + |unasked|
    && AllKnown(w) && Cached(w)
    && (w.s.range.Some? <==> Fetched(w.s))
    && (Fetched(w.s) ==> Accounted(w, unasked))
    && (Fetched(w.s) && w.s.sources != [] ==> Reported(w.s))
  }

  /** When nothing is pending, the last report was of the present cache. */
  predicate Reported(s: State) {
    s.pendingSourceCnt == 0 ==> s.reports != [] && s.reports[|s.reports| - 1] == s.cache
  }

  lemma AskKnown(w: World, source: Source, timing: Timing)
    requires AllKnown(w)
    ensures AllKnown(AskWorld(w, source, timing))
  {
  }

  lemma AskCounted(w: World, source: Source, timing: Timing, unasked: nat)
    requires w.s.pendingSourceCnt == OpenCount(w.open, w.s.currentFetchID) + unasked + 1
    ensures var v := AskWorld(w, source, timing);
      && v.s.pendingSourceCnt == OpenCount(v.open, v.s.currentFetchID) + unasked
      && Reported(v.s)
  {
    hide OpenCount, Contribution;
    OpenAppend(w.open, RequestFor(w.s, source), w.s.currentFetchID);
  }

  lemma AskCached(w: World, source: Source, timing: Timing)
    requires Cached(w)
    ensures Cached(AskWorld(w, source, timing))
  {
    hide Delivered, Contribution;
    if timing.Now? {
      GivenAppend(w.s.hooks, w.given, Delivery(RequestFor(w.s, source), timing.answer), w.s.currentFetchID);
    }
  }

  lemma AskAccounted(w: World, source: Source, timing: Timing, unasked: multiset<Source>)
    requires Accounted(w, unasked + multiset{source})
    ensures Accounted(AskWorld(w, source, timing), unasked)
  {
    hide OpenSources, GivenSources, Delivered, Contribution;
    var r, id := RequestFor(w.s, source), w.s.currentFetchID;
    OpenAppend(w.open, r, id);
    if timing.Now? {
      GivenAppend(w.s.hooks, w.given, Delivery(r, timing.answer), id);
    }
    AskMoves(OpenSources(w.open, id), GivenSources(w.given, id), unasked, multiset{source});
  }

  lemma AskMoves(a: multiset<Source>, b: multiset<Source>, c: multiset<Source>, x: multiset<Source>)
    ensures a + b + (c + x) == (a + x) + (b + multiset{}) + c == (a + multiset{}) + (b + x) + c
    ensures a + b + (c + x) == a + (b + x) + c == (a + x) + b + c
  {
  }

  lemma AskKeepsInvariant(w: World, source: Source, timing: Timing, unasked: multiset<Source>)
    requires Invariant(w, unasked + multiset{source})
    ensures Invariant(AskWorld(w, source, timing), unasked)
  {
    hide AllKnown, Cached, Accounted, OpenCount, Reported, Receive;
    assert |unasked + multiset{source}| == |unasked| + 1;
    AskKnown(w, source, timing);
    AskCounted(w, source, timing, |unasked|);
    AskCached(w, source, timing);
    if Fetched(w.s) {
      AskAccounted(w, source, timing, unasked);
    }
    AskSame(w, source, timing);
  }

  lemma AskSame(w: World, source: Source, timing: Timing)
    ensures var v := AskWorld(w, source, timing);
      v.s.currentFetchID == w.s.currentFetchID && v.s.range == w.s.range && v.s.sources == w.s.sources
  {
    hide Contribution;
  }

  lemma TailMoves(sources: seq<Source>, n: nat)
    requires 0 < n <= |sources|
    ensures multiset(sources[n - 1..]) == multiset(sources[n..]) + multiset{sources[n - 1]}
  {
    assert sources[n - 1..] == [sources[n - 1]] + sources[n..];
  }

  lemma {:induction false} AskAllKeepsInvariant(w: World, n: nat, timings: seq<Timing>)
    requires n <= |w.s.sources| && Invariant(w, multiset(w.s.sources))
    ensures Invariant(AskWorldUpTo(w, n, timings), multiset(w.s.sources[n..]))
  {
    hide Invariant, AskWorld;
    var sources := w.s.sources;
    if n == 0 {
      assert sources[0..] == sources;
    } else {
      AskAllKeepsInvariant(w, n - 1, timings);
      TailMoves(sources, n);
      AskKeepsInvariant(AskWorldUpTo(w, n - 1, timings), sources[n - 1], TimingOf(timings, n - 1),
          multiset(sources[n..]));
    }
  }

  lemma {:induction false} NothingNewer(h: Hooks, open: seq<Request>, given: seq<Delivery>, id: nat)
    requires forall r :: r in open ==> r.fetchID < id
    requires forall d :: d in given ==> d.request.fetchID < id
    ensures OpenCount(open, id) == 0 && OpenSources(open, id) == multiset{}
    ensures GivenSources(given, id) == multiset{} && Delivered(h, given, id) == []
    decreases |open| + |given|
  {
    if open != [] { NothingNewer(h, open[..|open| - 1], given, id); }
    if given != [] { NothingNewer(h, open, given[..|given| - 1], id); }
  }

  lemma FetchKeepsInvariant(w: World, start: int, end: int, timings: seq<Timing>)
    requires Invariant(w, multiset{})
    ensures Invariant(Step(w, DoFetch(start, end, timings)), multiset{})
  {
    var v := w.(s := Refetch(w.s, start, end), orphans := multiset{});
    NothingNewer(w.s.hooks, w.open, w.given, v.s.currentFetchID);
    assert |multiset(w.s.sources)| == |w.s.sources|;
    AskAllKeepsInvariant(v, |w.s.sources|, timings);
    assert multiset(w.s.sources[|w.s.sources|..]) == multiset{};
  }

  lemma AddedAccounted(w: World, source: Source)
    requires Accounted(w, multiset{})
    ensures Accounted(Added(w, source), multiset{source})
  {
    hide OpenSources, GivenSources, Delivered;
    var id := w.s.currentFetchID;
    AddMoves(multiset(w.s.sources), w.orphans, OpenSources(w.open, id), GivenSources(w.given, id), multiset{source});
  }

  lemma AddMoves(s: multiset<Source>, o: multiset<Source>, a: multiset<Source>, b: multiset<Source>,
                 x: multiset<Source>)
    requires s + o == a + b + multiset{}
    ensures s + x + o == a + b + x
  {
    assert s + x + o == (s + o) + x;
  }

  lemma AddedCached(w: World, source: Source)
    requires Cached(w)
    ensures Cached(Added(w, source))
  {
  }

  lemma AddedKeepsInvariant(w: World, source: Source)
    requires Invariant(w, multiset{})
    ensures Invariant(Added(w, source), multiset{source})
  {
    hide OpenCount, Accounted, Cached;
    AddedCached(w, source);
    if Fetched(w.s) {
      AddedAccounted(w, source);
    }
  }

  lemma AddKeepsInvariant(w: World, source: Source, timing: Timing)
    requires Invariant(w, multiset{})
    ensures Invariant(Step(w, DoAdd(source, timing)), multiset{})
  {
    hide Invariant, AskWorld;
    AddedKeepsInvariant(w, source);
    assert multiset{} + multiset{source} == multiset{source};
    AskKeepsInvariant(Added(w, source), source, timing, multiset{});
  }

  lemma AnswerMoves(a: multiset<Source>, b: multiset<Source>, c: multiset<Source>, all: multiset<Source>)
    requires all == a + c + b + multiset{}
    ensures all == a + (b + c) + multiset{}
  {
  }

  lemma AnswerKnown(w: World, k: nat, answer: Answer)
    requires AllKnown(w) && k < |w.open|
    ensures AllKnown(Step(w, DoAnswer(k, answer)))
  {
    var v := Step(w, DoAnswer(k, answer));
    forall r | r in v.open ensures Known(v.s, r) { assert r in w.open; }
    assert w.open[k] in w.open;
    forall d | d in v.given ensures Known(v.s, d.request) {
      assert d in w.given || d == Delivery(w.open[k], answer);
    }
  }

  lemma AnswerCached(w: World, k: nat, answer: Answer)
    requires Cached(w) && k < |w.open|
    ensures Cached(Step(w, DoAnswer(k, answer)))
  {
    hide Delivered, Contribution;
    GivenAppend(w.s.hooks, w.given, Delivery(w.open[k], answer), w.s.currentFetchID);
  }

  lemma AnswerAccounted(w: World, k: nat, answer: Answer)
    requires Accounted(w, multiset{}) && k < |w.open|
    ensures Accounted(Step(w, DoAnswer(k, answer)), multiset{})
  {
    var id, r := w.s.currentFetchID, w.open[k];
    var v := Step(w, DoAnswer(k, answer));
    OpenRemove(w.open, k, id);
    GivenAppend(w.s.hooks, w.given, Delivery(r, answer), id);
    AnswerMoves(OpenSources(v.open, id), GivenSources(w.given, id),
                if r.fetchID == id then multiset{r.source} else multiset{}, multiset(w.s.sources) + w.orphans);
  }

  /** The answer is counted, and reported when it was the last one. */
  lemma AnswerCounted(w: World, k: nat, answer: Answer)
    requires w.s.pendingSourceCnt == OpenCount(w.open, w.s.currentFetchID) && k < |w.open|
    ensures var v := Step(w, DoAnswer(k, answer));
      && v.s.pendingSourceCnt == OpenCount(v.open, v.s.currentFetchID)
      && v.s.currentFetchID == w.s.currentFetchID && v.s.range == w.s.range && v.s.sources == w.s.sources
      && (Reported(w.s) || v.s != w.s ==> Reported(v.s))
  {
    hide OpenCount, Contribution;
    OpenRemove(w.open, k, w.s.currentFetchID);
  }

  lemma AnswerKeepsInvariant(w: World, k: nat, answer: Answer)
    requires Invariant(w, multiset{})
    ensures Invariant(Step(w, DoAnswer(k, answer)), multiset{})
  {
    if k < |w.open| {
      hide Step, AllKnown, Cached, Accounted, OpenCount, Reported;
      AnswerCounted(w, k, answer);
      AnswerKnown(w, k, answer);
      AnswerCached(w, k, answer);
      if Fetched(w.s) {
        AnswerAccounted(w, k, answer);
      }
    }
  }

  // --- removals ---

  lemma MarkedWithSource(h: Hooks, source: Source, answer: Answer)
    ensures forall e :: e in Contribution(h, source, answer) ==> e.source == source
  {
    hide Mapped;
  }

  lemma {:induction false} WithoutConcat(a: seq<Event>, b: seq<Event>, source: Source)
    ensures WithoutEventsOf(a + b, source) == WithoutEventsOf(a, source) + WithoutEventsOf(b, source)
  {
    hide WithoutEventsOf;
    WithoutNone(source);
    if b == [] {
      assert a + b == a;
    } else {
      var front, e := b[..|b| - 1], b[|b| - 1];
      assert b == front + [e] && a + b == (a + front) + [e];
      WithoutConcat(a, front, source);
      WithoutNext(a + front, e, source);
      WithoutNext(front, e, source);
    }
  }

  lemma WithoutNone(source: Source)
    ensures WithoutEventsOf([], source) == []
  {
  }

  lemma WithoutNext(events: seq<Event>, e: Event, source: Source)
    ensures WithoutEventsOf(events + [e], source) ==
      if e.source == source then WithoutEventsOf(events, source) else WithoutEventsOf(events, source) + [e]
  {
    assert (events + [e])[..|events|] == events;
  }

  /** Events that are all of one source go or stay together. */
  lemma {:induction false} WithoutMarked(events: seq<Event>, of: Source, source: Source)
    requires forall e :: e in events ==> e.source == of
    ensures WithoutEventsOf(events, source) == if of == source then [] else events
  {
    if events != [] {
      assert events[|events| - 1] in events;
      WithoutMarked(events[..|events| - 1], of, source);
    }
  }

  lemma WithoutGivenNext(given: seq<Delivery>, d: Delivery, source: Source)
    ensures WithoutGiven(given + [d], source) ==
      if d.request.source == source then WithoutGiven(given, source) else WithoutGiven(given, source) + [d]
  {
    assert (given + [d])[..|given|] == given;
  }

  lemma NoneGiven(h: Hooks, source: Source, id: nat)
    ensures WithoutGiven([], source) == [] && GivenSources([], id) == multiset{} && Delivered(h, [], id) == []
  {
  }

  /** Removing the events of a source and removing its answers come to the same. */
  lemma {:induction false} DeliveredWithout(h: Hooks, given: seq<Delivery>, source: Source, id: nat)
    ensures Delivered(h, WithoutGiven(given, source), id) == WithoutEventsOf(Delivered(h, given, id), source)
    ensures GivenSources(WithoutGiven(given, source), id) == GivenSources(given, id)[source := 0]
    ensures forall d :: d in WithoutGiven(given, source) ==> d in given
  {
    hide Delivered, WithoutGiven, GivenSources, WithoutEventsOf, Contribution;
    if given == [] {
      NoneGiven(h, source, id);
      WithoutNone(source);
    } else {
      var front, d := given[..|given| - 1], given[|given| - 1];
      assert given == front + [d];
      DeliveredWithout(h, front, source, id);
      GivenAppend(h, front, d, id);
      GivenAppend(h, WithoutGiven(front, source), d, id);
      WithoutGivenNext(front, d, source);
      if d.request.fetchID == id {
        var c := Contribution(h, d.request.source, d.answer);
        MarkedWithSource(h, d.request.source, d.answer);
        WithoutConcat(Delivered(h, front, id), c, source);
        WithoutMarked(c, d.request.source, source);
        var kept := WithoutEventsOf(Delivered(h, front, id), source);
        assert kept + [] == kept;
      } else {
        assert Delivered(h, front, id) + [] == Delivered(h, front, id);
        var rest := WithoutGiven(front, source);
        assert Delivered(h, rest, id) + [] == Delivered(h, rest, id);
      }
    }
  }

  lemma {:induction false} SourcesWithout(sources: seq<Source>, source: Source)
    ensures multiset(WithoutSource(sources, source)) == multiset(sources)[source := 0]
  {
    if sources != [] {
      var front, last := sources[..|sources| - 1], sources[|sources| - 1];
      assert sources == front + [last];
      SourcesWithout(front, source);
    }
  }

  lemma Balance(sources: multiset<Source>, orphans: multiset<Source>, open: multiset<Source>, given: multiset<Source>,
                source: Source)
    requires sources + orphans == open + given
    ensures sources[source := 0] + orphans[source := open[source]] == open + given[source := 0]
  {
    var l, r := sources[source := 0] + orphans[source := open[source]], open + given[source := 0];
    forall x
      ensures l[x] == r[x]
    {
      assert (sources + orphans)[x] == (open + given)[x];
    }
  }

  lemma RemoveKeepsInvariant(w: World, source: Source)
    requires Invariant(w, multiset{})
    ensures Invariant(Removed(w, source), multiset{})
  {
    hide OpenSources, GivenSources, Delivered, WithoutGiven, WithoutSource, WithoutEventsOf, OpenCount;
    var id := w.s.currentFetchID;
    DeliveredWithout(w.s.hooks, w.given, source, id);
    if Fetched(w.s) {
      var open, given := OpenSources(w.open, id), GivenSources(w.given, id);
      assert open + given + multiset{} == open + given;
      Balance(multiset(w.s.sources), w.orphans, open, given, source);
      SourcesWithout(w.s.sources, source);
    }
  }

  /** Every run keeps the invariant. */
  lemma {:induction false} RunKeepsInvariant(sources: seq<Source>, hooks: Hooks, actions: seq<Action>)
    ensures Invariant(Run(Initial(sources, hooks), actions), multiset{})
  {
    if actions != [] {
      var n := |actions| - 1;
      RunKeepsInvariant(sources, hooks, actions[..n]);
      var w := Run(Initial(sources, hooks), actions[..n]);
      match actions[n]
      case DoFetch(start, end, timings) => FetchKeepsInvariant(w, start, end, timings);
      case DoAdd(source, timing) => AddKeepsInvariant(w, source, timing);
      case DoAnswer(k, answer) => AnswerKeepsInvariant(w, k, answer);
      case DoRemove(source) => RemoveKeepsInvariant(w, source);
    }
  }

  // --- what a run guarantees ---

  /** The counter is the number of unanswered requests of the current generation. */
  lemma PendingCountsOpenRequests(sources: seq<Source>, hooks: Hooks, actions: seq<Action>)
    ensures var w := Run(Initial(sources, hooks), actions);
      w.s.pendingSourceCnt == OpenCount(w.open, w.s.currentFetchID)
  {
    RunKeepsInvariant(sources, hooks, actions);
  }

  lemma {:induction false} NoneOpen(open: seq<Request>, id: nat)
    requires OpenCount(open, id) == 0
    ensures OpenSources(open, id) == multiset{}
  {
    if open != [] { NoneOpen(open[..|open| - 1], id); }
  }

  /** Once there has been a fetch and the counter is 0, every source has contributed to the cache exactly once in this
      generation, every orphan once more, and nothing else is in it. */
  lemma CompleteAtZero(sources: seq<Source>, hooks: Hooks, actions: seq<Action>)
    requires var w := Run(Initial(sources, hooks), actions); Fetched(w.s) && w.s.pendingSourceCnt == 0
    ensures var w := Run(Initial(sources, hooks), actions);
      GivenSources(w.given, w.s.currentFetchID) == multiset(w.s.sources) + w.orphans
          && w.s.cache == Delivered(w.s.hooks, w.given, w.s.currentFetchID)
  {
    RunKeepsInvariant(sources, hooks, actions);
    var w := Run(Initial(sources, hooks), actions);
    NoneOpen(w.open, w.s.currentFetchID);
  }

  /** Then what the calendar draws, the last report, is the cache, as long as there is a source at all. */
  lemma RenderedAtZero(sources: seq<Source>, hooks: Hooks, actions: seq<Action>)
    requires var w := Run(Initial(sources, hooks), actions); Fetched(w.s) && w.s.pendingSourceCnt == 0
    ensures var w := Run(Initial(sources, hooks), actions); w.s.sources != [] ==> Rendered(w.s) == w.s.cache
  {
    RunKeepsInvariant(sources, hooks, actions);
  }

  /** An answer is reported exactly when it is the last one its generation waits for; an answer
      of an older generation changes nothing in the manager. */
  lemma AnswerReports(sources: seq<Source>, hooks: Hooks, actions: seq<Action>, k: nat, answer: Answer)
    requires k < |Run(Initial(sources, hooks), actions).open|
    ensures var w := Run(Initial(sources, hooks), actions); var v := Step(w, DoAnswer(k, answer));
      && (w.open[k].fetchID < w.s.currentFetchID ==> v.s == w.s)
      && (w.open[k].fetchID == w.s.currentFetchID ==>
            v.s.reports
              == if OpenCount(v.open, w.s.currentFetchID) == 0 then w.s.reports + [v.s.cache] else w.s.reports)
      && w.open[k].fetchID <= w.s.currentFetchID
  {
    hide Run, Step, OpenCount;
    RunKeepsInvariant(sources, hooks, actions);
    AnswerReportsIn(Run(Initial(sources, hooks), actions), k, answer);
  }

  lemma AnswerReportsIn(w: World, k: nat, answer: Answer)
    requires k < |w.open| && AllKnown(w) && w.s.pendingSourceCnt == OpenCount(w.open, w.s.currentFetchID)
    ensures var v := Step(w, DoAnswer(k, answer));
      && (w.open[k].fetchID < w.s.currentFetchID ==> v.s == w.s)
      && (w.open[k].fetchID == w.s.currentFetchID ==>
            v.s.reports
              == if OpenCount(v.open, w.s.currentFetchID) == 0 then w.s.reports + [v.s.cache] else w.s.reports)
      && w.open[k].fetchID <= w.s.currentFetchID
  {
    hide OpenCount, Contribution;
    assert w.open[k] in w.open;
    OpenRemove(w.open, k, w.s.currentFetchID);
  }

  // --- does a removed source stay away? ---

  /** A request of the current generation to the source is unanswered. */
  ghost predicate Asked(w: World, source: Source) {
    exists r :: r in w.open && r.fetchID == w.s.currentFetchID && r.source == source
  }

  lemma {:induction false} OpenToSource(open: seq<Request>, id: nat, source: Source)
    ensures OpenSources(open, id)[source] > 0 <==> exists r :: r in open && r.fetchID == id && r.source == source
  {
    if open != [] {
      var front, last := open[..|open| - 1], open[|open| - 1];
      assert open == front + [last];
      OpenToSource(front, id, source);
    }
  }

  /** Only the removal of a source that is being asked makes an orphan. */
  lemma OrphansWereAsked(w: World, a: Action)
    ensures Step(w, a).orphans <= w.orphans <== !(a.DoRemove? && Asked(w, a.source))
    ensures a.DoRemove? ==> (a.source in Step(w, a).orphans <==> Asked(w, a.source))
  {
    hide OpenSources;
    if a.DoRemove? {
      OpenToSource(w.open, w.s.currentFetchID, a.source);
    }
  }

  /** The hooks let nothing of the source through. */
  ghost predicate Barren(h: Hooks, source: Source) {
    forall answer :: Contribution(h, source, answer) == []
  }

  ghost predicate NotAdded(actions: seq<Action>, source: Source) {
    forall a :: a in actions ==> !(a.DoAdd? && a.source == source)
  }

  ghost predicate Clear(cache: seq<Event>, source: Source) {
    forall e :: e in cache ==> e.source != source
  }

  /** Once removed, the source has no event in the cache, whatever happens, until it is added again. */
  ghost predicate StaysAway(w: World, source: Source) {
    forall later :: NotAdded(later, source) ==> Clear(Run(Step(w, DoRemove(source)), later).s.cache, source)
  }

  /** Nothing of the generation is left to bring an event of the source. */
  ghost predicate Gone(w: World, source: Source) {
    && source !in w.s.sources
    && forall r :: r in w.open ==>
         r.fetchID <= w.s.currentFetchID && (r.fetchID == w.s.currentFetchID ==> r.source != source)
  }

  ghost predicate Away(w: World, source: Source) {
    Clear(w.s.cache, source) && (Barren(w.s.hooks, source) || Gone(w, source))
  }

  lemma ReceiveKeepsClear(s: State, r: Request, answer: Answer, source: Source)
    requires Clear(s.cache, source)
    requires r.fetchID == s.currentFetchID && r.source == source ==> Barren(s.hooks, source)
    ensures Clear(Receive(s, r, answer).cache, source)
  {
    hide Contribution;
    MarkedWithSource(s.hooks, r.source, answer);
  }

  lemma AskKeepsAway(w: World, other: Source, timing: Timing, source: Source)
    requires Away(w, source) && (other == source ==> Barren(w.s.hooks, source))
    ensures Away(AskWorld(w, other, timing), source)
  {
    hide Barren, Contribution;
    if timing.Now? {
      ReceiveKeepsClear(w.s, RequestFor(w.s, other), timing.answer, source);
    }
  }

  lemma {:induction false} AskAllKeepsAway(w: World, n: nat, timings: seq<Timing>, source: Source)
    requires n <= |w.s.sources| && Away(w, source)
    ensures Away(AskWorldUpTo(w, n, timings), source)
  {
    hide AskWorld, Barren;
    if n > 0 {
      AskAllKeepsAway(w, n - 1, timings, source);
      assert w.s.sources[n - 1] in w.s.sources;
      AskKeepsAway(AskWorldUpTo(w, n - 1, timings), w.s.sources[n - 1], TimingOf(timings, n - 1), source);
    }
  }

  lemma {:induction false} WithoutEventsMembers(events: seq<Event>, other: Source)
    ensures forall e :: e in WithoutEventsOf(events, other) <==> e in events && e.source != other
  {
    if events != [] {
      var front, last := events[..|events| - 1], events[|events| - 1];
      assert events == front + [last];
      WithoutEventsMembers(front, other);
    }
  }

  lemma AnswerKeepsAway(w: World, k: nat, answer: Answer, source: Source)
    requires Away(w, source)
    ensures Away(Step(w, DoAnswer(k, answer)), source)
  {
    hide Barren, Contribution;
    if k < |w.open| {
      assert w.open[k] in w.open;
      ReceiveKeepsClear(w.s, w.open[k], answer, source);
      assert forall r :: r in Without(w.open, k) ==> r in w.open;
    }
  }

  lemma RemoveKeepsAway(w: World, other: Source, source: Source)
    requires Away(w, source)
    ensures Away(Removed(w, other), source)
  {
    hide Barren, OpenSources, WithoutGiven, WithoutSource, WithoutEventsOf;
    WithoutEventsMembers(w.s.cache, other);
    SourceGone(w.s.sources, other, source);
  }

  lemma SourceGone(sources: seq<Source>, other: Source, source: Source)
    ensures source in WithoutSource(sources, other) <==> source in sources && source != other
  {
    SourcesWithout(sources, other);
    assert source in WithoutSource(sources, other) <==> source in multiset(WithoutSource(sources, other));
    assert source in sources <==> source in multiset(sources);
  }

  /** The sticky source is there until it is removed itself, so a fetch always asks someone. */
  lemma {:induction false} StickyStays(sources: seq<Source>, hooks: Hooks, actions: seq<Action>)
    requires DoRemove(STICKY) !in actions
    ensures STICKY in Run(Initial(sources, hooks), actions).s.sources
  {
    hide WithoutSource, Refetch;
    if actions != [] {
      var w := Run(Initial(sources, hooks), actions[..|actions| - 1]);
      StickyStays(sources, hooks, actions[..|actions| - 1]);
      var a := actions[|actions| - 1];
      assert a in actions;
      if a.DoRemove? {
        SourceGone(w.s.sources, a.source, STICKY);
      }
      StepSources(w, a);
    }
  }

  lemma StepSources(w: World, a: Action)
    ensures Step(w, a).s.sources ==
      match a
      case DoAdd(source, _) => w.s.sources + [source]
      case DoRemove(source) => WithoutSource(w.s.sources, source)
      case _ => w.s.sources
  {
    hide Contribution, WithoutSource, WithoutEventsOf;
  }

  lemma StepKeepsAway(w: World, a: Action, source: Source)
    requires Away(w, source) && !(a.DoAdd? && a.source == source)
    ensures Away(Step(w, a), source)
  {
    hide AskWorld, AskWorldUpTo, Barren, Removed;
    match a
    case DoFetch(start, end, timings) =>
      var v := w.(s := Refetch(w.s, start, end), orphans := multiset{});
      AskAllKeepsAway(v, |w.s.sources|, timings, source);
    case DoAdd(other, timing) => AskKeepsAway(Added(w, other), other, timing, source);
    case DoAnswer(k, answer) => AnswerKeepsAway(w, k, answer, source);
    case DoRemove(other) => RemoveKeepsAway(w, other, source);
  }

  lemma {:induction false} RunKeepsAway(w: World, later: seq<Action>, source: Source)
    requires Away(w, source) && NotAdded(later, source)
    ensures Away(Run(w, later), source)
  {
    hide Step, Away;
    if later != [] {
      assert later[|later| - 1] in later;
      RunKeepsAway(w, later[..|later| - 1], source);
      StepKeepsAway(Run(w, later[..|later| - 1]), later[|later| - 1], source);
    }
  }

  lemma RemovalLeavesAway(w: World, source: Source)
    requires AllKnown(w) && (!Asked(w, source) || Barren(w.s.hooks, source))
    ensures Away(Removed(w, source), source)
  {
    hide Barren, OpenSources, WithoutGiven, WithoutSource, WithoutEventsOf;
    WithoutEventsMembers(w.s.cache, source);
    SourceGone(w.s.sources, source, source);
  }

  /** One late answer brings the source back. */
  lemma LateAnswerComesBack(w: World, source: Source)
    requires Asked(w, source) && !Barren(w.s.hooks, source)
    ensures !StaysAway(w, source)
  {
    hide Contribution, Step, Run;
    var k :| 0 <= k < |w.open| && w.open[k].fetchID == w.s.currentFetchID && w.open[k].source == source;
    var answer :| Contribution(w.s.hooks, source, answer) != [];
    var v, a := Step(w, DoRemove(source)), DoAnswer(k, answer);
    LateAnswerArrives(w, source, k, answer);
    MarkedWithSource(w.s.hooks, source, answer);
    var e := Contribution(w.s.hooks, source, answer)[0];
    assert e in Step(v, a).s.cache && e.source == source;
    RunNone(v);
    RunNext(v, [], a);
    assert [] + [a] == [a];
    assert NotAdded([a], source) && !Clear(Run(v, [a]).s.cache, source);
  }

  lemma LateAnswerArrives(w: World, source: Source, k: nat, answer: Answer)
    requires k < |w.open| && w.open[k].fetchID == w.s.currentFetchID && w.open[k].source == source
    ensures var v := Step(w, DoRemove(source));
      Step(v, DoAnswer(k, answer)).s.cache == v.s.cache + Contribution(w.s.hooks, source, answer)
  {
    hide Contribution, WithoutGiven, WithoutSource, WithoutEventsOf, OpenSources;
  }

  /** In every reachable state: a removed source stays away if and only if no request of the current generation to it is
      unanswered at the moment of the removal, unless the hooks let nothing of it through anyway. */
  lemma RemovedStaysAwayIff(sources: seq<Source>, hooks: Hooks, actions: seq<Action>, source: Source)
    ensures var w := Run(Initial(sources, hooks), actions);
      StaysAway(w, source) <==> !Asked(w, source) || Barren(w.s.hooks, source)
  {
    var w := Run(Initial(sources, hooks), actions);
    RunKeepsInvariant(sources, hooks, actions);
    assert AllKnown(w);
    hide Run, AllKnown, Asked, Barren;
    if !Asked(w, source) || Barren(w.s.hooks, source) {
      RemovalLeavesAway(w, source);
      forall later | NotAdded(later, source)
        ensures Clear(Run(Step(w, DoRemove(source)), later).s.cache, source)
      {
        RunKeepsAway(Step(w, DoRemove(source)), later, source);
      }
    } else {
      LateAnswerComesBack(w, source);
    }
  }

  /** The shortest such run: a source is removed while it is asked, the sticky one having answered at once. */
  lemma RemovedSourceComesBack(source: Source, hooks: Hooks, start: int, end: int, stuck: Answer, events: seq<Event>)
    requires source != STICKY
    ensures var w := Run(Initial([source], hooks),
                         [DoFetch(start, end, [Now(stuck), Later]), DoRemove(source), DoAnswer(0, Some(events))]);
      && w.s.sources == [STICKY] && w.s.pendingSourceCnt == 0 && w.open == []
      && w.s.cache == Rendered(w.s) == Contribution(hooks, STICKY, stuck) + Contribution(hooks, source, Some(events))
  {
    hide Run, Contribution, WithoutEventsOf, WithoutSource;
    var w0 := Initial([source], hooks);
    var a, b, c := DoFetch(start, end, [Now(stuck), Later]), DoRemove(source), DoAnswer(0, Some(events));
    RunNone(w0);
    RunNext(w0, [], a);
    RunNext(w0, [a], b);
    RunNext(w0, [a, b], c);
    assert [] + [a] == [a] && [a] + [b] == [a, b] && [a, b] + [c] == [a, b, c];
    AskedTwo(w0, source, start, end, stuck);
    WithoutOther(source);
    MarkedWithSource(hooks, STICKY, stuck);
    WithoutMarked(Contribution(hooks, STICKY, stuck), STICKY, source);
  }

  lemma WithoutOther(source: Source)
    requires source != STICKY
    ensures WithoutSource([STICKY, source], source) == [STICKY]
  {
    assert WithoutSource([], source) == [];
    assert [STICKY][..0] == [];
    assert WithoutSource([STICKY], source) == [STICKY];
    assert [STICKY, source][..1] == [STICKY];
  }

  lemma AskedTwo(w: World, source: Source, start: int, end: int, stuck: Answer)
    requires w.s.sources == [STICKY, source] && w.open == []
    ensures var v := Step(w, DoFetch(start, end, [Now(stuck), Later]));
      && v.s.sources == w.s.sources && v.s.currentFetchID == w.s.currentFetchID + 1 && v.s.hooks == w.s.hooks
      && v.s.cache == Contribution(w.s.hooks, STICKY, stuck) && v.s.pendingSourceCnt == 1
      && v.open == [Request(source, v.s.currentFetchID, v.s.range)]
  {
    hide Contribution;
    var timings := [Now(stuck), Later];
    var v := w.(s := Refetch(w.s, start, end), orphans := multiset{});
    assert AskWorldUpTo(v, 0, timings) == v;
    assert AskWorldUpTo(v, 1, timings) == AskWorld(v, STICKY, Now(stuck));
    assert AskWorldUpTo(v, 2, timings) == AskWorld(AskWorld(v, STICKY, Now(stuck)), source, Later);
    assert [] + Contribution(w.s.hooks, STICKY, stuck) == Contribution(w.s.hooks, STICKY, stuck);
  }
}
