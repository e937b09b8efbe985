/** The event manager's fetch protocol: requests carry a generation number, answers of older
    generations are dropped, a counter says when the current generation is complete. */
module EventFetch {
  import opened Wrappers

  /** An event source is known by a number; an event belongs to the source that delivered it. */
  type Source = int

  /** The source of the events the user sticks to the calendar. It is there from the start, ahead of all others. */
  const STICKY: Source := 0

  datatype Event = Event(id: int, start: int, end: Option<int>, allDay: bool, source: Source)

  /** The eventDataTransform hooks of the calendar and of each source: an event may be dropped, replaced or
      multiplied. */
  datatype Hooks = Hooks(ofCalendar: Event -> seq<Event>, ofSource: Source -> (Event -> seq<Event>))

  /** What a source hands to its callback; None when it has nothing to report. */
  type Answer = Option<seq<Event>>

  /** A source may answer while it is asked, or later. */
  datatype Timing = Now(answer: Answer) | Later

  datatype Range = Range(start: int, end: int)
  datatype Request = Request(source: Source, fetchID: nat, range: Option<Range>)

  /** The fields of the event manager and the reports it has made. */
  datatype State = State(sources: seq<Source>, range: Option<Range>, currentFetchID: nat, pendingSourceCnt: int,
                         cache: seq<Event>, reports: seq<seq<Event>>, hooks: Hooks)

  /** The events of an answer as they enter the cache: marked with their source, and without
      ends that do not lie after the start. */
  function Normalized(source: Source, e: Event): Event {
    e.(source := source, end := if e.end.Some? && e.end.value <= e.start then None else e.end)
  }

  function NormalizedAll(source: Source, events: seq<Event>): (r: seq<Event>)
    ensures |r| == |events|
  {
    seq(|events|, i requires 0 <= i < |events| => Normalized(source, events[i]))
  }

  /** $.map of the host's library. */
  function Mapped(f: Event -> seq<Event>, events: seq<Event>): seq<Event> {
    if events == [] then [] else Mapped(f, events[..|events| - 1]) + f(events[|events| - 1])
  }

  /** What an answer adds to the cache. */
  function Contribution(h: Hooks, source: Source, answer: Answer): seq<Event> {
    if answer.None? then []
    else NormalizedAll(source, Mapped(h.ofSource(source), Mapped(h.ofCalendar, answer.value)))
  }

  predicate IsFetchNeeded(s: State, start: int, end: int) {
    s.range.None? || start < s.range.value.start || end > s.range.value.end
  }

  /** The callback fetchEventSource passes to a source. */
  function Receive(s: State, r: Request, answer: Answer): State {
    if r.fetchID != s.currentFetchID then s
    else
      var cache := s.cache + Contribution(s.hooks, r.source, answer);
      var pending := s.pendingSourceCnt - 1;
      s.(cache := cache, pendingSourceCnt := pending,
         reports := if pending == 0 then s.reports + [cache] else s.reports)
  }

  /** fetchEventSource: the request made and whether it is still unanswered. */
  function RequestFor(s: State, source: Source): Request {
    Request(source, s.currentFetchID, s.range)
  }

  function Ask(s: State, source: Source, timing: Timing): State {
    if timing.Now? then Receive(s, RequestFor(s, source), timing.answer) else s
  }

  function TimingOf(timings: seq<Timing>, i: nat): Timing {
    if i < |timings| then timings[i] else Later
  }

  /** The state once the first `n` sources have been asked. */
  function AskUpTo(s: State, n: nat, timings: seq<Timing>): (r: State)
    requires n <= |s.sources|
    ensures r.sources == s.sources && r.range == s.range && r.currentFetchID == s.currentFetchID && r.hooks == s.hooks
  {
    if n == 0 then s else Ask(AskUpTo(s, n - 1, timings), s.sources[n - 1], TimingOf(timings, n - 1))
  }

  function Refetch(s: State, start: int, end: int): State {
    s.(range := Some(Range(start, end)), cache := [], currentFetchID := s.currentFetchID + 1,
       pendingSourceCnt := |s.sources|)
  }

  function Fetch(s: State, start: int, end: int, timings: seq<Timing>): State {
    AskUpTo(Refetch(s, start, end), |s.sources|, timings)
  }

  function Add(s: State, source: Source, timing: Timing): State {
    Ask(s.(sources := s.sources + [source], pendingSourceCnt := s.pendingSourceCnt + 1), source, timing)
  }

  function WithoutSource(sources: seq<Source>, source: Source): seq<Source> {
    if sources == [] then []
    else
      var rest := WithoutSource(sources[..|sources| - 1], source);
      if sources[|sources| - 1] == source then rest else rest + [sources[|sources| - 1]]
  }

  function WithoutEventsOf(events: seq<Event>, source: Source): seq<Event> {
    if events == [] then []
    else
      var rest := WithoutEventsOf(events[..|events| - 1], source);
      if events[|events| - 1].source == source then rest else rest + [events[|events| - 1]]
  }

  function Remove(s: State, source: Source): State {
    var cache := WithoutEventsOf(s.cache, source);
    s.(sources := WithoutSource(s.sources, source), cache := cache, reports := s.reports + [cache])
  }

  // --- the manager as it runs ---

  class EventManager {
    var sources: seq<Source>
    var rangeStart: Option<int>
    var rangeEnd: Option<int>
    var currentFetchID: nat
    var pendingSourceCnt: int
    var cache: seq<Event>
    var reports: seq<seq<Event>> // the arguments of the calls to reportEvents
    const hooks: Hooks

    ghost predicate Valid()
      reads this
    {
      rangeStart.Some? <==> rangeEnd.Some?
    }

    ghost function Abstract(): State
      reads this
      requires Valid()
    {
      State(sources, if rangeStart.Some? then Some(Range(rangeStart.value, rangeEnd.value)) else None,
            currentFetchID, pendingSourceCnt, cache, reports, hooks)
    }

    constructor (initial: seq<Source>, hooks: Hooks)
      ensures Valid() && Abstract() == State([STICKY] + initial, None, 0, 0, [], [], hooks)
    {
      this.hooks := hooks;
      sources, rangeStart, rangeEnd := [STICKY], None, None;
      currentFetchID, pendingSourceCnt, cache, reports := 0, 0, [], [];
      new;
      for i := 0 to |initial|
        invariant Valid() && Abstract() == State([STICKY] + initial[..i], None, 0, 0, [], [], hooks)
      {
        sources := sources + [initial[i]];
      }
    }

    method Needed(start: int, end: int) returns (b: bool)
      requires Valid()
      ensures b <==> IsFetchNeeded(Abstract(), start, end)
    {
      b := rangeStart.None? || start < rangeStart.value || end > rangeEnd.value;
    }

    method ReportEvents()
      modifies this`reports
      ensures reports == old(reports) + [cache]
    {
      reports := reports + [cache];
    }

    /** The callback of one request. */
    method Callback(r: Request, events: Answer)
      requires Valid()
      modifies this`cache, this`pendingSourceCnt, this`reports
      ensures Valid() && Abstract() == Receive(old(Abstract()), r, events)
    {
      if r.fetchID == currentFetchID {
        if events.Some? {
          var contribution := Contribute(hooks, r.source, events.value);
          cache := cache + contribution;
        } else {
          assert cache + [] == cache;
        }
        pendingSourceCnt := pendingSourceCnt - 1;
        if pendingSourceCnt == 0 {
          ReportEvents();
        }
      }
    }

    method FetchEventSource(source: Source, timing: Timing) returns (r: Request)
      requires Valid()
      modifies this`cache, this`pendingSourceCnt, this`reports
      ensures Valid() && Abstract() == Ask(old(Abstract()), source, timing)
      ensures r == RequestFor(old(Abstract()), source)
    {
      r := Request(source, currentFetchID, if rangeStart.Some?
          then Some(Range(rangeStart.value, rangeEnd.value)) else None);
      if timing.Now? {
        Callback(r, timing.answer);
      }
    }

    method FetchEvents(start: int, end: int, timings: seq<Timing>)
      requires Valid()
      modifies this
      ensures Valid() && Abstract() == Fetch(old(Abstract()), start, end, timings)
    {
      rangeStart, rangeEnd := Some(start), Some(end);
      cache := [];
      currentFetchID := currentFetchID + 1;
      var len := |sources|;
      pendingSourceCnt := len;
      ghost var s := Abstract();
      for i := 0 to len
        invariant Valid() && Abstract() == AskUpTo(s, i, timings)
      {
        var r := FetchEventSource(sources[i], if i < |timings| then timings[i] else Later);
      }
    }

    method AddEventSource(source: Source, timing: Timing)
      requires Valid()
      modifies this
      ensures Valid() && Abstract() == Add(old(Abstract()), source, timing)
    {
      sources := sources + [source];
      pendingSourceCnt := pendingSourceCnt + 1;
      var r := FetchEventSource(source, timing);
    }

    method RemoveEventSource(source: Source)
      requires Valid()
      modifies this
      ensures Valid() && Abstract() == Remove(old(Abstract()), source)
    {
      sources := WithoutSource(sources, source);
      cache := WithoutEventsOf(cache, source);
      ReportEvents();
    }
  }

  /** The hooks, one after the other, and the loop that normalizes. */
  method Contribute(h: Hooks, source: Source, events: seq<Event>) returns (normalized: seq<Event>)
    ensures normalized == Contribution(h, source, Some(events))
  {
    var mapped := Map(h.ofCalendar, events);
    var f := h.ofSource(source);
    mapped := Map(f, mapped);
    normalized := [];
    for i := 0 to |mapped|
      invariant normalized == NormalizedAll(source, mapped[..i])
    {
      NormalizedNext(source, mapped, i);
      normalized := normalized + [Normalized(source, mapped[i])];
    }
    assert mapped[..|mapped|] == mapped;
  }

  method Map(f: Event -> seq<Event>, events: seq<Event>) returns (r: seq<Event>)
    ensures r == Mapped(f, events)
  {
    r := [];
    for i := 0 to |events|
      invariant r == Mapped(f, events[..i])
    {
      assert events[..i + 1][..i] == events[..i];
      r := r + f(events[i]);
    }
    assert events[..|events|] == events;
  }

  lemma NormalizedNext(source: Source, events: seq<Event>, i: nat)
    requires i < |events|
    ensures NormalizedAll(source, events[..i + 1])
         == NormalizedAll(source, events[..i]) + [Normalized(source, events[i])]
  {
  }

  // --- the events an answer makes ---

  /** `x` is `z` as it enters the cache of `source`: with its own end exactly when that lies after its start. */
  predicate Made(x: Event, source: Source, z: Event) {
    && x.source == source && x.id == z.id && x.start == z.start && x.allDay == z.allDay
    && (x.end.Some? ==> x.end == z.end && x.end.value > x.start)
    && (z.end.Some? && z.end.value > z.start ==> x.end == z.end)
  }

  lemma NormalizedIsMade(source: Source, z: Event)
    ensures Made(Normalized(source, z), source, z)
    ensures forall x :: Made(x, source, z) ==> x == Normalized(source, z)
  {
  }

  lemma MappedNext(f: Event -> seq<Event>, events: seq<Event>, e: Event)
    ensures Mapped(f, events + [e]) == Mapped(f, events) + f(e)
  {
    assert (events + [e])[..|events|] == events;
  }

  lemma MappedNone(f: Event -> seq<Event>)
    ensures Mapped(f, []) == []
  {
  }

  lemma MappedOne(f: Event -> seq<Event>, e: Event)
    ensures Mapped(f, [e]) == f(e)
  {
    MappedNone(f);
    MappedNext(f, [], e);
    assert [] + [e] == [e] && [] + f(e) == f(e);
  }

  lemma {:induction false} MappedConcat(f: Event -> seq<Event>, a: seq<Event>, b: seq<Event>)
    ensures Mapped(f, a + b) == Mapped(f, a) + Mapped(f, b)
  {
    hide Mapped;
    if b == [] {
      MappedNone(f);
      assert a + b == a;
    } else {
      var front, e := b[..|b| - 1], b[|b| - 1];
      assert b == front + [e] && a + b == (a + front) + [e];
      MappedConcat(f, a, front);
      MappedNext(f, front, e);
      MappedNext(f, a + front, e);
    }
  }

  lemma NormalizedConcat(source: Source, a: seq<Event>, b: seq<Event>)
    ensures NormalizedAll(source, a + b) == NormalizedAll(source, a) + NormalizedAll(source, b)
  {
  }

  /** An answer contributes what its events contribute, in their order ... */
  lemma ContributionConcat(h: Hooks, source: Source, a: seq<Event>, b: seq<Event>)
    ensures Contribution(h, source, Some(a + b)) == Contribution(h, source, Some(a)) + Contribution(h, source, Some(b))
  {
    hide Mapped, NormalizedAll;
    var f := h.ofSource(source);
    MappedConcat(h.ofCalendar, a, b);
    MappedConcat(f, Mapped(h.ofCalendar, a), Mapped(h.ofCalendar, b));
    NormalizedConcat(source, Mapped(f, Mapped(h.ofCalendar, a)), Mapped(f, Mapped(h.ofCalendar, b)));
  }

  /** ... one event contributes what the calendar's hook makes of it, each of those in its order going through the
      source's hook, and each event that comes out in its order as the cache holds it ... */
  lemma ContributionOfOne(h: Hooks, source: Source, e: Event, before: seq<Event>, y: Event, after: seq<Event>)
    requires h.ofCalendar(e) == before + [y] + after
    ensures var f := h.ofSource(source); var c := Contribution(h, source, Some([e]));
      && |c| == |Mapped(f, before)| + |f(y)| + |Mapped(f, after)|
      && forall i :: 0 <= i < |f(y)| ==> Made(c[|Mapped(f, before)| + i], source, f(y)[i])
  {
    hide Mapped, Normalized, Made;
    var f := h.ofSource(source);
    MappedOne(h.ofCalendar, e);
    MappedConcat(f, before + [y], after);
    MappedNext(f, before, y);
    forall i | 0 <= i < |f(y)|
      ensures Made(Normalized(source, f(y)[i]), source, f(y)[i])
    {
      NormalizedIsMade(source, f(y)[i]);
    }
  }

  /** ... so with hooks that keep an event as it is, it is cached with the same id, start and allDay, marked with the
      source, and with its end if that lies after its start, else with none. */
  lemma KeptEvent(h: Hooks, source: Source, e: Event)
    requires h.ofCalendar(e) == [e] && h.ofSource(source)(e) == [e]
    ensures var c := Contribution(h, source, Some([e]));
      && |c| == 1 && c[0].id == e.id && c[0].start == e.start && c[0].allDay == e.allDay && c[0].source == source
      && (if e.end.Some? && e.end.value > e.start then c[0].end == e.end else c[0].end == None)
  {
    hide Mapped;
    MappedOne(h.ofCalendar, e);
    MappedOne(h.ofSource(source), e);
  }

  predicate Within(range: Range, t: int) {
    range.start <= t <= range.end
  }

  /** A fetch is needed exactly when some instant between start and end lies outside the range held. */
  lemma NeededIff(s: State, start: int, end: int)
    requires start <= end
    ensures IsFetchNeeded(s, start, end) <==>
      s.range.None? || exists t :: start <= t <= end && !Within(s.range.value, t)
  {
    if s.range.Some? {
      assert Within(s.range.value, start) <==> s.range.value.start <= start <= s.range.value.end;
      assert Within(s.range.value, end) <==> s.range.value.start <= end <= s.range.value.end;
    }
  }
}
