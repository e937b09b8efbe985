/** Rendering from the cache without a new fetch shows what a new fetch would show. */
module LazyFetch {
  import opened Wrappers
  import opened EventFetch
  import opened EventRuns
  import opened Sequences

  /** Which events show in the view start..end. */
  type Visibility = (int, int) -> (Event -> bool)

  /** The events a view shows. */
  function Shown(sees: Event -> bool, events: seq<Event>): multiset<Event> {
    if events == [] then multiset{}
    else
      var e := events[|events| - 1];
      Shown(sees, events[..|events| - 1]) + if sees(e) then multiset{e} else multiset{}
  }

  /** Each event is shown as often as it occurs, if it shows at all. */
  lemma {:induction false} ShownIs(sees: Event -> bool, events: seq<Event>, e: Event)
    ensures Shown(sees, events)[e] == if sees(e) then multiset(events)[e] else 0
  {
    if events != [] {
      var front, last := events[..|events| - 1], events[|events| - 1];
      assert events == front + [last];
      ShownIs(sees, front, e);
    }
  }

  lemma {:induction false} ShownConcat(sees: Event -> bool, a: seq<Event>, b: seq<Event>)
    ensures Shown(sees, a + b) == Shown(sees, a) + Shown(sees, b)
  {
    if b == [] {
      assert a + b == a;
    } else {
      var n := |b| - 1;
      assert (a + b)[..|a| + n] == a + b[..n];
      ShownConcat(sees, a, b[..n]);
    }
  }

  /** What the sources hold, each event in the form it has in the cache. */
  type Contents = map<Source, seq<Event>>

  function ContentOf(contents: Contents, source: Source): seq<Event> {
    if source in contents then contents[source] else []
  }

  /** A faithful answer lacks no event, and adds none, in any part of the range asked for;
      outside the range it may hold anything. */
  ghost predicate Faithful(shows: Visibility, contents: Contents, h: Hooks, d: Delivery) {
    d.request.range.Some? &&
    forall start, end :: d.request.range.value.start <= start && end <= d.request.range.value.end ==>
      Shown(shows(start, end), Contribution(h, d.request.source, d.answer)) ==
      Shown(shows(start, end), ContentOf(contents, d.request.source))
  }

  /** All answers of the current generation are faithful. */
  ghost predicate FaithfulWorld(shows: Visibility, contents: Contents, w: World) {
    forall d :: d in w.given && d.request.fetchID == w.s.currentFetchID ==> Faithful(shows, contents, w.s.hooks, d)
  }

  /** Everything the sources would show in the view. */
  function ShownBySources(sees: Event -> bool, contents: Contents, sources: seq<Source>): multiset<Event> {
    if sources == [] then multiset{}
    else
      var n := |sources| - 1;
      ShownBySources(sees, contents, sources[..n]) + Shown(sees, ContentOf(contents, sources[n]))
  }

  lemma {:induction false} ShownBySourcesConcat(sees: Event -> bool, contents: Contents, a: seq<Source>, b: seq<Source>)
    ensures ShownBySources(sees, contents, a + b) ==
      ShownBySources(sees, contents, a) + ShownBySources(sees, contents, b)
  {
    if b == [] {
      assert a + b == a;
    } else {
      var n := |b| - 1;
      assert (a + b)[..|a| + n] == a + b[..n];
      ShownBySourcesConcat(sees, contents, a, b[..n]);
    }
  }

  lemma ShownBySource(sees: Event -> bool, contents: Contents, source: Source)
    ensures ShownBySources(sees, contents, [source]) == Shown(sees, ContentOf(contents, source))
  {
    assert [source][..0] == [];
  }

  lemma ShownTakeOut(sees: Event -> bool, contents: Contents, b: seq<Source>, j: nat)
    requires j < |b|
    ensures ShownBySources(sees, contents, b) ==
      ShownBySources(sees, contents, b[..j] + b[j + 1..]) + Shown(sees, ContentOf(contents, b[j]))
  {
    assert b == b[..j] + ([b[j]] + b[j + 1..]);
    ShownBySourcesConcat(sees, contents, b[..j], [b[j]] + b[j + 1..]);
    ShownBySourcesConcat(sees, contents, [b[j]], b[j + 1..]);
    ShownBySource(sees, contents, b[j]);
    ShownBySourcesConcat(sees, contents, b[..j], b[j + 1..]);
  }

  /** The order of the sources does not matter. */
  lemma {:induction false} ShownBySourcesPermuted(sees: Event -> bool, contents: Contents, a: seq<Source>,
                                                  b: seq<Source>)
    requires multiset(a) == multiset(b)
    ensures ShownBySources(sees, contents, a) == ShownBySources(sees, contents, b)
    decreases |a|
  {
    hide ShownBySources, Shown;
    if a == [] {
      assert |b| == |multiset(b)| == 0;
    } else {
      assert a[0] in multiset(b);
      var j :| 0 <= j < |b| && b[j] == a[0];
      var c, d := a[..0] + a[1..], b[..j] + b[j + 1..];
      RemoveAt(a, 0);
      RemoveAt(b, j);
      Cancel(multiset(c), multiset(d), a[0]);
      ShownBySourcesPermuted(sees, contents, c, d);
      ShownTakeOut(sees, contents, a, 0);
      ShownTakeOut(sees, contents, b, j);
    }
  }

  /** The sources generation `id` has heard from, in order. */
  function GivenList(given: seq<Delivery>, id: nat): (r: seq<Source>)
    ensures multiset(r) == GivenSources(given, id)
  {
    if given == [] then []
    else
      var r := given[|given| - 1].request;
      var rest := GivenList(given[..|given| - 1], id);
      if r.fetchID == id then rest + [r.source] else rest
  }

  lemma GivenNext(sees: Event -> bool, contents: Contents, h: Hooks, given: seq<Delivery>, id: nat)
    requires given != []
    ensures var before := given[..|given| - 1]; var d := given[|given| - 1];
      Shown(sees, Delivered(h, given, id)) == Shown(sees, Delivered(h, before, id)) +
        if d.request.fetchID == id then Shown(sees, Contribution(h, d.request.source, d.answer)) else multiset{}
    ensures var before := given[..|given| - 1]; var d := given[|given| - 1];
      ShownBySources(sees, contents, GivenList(given, id)) == ShownBySources(sees, contents, GivenList(before, id)) +
        if d.request.fetchID == id then Shown(sees, ContentOf(contents, d.request.source)) else multiset{}
  {
    var before := given[..|given| - 1];
    var d := given[|given| - 1];
    if d.request.fetchID == id {
      ShownConcat(sees, Delivered(h, before, id), Contribution(h, d.request.source, d.answer));
      ShownBySourcesConcat(sees, contents, GivenList(before, id), [d.request.source]);
      ShownBySource(sees, contents, d.request.source);
    } else {
      assert Delivered(h, given, id) == Delivered(h, before, id);
    }
  }

  /** Faithful answers show what their sources hold. */
  lemma {:induction false} DeliveredShows(shows: Visibility, contents: Contents, h: Hooks, given: seq<Delivery>,
                                          id: nat, range: Range, start: int, end: int)
    requires range.start <= start && end <= range.end
    requires forall d :: d in given && d.request.fetchID == id ==>
               d.request.range == Some(range) && Faithful(shows, contents, h, d)
    ensures Shown(shows(start, end), Delivered(h, given, id)) ==
      ShownBySources(shows(start, end), contents, GivenList(given, id))
  {
    if given != [] {
      assert given[|given| - 1] in given;
      DeliveredShows(shows, contents, h, given[..|given| - 1], id, range, start, end);
      GivenNext(shows(start, end), contents, h, given, id);
    }
  }

  // --- answers that are faithful ---

  /** `meets` is how a source decides which events meet a range. It covers a view's visibility when an event that
      shows in any part of a range meets that range. */
  ghost predicate Covers(meets: Visibility, shows: Visibility) {
    forall e, r0, r1, start, end :: r0 <= start && end <= r1 && shows(start, end)(e) ==> meets(r0, r1)(e)
  }

  /** Does some event meet that the hooks make of `e`? */
  predicate SomeMeets(h: Hooks, source: Source, e: Event, meets: Event -> bool) {
    var made := Contribution(h, source, Some([e]));
    exists i :: 0 <= i < |made| && meets(made[i])
  }

  /** The events of a source that meet the range. */
  function Meeting(h: Hooks, source: Source, events: seq<Event>, meets: Event -> bool): seq<Event> {
    if events == [] then []
    else
      var e := events[|events| - 1];
      var rest := Meeting(h, source, events[..|events| - 1], meets);
      if SomeMeets(h, source, e, meets) then rest + [e] else rest
  }

  lemma {:induction false} NothingShown(sees: Event -> bool, events: seq<Event>)
    requires forall i :: 0 <= i < |events| ==> !sees(events[i])
    ensures Shown(sees, events) == multiset{}
  {
    if events != [] {
      NothingShown(sees, events[..|events| - 1]);
    }
  }

  lemma {:induction false} MeetingShows(h: Hooks, source: Source, events: seq<Event>, meets: Event -> bool,
                                        sees: Event -> bool)
    requires forall e :: sees(e) ==> meets(e)
    ensures Shown(sees, Contribution(h, source, Some(Meeting(h, source, events, meets)))) ==
      Shown(sees, Contribution(h, source, Some(events)))
  {
    if events != [] {
      var n := |events| - 1;
      var e, rest := events[n], Meeting(h, source, events[..n], meets);
      MeetingShows(h, source, events[..n], meets, sees);
      assert events == events[..n] + [e];
      ContributionConcat(h, source, events[..n], [e]);
      ShownConcat(sees, Contribution(h, source, Some(events[..n])), Contribution(h, source, Some([e])));
      if SomeMeets(h, source, e, meets) {
        ContributionConcat(h, source, rest, [e]);
        ShownConcat(sees, Contribution(h, source, Some(rest)), Contribution(h, source, Some([e])));
      } else {
        NothingShown(sees, Contribution(h, source, Some([e])));
      }
    }
  }

  /** A source that answers with exactly the events meeting the range, and one that answers with
      all its events, are faithful. */
  lemma ExactAndFullAnswersAreFaithful(shows: Visibility, meets: Visibility, contents: Contents, h: Hooks, r: Request,
                                       events: seq<Event>)
    requires Covers(meets, shows) && r.range.Some? && r.source in contents
    requires contents[r.source] == Contribution(h, r.source, Some(events))
    ensures var range := r.range.value;
      Faithful(shows, contents, h, Delivery(r, Some(Meeting(h, r.source, events, meets(range.start, range.end)))))
    ensures Faithful(shows, contents, h, Delivery(r, Some(events)))
  {
    var range := r.range.value;
    var met := Meeting(h, r.source, events, meets(range.start, range.end));
    forall start, end | range.start <= start && end <= range.end
      ensures Shown(shows(start, end), Contribution(h, r.source, Some(met))) ==
        Shown(shows(start, end), ContentOf(contents, r.source))
    {
      MeetingShows(h, r.source, events, meets(range.start, range.end), shows(start, end));
    }
  }

  // --- what a run shows ---

  /** Once the answers are in, the cache shows a view that needs no fetch exactly what the sources hold, and what the
      orphans hold besides; `late` lists those. */
  lemma CacheShowsSources(shows: Visibility, contents: Contents, sources: seq<Source>, hooks: Hooks,
                          actions: seq<Action>, start: int, end: int, late: seq<Source>)
    requires var w := Run(Initial(sources, hooks), actions);
      && w.s.pendingSourceCnt == 0 && FaithfulWorld(shows, contents, w) && !IsFetchNeeded(w.s, start, end)
      && multiset(late) == w.orphans
    ensures var w := Run(Initial(sources, hooks), actions);
      Shown(shows(start, end), w.s.cache) ==
      ShownBySources(shows(start, end), contents, w.s.sources) + ShownBySources(shows(start, end), contents, late)
  {
    var w := Run(Initial(sources, hooks), actions);
    var id := w.s.currentFetchID;
    RunKeepsInvariant(sources, hooks, actions);
    CompleteAtZero(sources, hooks, actions);
    forall d | d in w.given && d.request.fetchID == id
      ensures d.request.range == w.s.range
    {
      assert Known(w.s, d.request);
    }
    hide Run, Shown, ShownBySources, Delivered, Invariant, GivenSources;
    DeliveredShows(shows, contents, w.s.hooks, w.given, id, w.s.range.value, start, end);
    ShownBySourcesPermuted(shows(start, end), contents, GivenList(w.given, id), w.s.sources + late);
    ShownBySourcesConcat(shows(start, end), contents, w.s.sources, late);
  }

  /** And so does the calendar, which draws the last report, as long as there is a source. */
  lemma RenderedShowsSources(shows: Visibility, contents: Contents, sources: seq<Source>, hooks: Hooks,
                             actions: seq<Action>, start: int, end: int, late: seq<Source>)
    requires var w := Run(Initial(sources, hooks), actions);
      && w.s.pendingSourceCnt == 0 && FaithfulWorld(shows, contents, w) && !IsFetchNeeded(w.s, start, end)
      && multiset(late) == w.orphans
    ensures var w := Run(Initial(sources, hooks), actions);
      w.s.sources != [] ==>
        Shown(shows(start, end), Rendered(w.s)) ==
        ShownBySources(shows(start, end), contents, w.s.sources) + ShownBySources(shows(start, end), contents, late)
  {
    CacheShowsSources(shows, contents, sources, hooks, actions, start, end, late);
    RunKeepsInvariant(sources, hooks, actions);
    RenderedAtZero(sources, hooks, actions);
  }

  /** The new fetch of a view, followed by answers only. */
  ghost predicate OnlyAnswers(actions: seq<Action>) {
    forall a :: a in actions ==> a.DoAnswer?
  }

  lemma {:induction false} AnswersKeepFetch(w: World, answers: seq<Action>)
    requires OnlyAnswers(answers)
    ensures var v := Run(w, answers);
      v.orphans == w.orphans && v.s.sources == w.s.sources && v.s.range == w.s.range && v.s.hooks == w.s.hooks
  {
    if answers != [] {
      var n := |answers| - 1;
      assert answers[n] in answers;
      AnswersKeepFetch(w, answers[..n]);
    }
  }

  lemma {:induction false} RunConcat(w: World, a: seq<Action>, b: seq<Action>)
    ensures Run(w, a + b) == Run(Run(w, a), b)
  {
    hide Run, Step;
    if b == [] {
      RunNone(Run(w, a));
      assert a + b == a;
    } else {
      var front, last := b[..|b| - 1], b[|b| - 1];
      assert b == front + [last] && a + b == (a + front) + [last];
      RunConcat(w, a, front);
      RunNext(Run(w, a), front, last);
      RunNext(w, a + front, last);
    }
  }

  /** Answers of older generations change nothing. */
  lemma {:induction false} OldAnswersIgnored(w: World, answers: seq<Action>)
    requires OnlyAnswers(answers) && forall r :: r in w.open ==> r.fetchID < w.s.currentFetchID
    ensures var v := Run(w, answers); v.s == w.s && forall r :: r in v.open ==> r.fetchID < v.s.currentFetchID
  {
    if answers != [] {
      var n := |answers| - 1;
      assert answers[n] in answers;
      OldAnswersIgnored(w, answers[..n]);
      var v := Run(w, answers[..n]);
      forall r | r in Step(v, answers[n]).open
        ensures r.fetchID < w.s.currentFetchID
      {
        assert r in v.open;
      }
    }
  }

  /** Without sources a fetch reports nothing: the calendar goes on drawing what it drew. The list is empty only after
      the sticky source was removed too, by way of the source of one of its events. */
  lemma NoSourcesNoReport(sources: seq<Source>, hooks: Hooks, actions: seq<Action>, start: int, end: int,
                          timings: seq<Timing>, answers: seq<Action>)
    requires OnlyAnswers(answers) && Run(Initial(sources, hooks), actions).s.sources == []
    ensures var w := Run(Initial(sources, hooks), actions);
      Run(Step(w, DoFetch(start, end, timings)), answers).s.reports == w.s.reports
  {
    var w := Run(Initial(sources, hooks), actions);
    RunKeepsInvariant(sources, hooks, actions);
    forall r | r in w.open
      ensures r.fetchID < w.s.currentFetchID + 1
    {
      assert Known(w.s, r);
    }
    OldAnswersIgnored(Step(w, DoFetch(start, end, timings)), answers);
  }

  /** Lazy against eager, after any history whose answers are in: skipping the fetch of a view draws what making it and
      waiting for its answers would draw, and the orphans' events besides. So both draw the same if and only if the
      orphans hold nothing in the view, or there is no source left to be asked. */
  lemma LazyAgreesWithEager(shows: Visibility, contents: Contents, sources: seq<Source>, hooks: Hooks,
                            actions: seq<Action>, start: int, end: int, timings: seq<Timing>, answers: seq<Action>,
                            late: seq<Source>)
    requires OnlyAnswers(answers)
    requires var w := Run(Initial(sources, hooks), actions);
      && w.s.pendingSourceCnt == 0 && FaithfulWorld(shows, contents, w) && !IsFetchNeeded(w.s, start, end)
      && multiset(late) == w.orphans
    requires var v := Run(Initial(sources, hooks), actions + ([DoFetch(start, end, timings)] + answers));
      v.s.pendingSourceCnt == 0 && FaithfulWorld(shows, contents, v)
    ensures var w := Run(Initial(sources, hooks), actions);
      var v := Run(Initial(sources, hooks), actions + ([DoFetch(start, end, timings)] + answers));
      var lazy, eager := Shown(shows(start, end), Rendered(w.s)), Shown(shows(start, end), Rendered(v.s));
      var surplus := ShownBySources(shows(start, end), contents, late);
      && (w.s.sources != [] ==> lazy == eager + surplus)
      && (lazy == eager <==> w.s.sources == [] || surplus == multiset{})
  {
    var w := Run(Initial(sources, hooks), actions);
    var fetch := DoFetch(start, end, timings);
    RunConcat(Initial(sources, hooks), actions, [fetch] + answers);
    RunConcat(w, [fetch], answers);
    assert [fetch][..0] == [];
    assert Run(w, [fetch]) == Step(w, fetch);
    AnswersKeepFetch(Step(w, fetch), answers);
    FetchStarts(w, start, end, timings);
    if w.s.sources == [] {
      NoSourcesNoReport(sources, hooks, actions, start, end, timings, answers);
    } else {
      hide Run, Step, Shown, ShownBySources;
      RenderedShowsSources(shows, contents, sources, hooks, actions, start, end, late);
      RenderedShowsSources(shows, contents, sources, hooks, actions + ([fetch] + answers), start, end, []);
      NoneShown(shows(start, end), contents);
      Surplus(ShownBySources(shows(start, end), contents, w.s.sources),
              ShownBySources(shows(start, end), contents, late));
    }
  }

  lemma FetchStarts(w: World, start: int, end: int, timings: seq<Timing>)
    ensures var v := Step(w, DoFetch(start, end, timings));
      v.orphans == multiset{} && v.s.sources == w.s.sources && v.s.range == Some(Range(start, end))
  {
    hide AskWorldUpTo;
  }

  lemma NoneShown(sees: Event -> bool, contents: Contents)
    ensures ShownBySources(sees, contents, []) == multiset{}
  {
  }

  lemma Surplus(a: multiset<Event>, b: multiset<Event>)
    ensures a + multiset{} == a && (a + b == a <==> b == multiset{})
  {
    if a + b == a {
      assert b == (a + b) - a;
    }
  }
}

/** Visibility as the renderers have it: an event shows in a view when it touches a day of it. Times are minutes. */
module ViewVisibility {
  import opened EventFetch
  import opened LazyFetch

  const DAY := 1440

  function ClearTime(t: int): int { t - t % DAY }

  /** The first day after the event, for the all-day and month views. */
  function ExclEndDay(e: Event): int {
    if e.end.None? then ClearTime(e.start) + DAY
    else if e.allDay || e.end.value % DAY != 0 then ClearTime(e.end.value) + DAY
    else e.end.value
  }

  lemma ClearTimeIs(t: int)
    ensures ClearTime(t) % DAY == 0 && ClearTime(t) <= t < ClearTime(t) + DAY
  {
    assert t == DAY * (t / DAY) + t % DAY;
    assert (DAY * (t / DAY)) % DAY == 0;
  }

  /** A timed end at midnight excludes its own day; an all-day end, or the start of an event without an end, lies on the
      last day of the event. */
  lemma ExclEndDayIs(e: Event)
    ensures ExclEndDay(e) % DAY == 0
    ensures e.end.Some? && !e.allDay ==> ExclEndDay(e) - DAY < e.end.value <= ExclEndDay(e)
    ensures e.end.Some? && e.allDay ==> ExclEndDay(e) - DAY <= e.end.value < ExclEndDay(e)
    ensures e.end.None? ==> ExclEndDay(e) - DAY <= e.start < ExclEndDay(e)
  {
    hide ClearTime;
    ClearTimeIs(e.start);
    if e.end.Some? {
      ClearTimeIs(e.end.value);
      ClearTimeOfDay(e.end.value);
    }
  }

  lemma ClearTimeOfDay(t: int)
    ensures t % DAY == 0 <==> ClearTime(t) == t
    ensures (ClearTime(t) + DAY) % DAY == ClearTime(t) % DAY
  {
  }

  /** Some segment of the event lies on day `d`, which is not hidden. */
  predicate DayTouches(e: Event, d: int, hidden: int -> bool) {
    !hidden(d) && ClearTime(e.start) <= d < ExclEndDay(e)
  }

  function SlotEventEnd(e: Event, defaultMinutes: int): int {
    if e.end.Some? then e.end.value else e.start + defaultMinutes
  }

  /** Some slot segment of the event lies in the column of day `d`, between its first and last minute. */
  predicate SlotTouches(e: Event, d: int, hidden: int -> bool, defaultMinutes: int, minMinute: int, maxMinute: int) {
    !hidden(d) && !e.allDay && SlotEventEnd(e, defaultMinutes) > d + minMinute && e.start < d + maxMinute
  }

  /** Visibility made of days. */
  ghost predicate DayWise(shows: Visibility, touches: (Event, int) -> bool) {
    forall e, start, end ::
      shows(start, end)(e) <==> exists d :: start <= d && d + DAY <= end && d % DAY == 0 && touches(e, d)
  }

  /** It is monotone, whatever an event touches: a source may use the view's own test. */
  lemma DayWiseCoversItself(shows: Visibility, touches: (Event, int) -> bool)
    requires DayWise(shows, touches)
    ensures Covers(shows, shows)
  {
    forall e, r0, r1, start, end | r0 <= start && end <= r1 && shows(start, end)(e)
      ensures shows(r0, r1)(e)
    {
      var d :| start <= d && d + DAY <= end && d % DAY == 0 && touches(e, d);
      assert r0 <= d && d + DAY <= r1;
    }
  }

  /** Overlap with the range, for a given end of each event. */
  ghost predicate Overlap(meets: Visibility, endOf: Event -> int) {
    forall e, start, end :: meets(start, end)(e) <==> e.start < end && endOf(e) > start
  }

  lemma OverlapCovers(meets: Visibility, endOf: Event -> int, shows: Visibility, touches: (Event, int) -> bool)
    requires Overlap(meets, endOf) && DayWise(shows, touches)
    requires forall e, d :: d % DAY == 0 && touches(e, d) ==> e.start < d + DAY && endOf(e) > d
    ensures Covers(meets, shows)
  {
    forall e, r0, r1, start, end | r0 <= start && end <= r1 && shows(start, end)(e)
      ensures meets(r0, r1)(e)
    {
      var d :| start <= d && d + DAY <= end && d % DAY == 0 && touches(e, d);
    }
  }

  /** A source that selects by overlap up to the day the renderer excludes serves the all-day and month views. */
  lemma OverlapServesDayViews(meets: Visibility, shows: Visibility, hidden: int -> bool)
    requires Overlap(meets, ExclEndDay) && DayWise(shows, (e, d) => DayTouches(e, d, hidden))
    ensures Covers(meets, shows)
  {
    OverlapCovers(meets, ExclEndDay, shows, (e, d) => DayTouches(e, d, hidden));
  }

  /** One that selects by overlap up to the end the slots draw serves the agenda. */
  lemma OverlapServesSlots(meets: Visibility, shows: Visibility, hidden: int -> bool, defaultMinutes: int,
                           minMinute: int, maxMinute: int)
    requires 0 <= minMinute && maxMinute <= DAY
    requires Overlap(meets, e => SlotEventEnd(e, defaultMinutes))
    requires DayWise(shows, (e, d) => SlotTouches(e, d, hidden, defaultMinutes, minMinute, maxMinute))
    ensures Covers(meets, shows)
  {
    OverlapCovers(meets, e => SlotEventEnd(e, defaultMinutes), shows,
                  (e, d) => SlotTouches(e, d, hidden, defaultMinutes, minMinute, maxMinute));
  }
}
