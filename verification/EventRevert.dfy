/** Moving and resizing the events of a group, and the revert functions handed to the user's handlers. Instants are
    milliseconds in time without clock changes; instant 0 is the epoch of the host language. */
module EventRevert {
  import opened Sequences
  import opened Wrappers

  type Instant = int
  const DAY := 86400000
  const MINUTE := 60000

  /** What is compared of an event. */
  datatype Value = Value(start: Instant, end: Option<Instant>, allDay: bool)

  /** addDays moves every instant but the epoch, which it takes for a missing date. */
  function AddDays(t: Instant, n: int): Instant {
    if t == 0 then t else t + n * DAY
  }

  function AddMinutes(t: Instant, n: int): Instant {
    t + n * MINUTE
  }

  function Shift(t: Instant, days: int, minutes: int): Instant {
    AddMinutes(AddDays(t, days), minutes)
  }

  /** An end that is not after the start is dropped. */
  function Normalized(v: Value): (r: Value)
    ensures Normal(r)
  {
    if v.end.Some? && v.end.value <= v.start then v.(end := None) else v
  }

  predicate Normal(v: Value) {
    v.end.Some? ==> v.end.value > v.start
  }

  /** The end of an event without one: the start of an all-day event, some minutes later otherwise. */
  function DefaultEnd(v: Value, minutes: int): Instant {
    if v.allDay then v.start else AddMinutes(v.start, minutes)
  }

  function EffectiveEnd(v: Value, minutes: int): Instant {
    if v.end.Some? then v.end.value else DefaultEnd(v, minutes)
  }

  function Moved(v: Value, days: int, minutes: int, allDay: Option<bool>): Value {
    Normalized(Value(Shift(v.start, days, minutes),
                     if v.end.Some? then Some(Shift(v.end.value, days, minutes)) else None,
                     if allDay.Some? then allDay.value else v.allDay))
  }

  function Elongated(v: Value, days: int, minutes: int, defaultMinutes: int): Value {
    Normalized(v.(end := Some(Shift(EffectiveEnd(v, defaultMinutes), days, minutes))))
  }

  // --- the methods ---

  class CalendarEvent {
    const id: int
    var start: Instant
    var end: Option<Instant>
    var allDay: bool
    var originalStart: Instant
    var originalEnd: Option<Instant>

    function Get(): Value
      reads this
    {
      Value(start, end, allDay)
    }

    /** normalizeEvent on dates that are parsed already. */
    method Normalize()
      modifies this
      ensures Get() == Normalized(old(Get())) && originalStart == start && originalEnd == end
    {
      originalStart := start;
      if end.Some? && end.value <= start {
        end := None;
      }
      originalEnd := end;
    }
  }

  method MoveEvents(events: seq<CalendarEvent>, dayDelta: int, minuteDelta: int, allDay: Option<bool>)
    requires Distinct(events)
    modifies set e | e in events
    ensures forall e :: e in events ==> e.Get() == Moved(old(e.Get()), dayDelta, minuteDelta, allDay)
  {
    for i := 0 to |events|
      invariant forall k :: 0 <= k < i ==> events[k].Get() == Moved(old(events[k].Get()), dayDelta, minuteDelta, allDay)
      invariant forall k :: i <= k < |events| ==> events[k].Get() == old(events[k].Get())
    {
      var e := events[i];
      if allDay.Some? {
        e.allDay := allDay.value;
      }
      e.start := AddMinutes(AddDays(e.start, dayDelta), minuteDelta);
      if e.end.Some? {
        e.end := Some(AddMinutes(AddDays(e.end.value, dayDelta), minuteDelta));
      }
      e.Normalize();
    }
  }

  method ElongateEvents(events: seq<CalendarEvent>, dayDelta: int, minuteDelta: int, defaultMinutes: int)
    requires Distinct(events)
    modifies set e | e in events
    ensures forall e :: e in events ==> e.Get() == Elongated(old(e.Get()), dayDelta, minuteDelta, defaultMinutes)
  {
    for i := 0 to |events|
      invariant forall k :: 0 <= k < i ==>
                  events[k].Get() == Elongated(old(events[k].Get()), dayDelta, minuteDelta, defaultMinutes)
      invariant forall k :: i <= k < |events| ==> events[k].Get() == old(events[k].Get())
    {
      var e := events[i];
      e.end := Some(AddMinutes(AddDays(EffectiveEnd(e.Get(), defaultMinutes), dayDelta), minuteDelta));
      e.Normalize();
    }
  }

  /** eventDrop followed by its revert: each event of the group has its original start and end exactly when shifting
      there and back works for both, and its original allDay exactly when that of the dragged event is the same. */
  method DropAndRevert(event: CalendarEvent, events: seq<CalendarEvent>, dayDelta: int, minuteDelta: int,
      allDay: Option<bool>)
    requires Distinct(events) && forall e :: e in events ==> Normal(e.Get())
    modifies set e | e in events
    ensures forall e :: e in events ==> var v := old(e.Get());
      && (e.start == v.start && e.end == v.end <==> Returns(v, dayDelta, minuteDelta))
      && (e.allDay == v.allDay <==> old(event.allDay) == v.allDay)
  {
    hide Moved, Returns, Normal;
    var oldAllDay := event.allDay;
    MoveEvents(events, dayDelta, minuteDelta, allDay);
    MoveEvents(events, -dayDelta, -minuteDelta, Some(oldAllDay));
    forall e | e in events
      ensures var v := old(e.Get());
        && (e.start == v.start && e.end == v.end <==> Returns(v, dayDelta, minuteDelta))
        && e.allDay == oldAllDay
    {
      ghost var v := old(e.Get());
      MoveBackIff(v, dayDelta, minuteDelta, allDay, oldAllDay);
      assert e.Get() == Moved(Moved(v, dayDelta, minuteDelta, allDay), -dayDelta, -minuteDelta, Some(oldAllDay));
    }
  }

  /** eventResize followed by its revert: start and allDay are as they were, and each event of the group has its
      original effective end exactly when the condition below holds; away from the epoch, when its resized end was
      after its start or was the end it has without one. */
  method ResizeAndRevert(events: seq<CalendarEvent>, dayDelta: int, minuteDelta: int, defaultMinutes: nat)
    requires Distinct(events) && forall e :: e in events ==> Normal(e.Get())
    modifies set e | e in events
    ensures forall e :: e in events ==> var v := old(e.Get());
      && e.start == v.start && e.allDay == v.allDay
      && (EffectiveEnd(e.Get(), defaultMinutes) == EffectiveEnd(v, defaultMinutes)
          <==> EndReturns(v, dayDelta, minuteDelta, defaultMinutes))
  {
    hide Elongated, EndReturns, EffectiveEnd, Normal;
    ElongateEvents(events, dayDelta, minuteDelta, defaultMinutes);
    ElongateEvents(events, -dayDelta, -minuteDelta, defaultMinutes);
    forall e | e in events
      ensures var v := old(e.Get());
        && e.start == v.start && e.allDay == v.allDay
        && (EffectiveEnd(e.Get(), defaultMinutes) == EffectiveEnd(v, defaultMinutes)
            <==> EndReturns(v, dayDelta, minuteDelta, defaultMinutes))
    {
      ghost var v := old(e.Get());
      ElongateBackIff(v, dayDelta, minuteDelta, defaultMinutes);
      assert e.Get() == Elongated(Elongated(v, dayDelta, minuteDelta, defaultMinutes), -dayDelta, -minuteDelta,
                                  defaultMinutes);
    }
  }

  // --- what a drop and a resize do ---

  /** A day is 24 hours of 60 minutes of 60 seconds of 1000 milliseconds. */
  lemma Units(t: Instant, days: int, minutes: int)
    ensures t != 0 || days == 0 ==> Shift(t, days, minutes) == t + (days * 24 * 60 + minutes) * 60 * 1000
    ensures Shift(0, days, minutes) == minutes * 60 * 1000
  {
  }

  /** Away from the epoch a drop moves both ends by the same time and keeps the duration. */
  lemma DropMoves(v: Value, days: int, minutes: int, allDay: Option<bool>)
    requires Normal(v) && (days == 0 || (v.start != 0 && v.end != Some(0)))
    ensures var r, ms := Moved(v, days, minutes, allDay), (days * 24 * 60 + minutes) * 60 * 1000;
      && r.start == v.start + ms && r.end == (if v.end.Some? then Some(v.end.value + ms) else None)
      && r.allDay == (if allDay.Some? then allDay.value else v.allDay)
  {
  }

  /** A resize moves the end the event is shown with, which is the start for an all-day event without one and some
      minutes later for a timed one; the event has no end if that would not be after its start. */
  lemma ResizeMovesEnd(v: Value, days: int, minutes: int, defaultMinutes: int)
    ensures var end := if v.end.Some? then v.end.value
                       else if v.allDay then v.start
                       else v.start + defaultMinutes * 60 * 1000;
      var resized := end + (days * 24 * 60 + minutes) * 60 * 1000;
      end != 0 || days == 0 ==>
        Elongated(v, days, minutes, defaultMinutes)
        == Value(v.start, if resized > v.start then Some(resized) else None, v.allDay)
  {
  }

  // --- there and back ---

  /** The epoch is on the way only where addDays leaves it alone. */
  predicate Safe(t: Instant, days: int, minutes: int) {
    days == 0 || (if t == 0 then minutes == 0 else t + days * DAY + minutes * MINUTE != 0)
  }

  lemma ShiftBackIff(t: Instant, days: int, minutes: int)
    ensures Shift(Shift(t, days, minutes), -days, -minutes) == t <==> Safe(t, days, minutes)
  {
  }

  /** Start and end both come back, and the end is not dropped in between. */
  predicate Returns(v: Value, days: int, minutes: int) {
    && Safe(v.start, days, minutes)
    && (v.end.Some? ==> Safe(v.end.value, days, minutes)
                        && Shift(v.end.value, days, minutes) > Shift(v.start, days, minutes))
  }

  lemma MoveBackIff(v: Value, days: int, minutes: int, allDay: Option<bool>, oldAllDay: bool)
    requires Normal(v)
    ensures var r := Moved(Moved(v, days, minutes, allDay), -days, -minutes, Some(oldAllDay));
      && (r.start == v.start && r.end == v.end <==> Returns(v, days, minutes))
      && r.allDay == oldAllDay
  {
    ShiftBackIff(v.start, days, minutes);
    if v.end.Some? {
      ShiftBackIff(v.end.value, days, minutes);
    }
  }

  /** An event that is nowhere at the epoch always comes back. */
  lemma MoveBack(v: Value, days: int, minutes: int, allDay: Option<bool>)
    requires Normal(v) && v.start != 0 && Shift(v.start, days, minutes) != 0
    requires v.end.Some? ==> v.end.value != 0 && Shift(v.end.value, days, minutes) != 0
    ensures Moved(Moved(v, days, minutes, allDay), -days, -minutes, Some(v.allDay)) == v
  {
    MoveBackIff(v, days, minutes, allDay, v.allDay);
  }

  /** A drop onto the epoch is not undone: the event of the day before stays a day late. */
  lemma DropOntoEpochStays()
    ensures var v := Value(-DAY, None, true);
      Moved(Moved(v, 1, 0, Some(true)), -1, 0, Some(true)) == Value(0, None, true) != v
  {
  }

  /** When a resize can be undone. If the resized end was kept, shifting it there and back must work, or end before the
      start while the event had no end of its own; if it was dropped, the shift back starts from the default end. */
  predicate EndReturns(v: Value, days: int, minutes: int, defaultMinutes: int) {
    var e, d := EffectiveEnd(v, defaultMinutes), DefaultEnd(v, defaultMinutes);
    var resized := Shift(e, days, minutes);
    if resized > v.start then Safe(e, days, minutes) || (Shift(resized, -days, -minutes) <= v.start && e == d)
    else if Shift(d, -days, -minutes) > v.start then Shift(d, -days, -minutes) == e
    else e == d
  }

  lemma ElongateBackIff(v: Value, days: int, minutes: int, defaultMinutes: nat)
    requires Normal(v)
    ensures var r := Elongated(Elongated(v, days, minutes, defaultMinutes), -days, -minutes, defaultMinutes);
      && r.start == v.start && r.allDay == v.allDay
      && (EffectiveEnd(r, defaultMinutes) == EffectiveEnd(v, defaultMinutes)
          <==> EndReturns(v, days, minutes, defaultMinutes))
  {
    hide Safe;
    ShiftBackIff(EffectiveEnd(v, defaultMinutes), days, minutes);
    assert EffectiveEnd(v, defaultMinutes) >= v.start;
  }

  /** Away from the epoch, and whenever no days are added, the condition is what a user sees: the resized end was after
      the start, or it was the end the event has without one. */
  lemma EndReturnsAwayFromEpoch(v: Value, days: int, minutes: int, defaultMinutes: nat)
    requires Normal(v)
    requires days == 0 || (EffectiveEnd(v, defaultMinutes) != 0 && DefaultEnd(v, defaultMinutes) != 0
                           && EffectiveEnd(v, defaultMinutes) + days * DAY + minutes * MINUTE != 0)
    ensures var resized := Shift(EffectiveEnd(v, defaultMinutes), days, minutes);
      EndReturns(v, days, minutes, defaultMinutes)
      <==> resized > v.start || resized == DefaultEnd(v, defaultMinutes)
  {
  }

  /** A resize onto the epoch is not undone: the all-day event that ended a day before it ends on it afterwards. */
  lemma ResizeOntoEpochStays()
    ensures var v := Value(-3 * DAY, Some(-DAY), true);
      Elongated(Elongated(v, 1, 0, 120), -1, 0, 120) == v.(end := Some(0)) && !EndReturns(v, 1, 0, 120)
  {
  }

  /** A two-hour event shortened by three hours comes back with the default length plus three hours. */
  lemma ShortenedPastStart(start: Instant)
    ensures var v := Value(start, Some(start + 120 * MINUTE), false);
      Elongated(Elongated(v, 0, -180, 120), 0, 180, 120).end == Some(start + 300 * MINUTE)
  {
  }
}
