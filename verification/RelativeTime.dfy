/**
 Relative timestamps of packages/shared/src/formatDate.js: the text, the delay until it can
 next change, and the subscription that re-renders it.

 Instants are whole milliseconds; a date that is empty or does not parse has none. Texts that
 differ here differ as strings; the absolute date does not depend on the current time.
 */
module RelativeTime {
  import opened Prelude

  datatype Text = Empty | JustNow | MinutesAgo(n: int) | HoursAgo(n: int) | InMinutes(n: int) | InHours(n: int) | Absolute

  const MINUTE_MS := 60 * 1000
  const HOUR_MS := 60 * MINUTE_MS
  const DAY_MS := 24 * HOUR_MS
  const FUTURE_SKEW_MS := MINUTE_MS

  function FormatRelativeTime(date: Option<int>, now: int): Text {
    match date
    case None => Empty
    case Some(time) =>
      var age := now - time;
      if age < 0 then
        var ahead := -age;
        if ahead < FUTURE_SKEW_MS then JustNow
        else if ahead >= DAY_MS then Absolute
        else if ahead < HOUR_MS then InMinutes(ahead / MINUTE_MS)
        else InHours(ahead / HOUR_MS)
      else if age < MINUTE_MS then JustNow
      else if age < HOUR_MS then MinutesAgo(age / MINUTE_MS)
      else if age < DAY_MS then HoursAgo(age / HOUR_MS)
      else Absolute
  }

  function GetNextRelativeTimeUpdateDelay(date: Option<int>, now: int): Option<int> {
    match date
    case None => None
    case Some(time) =>
      var age := now - time;
      if age < 0 then Some(MINUTE_MS)
      else if age >= DAY_MS then None
      else
        var step := if age < HOUR_MS then MINUTE_MS else HOUR_MS;
        Some(step - age % step)
  }

  /** What each text says about the age; the hour or minute counted is the last one completed. */
  lemma TextIsExact(time: int, now: int)
    ensures var (text, age) := (FormatRelativeTime(Some(time), now), now - time);
            match text
            case Empty => false
            case JustNow => -MINUTE_MS < age < MINUTE_MS
            case MinutesAgo(n) => 1 <= n < 60 && n * MINUTE_MS <= age < (n + 1) * MINUTE_MS
            case HoursAgo(n) => 1 <= n < 24 && n * HOUR_MS <= age < (n + 1) * HOUR_MS
            case InMinutes(n) => 1 <= n < 60 && n * MINUTE_MS <= -age < (n + 1) * MINUTE_MS
            case InHours(n) => 1 <= n < 24 && n * HOUR_MS <= -age < (n + 1) * HOUR_MS
            case Absolute => age <= -DAY_MS || DAY_MS <= age
  {
    Quotients(if now < time then time - now else now - time);
  }

  lemma Quotients(a: int)
    requires 0 <= a
    ensures a / MINUTE_MS * MINUTE_MS <= a < (a / MINUTE_MS + 1) * MINUTE_MS
    ensures a / HOUR_MS * HOUR_MS <= a < (a / HOUR_MS + 1) * HOUR_MS
  {
  }

  // ----- The delay

  /** The text shown at `now` is the right one until the delay is over. */
  ghost predicate NeverStale(date: Option<int>, now: int) {
    var delay := GetNextRelativeTimeUpdateDelay(date, now);
    forall t :: now <= t && (delay.None? || t < now + delay.value) ==>
      FormatRelativeTime(date, t) == FormatRelativeTime(date, now)
  }

  /**
   For an instant that is not in the future the delay is positive, the text is constant before
   it and another one when it is over; without a delay the text never changes again.
   */
  lemma PastIsExact(date: Option<int>, now: int)
    requires date.Some? ==> date.value <= now
    ensures NeverStale(date, now)
    ensures var delay := GetNextRelativeTimeUpdateDelay(date, now);
            delay.Some? ==> 0 < delay.value && FormatRelativeTime(date, now + delay.value) != FormatRelativeTime(date, now)
  {
    var delay := GetNextRelativeTimeUpdateDelay(date, now);
    if delay.Some? {
      var age := now - date.value;
      var step := if age < HOUR_MS then MINUTE_MS else HOUR_MS;
      forall t | now <= t < now + delay.value
        ensures FormatRelativeTime(date, t) == FormatRelativeTime(date, now)
      {
        SameQuotient(age, t - date.value, step);
        TextIsTheQuotient(date.value, now, t, step);
      }
      NextQuotient(age, step);
      TextIsTheQuotient(date.value, now, now + delay.value, step);
    }
  }

  /** Within the first hour the text tells the minutes, and within the first day the hours. */
  lemma TextIsTheQuotient(time: int, now: int, t: int, step: int)
    requires time <= now <= t && now - time < DAY_MS && step == if now - time < HOUR_MS then MINUTE_MS else HOUR_MS
    ensures FormatRelativeTime(Some(time), t) == FormatRelativeTime(Some(time), now) <==> (t - time) / step == (now - time) / step
  {
    if step == MINUTE_MS {
      TextIsTheMinute(now - time, t - time);
    } else {
      TextIsTheHour(now - time, t - time);
    }
    hide FormatRelativeTime;
    OnlyTheAgeCounts(time, now);
    OnlyTheAgeCounts(time, t);
  }

  lemma TextIsTheMinute(age: int, later: int)
    requires 0 <= age <= later && age < HOUR_MS
    ensures FormatRelativeTime(Some(0), later) == FormatRelativeTime(Some(0), age) <==> later / MINUTE_MS == age / MINUTE_MS
  {
  }

  lemma TextIsTheHour(age: int, later: int)
    requires HOUR_MS <= age <= later && age < DAY_MS
    ensures FormatRelativeTime(Some(0), later) == FormatRelativeTime(Some(0), age) <==> later / HOUR_MS == age / HOUR_MS
  {
  }

  lemma SameQuotient(a: int, b: int, step: int)
    requires (step == MINUTE_MS || step == HOUR_MS) && 0 <= a <= b < a + (step - a % step)
    ensures a / step == b / step
  {
    if step == MINUTE_MS {
    } else {
    }
  }

  lemma NextQuotient(a: int, step: int)
    requires (step == MINUTE_MS || step == HOUR_MS) && 0 <= a
    ensures (a + (step - a % step)) / step == a / step + 1
  {
    if step == MINUTE_MS {
    } else {
    }
  }

  /**
   Ahead of an instant in the future the delay is always a minute, and the text can be stale
   before it is over: it is not exactly when the instant is under a minute away, when the minute
   or hour still counted lasts through the delay, or when the absolute date does.
   */
  predicate MinuteIsEnough(ahead: int) {
    if ahead < MINUTE_MS then true
    else if ahead < HOUR_MS then ahead % MINUTE_MS == MINUTE_MS - 1
    else if ahead < DAY_MS then ahead % HOUR_MS >= MINUTE_MS - 1
    else ahead - DAY_MS >= MINUTE_MS - 1
  }

  lemma FutureIsExact(time: int, now: int)
    requires now < time
    ensures NeverStale(Some(time), now) <==> MinuteIsEnough(time - now)
  {
    var ahead := time - now;
    if MinuteIsEnough(ahead) {
      forall t | now <= t < now + MINUTE_MS
        ensures FormatRelativeTime(Some(time), t) == FormatRelativeTime(Some(time), now)
      {
        MinuteLasts(ahead, time - t);
      }
    } else {
      MinuteRunsOut(time, now);
    }
  }

  lemma MinuteLasts(ahead: int, later: int)
    requires 0 < ahead && MinuteIsEnough(ahead) && ahead - MINUTE_MS < later <= ahead
    ensures FormatRelativeTime(Some(0), -later) == FormatRelativeTime(Some(0), -ahead)
  {
  }

  lemma MinuteRunsOut(time: int, now: int)
    requires now < time && !MinuteIsEnough(time - now)
    ensures FormatRelativeTime(Some(time), now + MINUTE_MS - 1) != FormatRelativeTime(Some(time), now)
  {
  }

  lemma OnlyTheAgeCounts(time: int, now: int)
    ensures FormatRelativeTime(Some(time), now) == FormatRelativeTime(Some(0), now - time)
  {
  }

  /** Ninety seconds ahead the text is wrong for the last half minute of the delay. */
  lemma NinetySecondsAhead()
    ensures FormatRelativeTime(Some(90_000), 0) == InMinutes(1)
    ensures FormatRelativeTime(Some(90_000), 30_001) == JustNow
    ensures GetNextRelativeTimeUpdateDelay(Some(90_000), 0) == Some(60_000)
    ensures !NeverStale(Some(90_000), 0)
  {
  }

  // ----- How often a subscription calls back

  /** How many further changes of the text lie ahead of `now`, at most. */
  function ChangesLeft(time: int, now: int): nat {
    var age := now - time;
    if age < 0 then 84 + (-age - 1) / MINUTE_MS
    else if age < HOUR_MS then 83 - age / MINUTE_MS
    else if age < DAY_MS then 24 - age / HOUR_MS
    else 0
  }

  /** A tick that comes when the delay is over, or later, leaves fewer changes; a punctual one just one fewer. */
  lemma TickUsesAChange(time: int, now: int, next: int)
    requires var delay := GetNextRelativeTimeUpdateDelay(Some(time), now); delay.Some? && now + delay.value <= next
    ensures ChangesLeft(time, next) < ChangesLeft(time, now)
    ensures time <= now && next == now + GetNextRelativeTimeUpdateDelay(Some(time), now).value ==>
              ChangesLeft(time, next) == ChangesLeft(time, now) - 1
  {
    if time <= now {
      var age := now - time;
      NextQuotient(age, if age < HOUR_MS then MINUTE_MS else HOUR_MS);
    }
    LaterLeavesFewer(time, now + GetNextRelativeTimeUpdateDelay(Some(time), now).value, next);
  }

  lemma LaterLeavesFewer(time: int, now: int, next: int)
    requires now <= next
    ensures ChangesLeft(time, next) <= ChangesLeft(time, now)
  {
  }

  /** From the instant on, the text and the number of changes left determine each other. */
  lemma TextTellsChanges(time: int, s: int, t: int)
    requires time <= s && time <= t
    ensures FormatRelativeTime(Some(time), s) == FormatRelativeTime(Some(time), t) <==> ChangesLeft(time, s) == ChangesLeft(time, t)
  {
  }

  /** An instant at which the text changes. */
  predicate Boundary(time: int, b: int) {
    var age := b - time;
    (0 < age <= HOUR_MS && age % MINUTE_MS == 0) || (HOUR_MS < age <= DAY_MS && age % HOUR_MS == 0)
  }

  ghost predicate BoundaryWithin(time: int, from: int, to: int) {
    exists b :: from < b <= to && Boundary(time, b)
  }

  lemma BoundaryUsesAChange(time: int, b: int)
    requires Boundary(time, b)
    ensures ChangesLeft(time, b) < ChangesLeft(time, b - 1)
  {
  }

  lemma DelayEndsAtBoundary(time: int, now: int)
    requires time <= now && GetNextRelativeTimeUpdateDelay(Some(time), now).Some?
    ensures Boundary(time, now + GetNextRelativeTimeUpdateDelay(Some(time), now).value)
  {
    var age := now - time;
    if age < HOUR_MS {
      assert (age + (MINUTE_MS - age % MINUTE_MS)) % MINUTE_MS == 0;
    } else {
      assert (age + (HOUR_MS - age % HOUR_MS)) % HOUR_MS == 0;
    }
  }

  /** Two instants show the same text exactly when no boundary lies between them. */
  lemma SameTextExactly(time: int, from: int, to: int)
    requires time <= from <= to
    ensures FormatRelativeTime(Some(time), from) == FormatRelativeTime(Some(time), to) <==> !BoundaryWithin(time, from, to)
  {
    TextTellsChanges(time, from, to);
    if BoundaryWithin(time, from, to) {
      var b :| from < b <= to && Boundary(time, b);
      BoundaryUsesAChange(time, b);
      LaterLeavesFewer(time, from, b - 1);
      LaterLeavesFewer(time, b, to);
    } else {
      PastIsExact(Some(time), from);
      var delay := GetNextRelativeTimeUpdateDelay(Some(time), from);
      if delay.Some? {
        DelayEndsAtBoundary(time, from);
        assert !(from + delay.value <= to);
      }
    }
  }

  // ----- Callbacks

  /** The two readings of the clock in a callback: for the text it shows, and for the delay it arms. */
  datatype Callback = Callback(shown: int, armed: int)

  /** The callbacks of one subscription; each timer fires at the end of its delay or later. */
  ghost predicate Ticks(date: Option<int>, calls: seq<Callback>) {
    && (forall i :: 0 <= i < |calls| ==> calls[i].shown <= calls[i].armed)
    && (forall i, j :: 0 <= i && j == i + 1 && j < |calls| ==> Follows(date, calls[i], calls[j]))
  }

  predicate Follows(date: Option<int>, call: Callback, next: Callback) {
    var delay := GetNextRelativeTimeUpdateDelay(date, call.armed);
    delay.Some? && call.armed + delay.value <= next.shown
  }

  lemma {:induction false} TicksRunOut(time: int, calls: seq<Callback>)
    requires calls != [] && Ticks(Some(time), calls)
    ensures |calls| + ChangesLeft(time, calls[|calls| - 1].shown) <= 1 + ChangesLeft(time, calls[0].shown)
    ensures calls[0].shown <= calls[|calls| - 1].shown
    decreases |calls|
  {
    if |calls| > 1 {
      var n := |calls| - 1;
      TicksRunOut(time, calls[..n]);
      TickUsesAChange(time, calls[n - 1].armed, calls[n].shown);
      LaterLeavesFewer(time, calls[n - 1].shown, calls[n - 1].armed);
    }
  }

  /**
   However late the timers fire and however long the callbacks take, a subscription to an
   instant that is not in the future calls back at most 84 times, each time with a text it has
   not shown before.
   */
  lemma AtMost84Callbacks(time: int, calls: seq<Callback>)
    requires calls != [] && Ticks(Some(time), calls) && time <= calls[0].shown
    ensures |calls| <= 84
    ensures forall i, j :: 0 <= i < j < |calls| ==>
              FormatRelativeTime(Some(time), calls[i].shown) != FormatRelativeTime(Some(time), calls[j].shown)
  {
    TicksRunOut(time, calls);
    forall i, j | 0 <= i < j < |calls|
      ensures FormatRelativeTime(Some(time), calls[i].shown) != FormatRelativeTime(Some(time), calls[j].shown)
    {
      EveryTickIsNew(time, calls, i, j);
    }
  }

  lemma EveryTickIsNew(time: int, calls: seq<Callback>, i: nat, j: nat)
    requires Ticks(Some(time), calls) && i < j < |calls| && time <= calls[0].shown
    ensures FormatRelativeTime(Some(time), calls[i].shown) != FormatRelativeTime(Some(time), calls[j].shown)
  {
    hide Follows, ChangesLeft, FormatRelativeTime;
    TicksRunOut(time, calls[..i + 1]);
    TicksRunOut(time, calls[i..j + 1]);
    TextTellsChanges(time, calls[i].shown, calls[j].shown);
  }

  /** A callback that arms no timer leaves the absolute date on screen, exactly unless the first full day ended between its two readings. */
  lemma StopsAtDateExactly(time: int, last: Callback)
    requires last.shown <= last.armed && GetNextRelativeTimeUpdateDelay(Some(time), last.armed).None?
    ensures FormatRelativeTime(Some(time), last.shown) == Absolute
            <==> !(-DAY_MS < last.shown - time < DAY_MS <= last.armed - time)
  {
  }

  /** The text of a callback is the right one until the timer it arms is due, or for ever if it arms none. */
  ghost predicate RightUntilNext(time: int, call: Callback) {
    var delay := GetNextRelativeTimeUpdateDelay(Some(time), call.armed);
    forall t :: call.shown <= t && (delay.None? || t < call.armed + delay.value) ==>
      FormatRelativeTime(Some(time), t) == FormatRelativeTime(Some(time), call.shown)
  }

  /** It is exactly when no boundary lies between the two readings. */
  lemma RightUntilNextExactly(time: int, call: Callback)
    requires time <= call.shown <= call.armed
    ensures RightUntilNext(time, call) <==> !BoundaryWithin(time, call.shown, call.armed)
  {
    PastIsExact(Some(time), call.armed);
    SameTextExactly(time, call.shown, call.armed);
    hide FormatRelativeTime, GetNextRelativeTimeUpdateDelay, Boundary;
    var delay := GetNextRelativeTimeUpdateDelay(Some(time), call.armed);
    if !BoundaryWithin(time, call.shown, call.armed) {
      forall t | call.shown <= t && (delay.None? || t < call.armed + delay.value)
        ensures FormatRelativeTime(Some(time), t) == FormatRelativeTime(Some(time), call.shown)
      {
        if t <= call.armed {
          assert BoundaryWithin(time, call.shown, t) ==> BoundaryWithin(time, call.shown, call.armed);
          SameTextExactly(time, call.shown, t);
        }
      }
    }
  }

  /**
   Read at the last millisecond of the first day and armed at the first of the second, a
   subscription shows "23h ago" and never calls back again; at the second full hour it shows
   "1h ago" for the whole of the next.
   */
  lemma ClockMovesBetweenReadings()
    ensures FormatRelativeTime(Some(0), DAY_MS - 1) == HoursAgo(23) && GetNextRelativeTimeUpdateDelay(Some(0), DAY_MS).None?
    ensures FormatRelativeTime(Some(0), 2 * HOUR_MS - 1) == HoursAgo(1)
    ensures GetNextRelativeTimeUpdateDelay(Some(0), 2 * HOUR_MS) == Some(HOUR_MS)
    ensures !RightUntilNext(0, Callback(DAY_MS - 1, DAY_MS)) && !RightUntilNext(0, Callback(2 * HOUR_MS - 1, 2 * HOUR_MS))
  {
    assert FormatRelativeTime(Some(0), DAY_MS) == Absolute;
    assert FormatRelativeTime(Some(0), 2 * HOUR_MS) == HoursAgo(2);
  }

  /** For an instant in the future the bound grows by one for every minute ahead. */
  lemma FutureCallbacks(time: int, calls: seq<Callback>)
    requires calls != [] && Ticks(Some(time), calls) && calls[0].shown < time
    ensures |calls| <= 85 + (time - calls[0].shown - 1) / MINUTE_MS
  {
    TicksRunOut(time, calls);
  }

  /** The callbacks when both readings fall on the instant at which the timer is due. */
  function Punctual(time: int, now: int): seq<Callback>
    decreases ChangesLeft(time, now)
  {
    var delay := GetNextRelativeTimeUpdateDelay(Some(time), now);
    [Callback(now, now)] +
    if delay.None? then [] else TickUsesAChange(time, now, now + delay.value); Punctual(time, now + delay.value)
  }

  /** The bound is met: such a run calls back once for every change left, and ends with the absolute date. */
  lemma {:induction false} PunctualIsExact(time: int, now: int)
    requires time <= now
    ensures var calls := Punctual(time, now);
            && Ticks(Some(time), calls) && |calls| == 1 + ChangesLeft(time, now) && calls[0] == Callback(now, now)
            && FormatRelativeTime(Some(time), calls[|calls| - 1].shown) == Absolute
    decreases ChangesLeft(time, now)
  {
    hide *;
    var delay := GetNextRelativeTimeUpdateDelay(Some(time), now);
    if delay.Some? {
      var due := now + delay.value;
      PunctualStep(time, now);
      TickUsesAChange(time, now, due);
      PunctualIsExact(time, due);
      TicksCons(Some(time), Callback(now, now), Punctual(time, due));
    } else {
      PunctualLast(time, now);
    }
  }

  lemma PunctualStep(time: int, now: int)
    requires GetNextRelativeTimeUpdateDelay(Some(time), now).Some?
    ensures var due := now + GetNextRelativeTimeUpdateDelay(Some(time), now).value;
            && now < due && Punctual(time, now) == [Callback(now, now)] + Punctual(time, due)
            && Follows(Some(time), Callback(now, now), Callback(due, due))
  {
  }

  lemma PunctualLast(time: int, now: int)
    requires time <= now && GetNextRelativeTimeUpdateDelay(Some(time), now).None?
    ensures var calls := Punctual(time, now);
            && calls == [Callback(now, now)] && Ticks(Some(time), calls) && ChangesLeft(time, now) == 0
            && FormatRelativeTime(Some(time), now) == Absolute
  {
  }

  lemma TicksCons(date: Option<int>, call: Callback, later: seq<Callback>)
    requires call.shown <= call.armed && Ticks(date, later) && (later != [] ==> Follows(date, call, later[0]))
    ensures Ticks(date, [call] + later)
  {
    hide Follows;
    var calls := [call] + later;
    assert forall i :: 0 <= i < |later| ==> calls[i + 1] == later[i];
  }

  // ----- The subscription

  class Subscription {
    const date: Option<int>
    ghost const start: int
    var timer: Option<int>
    var active: bool
    var calls: seq<Text>
    ghost var last: Callback

    /** The callbacks so far and those still possible stay within the bound; the last text is that of its reading. */
    ghost predicate Valid()
      reads this
    {
      && (timer.Some? ==> date.Some?)
      && calls != [] && calls[|calls| - 1] == FormatRelativeTime(date, last.shown) && last.shown <= last.armed
      && (active ==> timer == DueAt(date, last.armed))
      && (date.None? ==> calls == [Empty])
      && (date.Some? ==> |calls| + (if timer.Some? && active then 1 + ChangesLeft(date.value, timer.value) else 0) <= 1 + ChangesLeft(date.value, start))
    }

    /** `shown` and `armed`: the clock when the text is made and when the delay is computed. */
    constructor (date: Option<int>, shown: int, armed: int)
      requires shown <= armed
      ensures Valid() && active && this.date == date && start == shown && last == Callback(shown, armed)
      ensures calls == [FormatRelativeTime(date, shown)] && timer == DueAt(date, armed)
    {
      this.date, start, active, last := date, shown, true, Callback(shown, armed);
      calls := [FormatRelativeTime(date, shown)];
      var delay := GetNextRelativeTimeUpdateDelay(date, armed);
      timer := if delay.Some? then Some(armed + delay.value) else None;
      if delay.Some? {
        LaterLeavesFewer(date.value, shown, armed);
        TickUsesAChange(date.value, armed, armed + delay.value);
      }
    }

    /**
     The armed timer fires, at its instant or later. `unsubscribes`: the callback unsubscribes, which
     finds no timer to clear; the timer armed after it then fires without a callback.
     */
    method Tick(shown: int, armed: int, unsubscribes: bool)
      requires Valid() && timer.Some? && timer.value <= shown <= armed
      modifies this
      ensures Valid() && active == (old(active) && !unsubscribes)
      ensures old(active) ==> && last == Callback(shown, armed) && timer == DueAt(date, armed)
                              && calls == old(calls) + [FormatRelativeTime(date, shown)]
      ensures !old(active) ==> calls == old(calls) && timer.None?
    {
      LaterLeavesFewer(date.value, timer.value, shown);
      LaterLeavesFewer(date.value, shown, armed);
      timer := None;
      if !active {
        return;
      }
      calls, last := calls + [FormatRelativeTime(date, shown)], Callback(shown, armed);
      if unsubscribes {
        Unsubscribe();
      }
      var delay := GetNextRelativeTimeUpdateDelay(date, armed);
      if delay.Some? {
        TickUsesAChange(date.value, armed, armed + delay.value);
        timer := Some(armed + delay.value);
      }
    }

    /** No timer is armed, and whatever timer is armed afterwards calls nothing back. */
    method Unsubscribe()
      modifies this`timer, this`active
      ensures !active && timer.None? && (old(Valid()) ==> Valid())
    {
      active := false;
      timer := None;
    }
  }

  /** For an instant not in the future the timer is due when the text next changes, and there is none when it never does. */
  lemma DueIsNextChange(time: int, now: int)
    requires time <= now
    ensures match DueAt(Some(time), now)
            case None => forall t :: now <= t ==> FormatRelativeTime(Some(time), t) == FormatRelativeTime(Some(time), now)
            case Some(due) =>
              && now < due && FormatRelativeTime(Some(time), due) != FormatRelativeTime(Some(time), now)
              && forall t :: now <= t < due ==> FormatRelativeTime(Some(time), t) == FormatRelativeTime(Some(time), now)
  {
    PastIsExact(Some(time), now);
    hide FormatRelativeTime, GetNextRelativeTimeUpdateDelay;
  }

  /** When the timer armed at `now` is due, if one is. */
  function DueAt(date: Option<int>, now: int): Option<int> {
    match GetNextRelativeTimeUpdateDelay(date, now)
    case None => None
    case Some(delay) => Some(now + delay)
  }
}
