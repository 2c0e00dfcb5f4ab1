/**
Customer reminders. A booking can get a first and a second, closer reminder. The task runs every few
minutes; a reminder that fails is tried again on later runs, counted in a cache entry that expires.
Moving the booking starts its reminders over.
*/
module Reminders {
  import opened Options
  import opened Clock

  const SEND_FROM := 9 * HOUR
  const SEND_UNTIL := 21 * HOUR
  const DEFAULT_HOURS := 24
  const MAX_ATTEMPTS := 3
  const COUNTER_LIFE := 48 * HOUR

  datatype Kind = First | Second

  datatype Settings = Settings(firstHours: int, secondHours: Option<int>) {

    /** What the settings form lets through. */
    predicate IsValid() {
      && 1 <= firstHours <= 168
      && (secondHours.Some? ==> 1 <= secondHours.value <= 168 && secondHours.value < firstHours)
    }

    /** Zero is no choice. */
    function First(): int {
      if firstHours == 0 then DEFAULT_HOURS else firstHours
    }

    function Second(): Option<int> {
      if secondHours == Some(0) then None else secondHours
    }
  }

  datatype Counter = Counter(count: nat, at: Instant)

  /** The part of a booking the task reads and writes, and its two cache entries. */
  datatype Visit = Visit(
    confirmed: bool, day: Day, start: TimeOfDay, created: Option<Instant>,
    firstSent: bool, secondSent: bool, firstTries: Option<Counter>, secondTries: Option<Counter>)
  {
    function Starts(): Instant {
      At(day, start)
    }

    predicate Sent(kind: Kind) {
      if kind == First then firstSent else secondSent
    }

    function Tries(kind: Kind): Option<Counter> {
      if kind == First then firstTries else secondTries
    }

    function WithTries(kind: Kind, tries: Counter): Visit {
      if kind == First then this.(firstTries := Some(tries)) else this.(secondTries := Some(tries))
    }

    /** Settled, as sent or given up on; the second settles the first too. */
    function Settle(kind: Kind): Visit {
      this.(firstSent := true, secondSent := secondSent || kind == Second)
    }
  }

  datatype Sms = SmsSent | SmsFailed | SmsSkipped

  /** What came of sending, and whether the flag could be saved afterwards. */
  datatype Answer = Answer(hasEmail: bool, emailed: bool, sms: Sms, saved: bool) {

    predicate Delivered() {
      (hasEmail && emailed) || sms == SmsSent
    }

    predicate Failed() {
      (hasEmail && !emailed) || sms == SmsFailed
    }
  }

  // -------------------------------------------------------------------------
  // Which reminder is due
  // -------------------------------------------------------------------------

  predicate IsSendingHour(now: Instant) {
    SEND_FROM <= TimeOf(now) < SEND_UNTIL
  }

  /** The time has come, and the booking was not made after it had. */
  predicate IsDue(v: Visit, now: Instant, hours: int) {
    var from := v.Starts() - hours * HOUR;
    now >= from && (v.created.Some? ==> v.created.value <= from)
  }

  function DueReminder(v: Visit, now: Instant, settings: Settings): Option<Kind> {
    var second := settings.Second();
    if !v.confirmed || !IsSendingHour(now) || v.Starts() <= now then None
    else if second.Some? && !v.secondSent && IsDue(v, now, second.value) then Some(Second)
    else if !v.firstSent && IsDue(v, now, settings.First()) then
      if second.Some? && now >= v.Starts() - second.value * HOUR then None else Some(First)
    else None
  }

  /** The rows the task asks the database for. */
  predicate IsFetched(v: Visit, now: Instant, settings: Settings) {
    && v.confirmed
    && DayOf(now) <= v.day <= DayOf(now + settings.First() * HOUR)
    && !(v.firstSent && v.secondSent)
  }

  lemma DayOrder(a: Instant, b: Instant)
    requires a <= b
    ensures DayOf(a) <= DayOf(b)
  {
  }

  lemma DayOfStart(day: Day, t: TimeOfDay)
    ensures DayOf(At(day, t)) == day && TimeOf(At(day, t)) == t
  {
  }

  /** A due reminder is missed by the query exactly when the visit is on a day past the first reminder's reach. */
  lemma FetchedIffInReach(v: Visit, now: Instant, settings: Settings)
    requires DueReminder(v, now, settings).Some?
    ensures IsFetched(v, now, settings) <==> v.day <= DayOf(now + settings.First() * HOUR)
  {
    DayOfStart(v.day, v.start);
    DayOrder(now, v.Starts());
  }

  /** With settings from the form, the query misses no booking a reminder is due for. */
  lemma QueryHidesNothing(v: Visit, now: Instant, settings: Settings)
    requires settings.IsValid() && DueReminder(v, now, settings).Some?
    ensures IsFetched(v, now, settings)
  {
    FetchedIffInReach(v, now, settings);
    DayOfStart(v.day, v.start);
    DayOrder(v.Starts(), now + settings.First() * HOUR);
  }

  // -------------------------------------------------------------------------
  // One run of the task
  // -------------------------------------------------------------------------

  function LiveCount(counter: Option<Counter>, now: Instant): nat {
    if counter.Some? && now - counter.value.at < COUNTER_LIFE then counter.value.count else 0
  }

  function AfterTick(v: Visit, now: Instant, settings: Settings, answer: Answer): Visit {
    match DueReminder(v, now, settings)
    case None => v
    case Some(kind) =>
      if !answer.Delivered() && answer.Failed() then
        var tries := LiveCount(v.Tries(kind), now) + 1;
        var counted := v.WithTries(kind, Counter(tries, now));
        if tries < MAX_ATTEMPTS || !answer.saved then counted else counted.Settle(kind)
      else if answer.saved then v.Settle(kind)
      else v
  }

  class ReminderTask {
    var visits: seq<Visit>

    constructor (visits: seq<Visit>)
      ensures this.visits == visits
    {
      this.visits := visits;
    }

    /** Asking only for the fetched rows, every booking is treated as if all had been looked at. */
    method SendReminders(now: Instant, settings: Settings, answers: seq<Answer>)
      requires settings.IsValid() && |answers| == |visits|
      modifies this
      ensures |visits| == |old(visits)|
      ensures forall i :: 0 <= i < |visits| ==> visits[i] == AfterTick(old(visits)[i], now, settings, answers[i])
    {
      ghost var before := visits;
      for i := 0 to |visits|
        invariant |visits| == |before|
        invariant forall k :: 0 <= k < i ==> visits[k] == AfterTick(before[k], now, settings, answers[k])
        invariant forall k :: i <= k < |visits| ==> visits[k] == before[k]
      {
        var v, answer := visits[i], answers[i];
        if DueReminder(v, now, settings).Some? {
          QueryHidesNothing(v, now, settings);
        }
        if IsSendingHour(now) && IsFetched(v, now, settings) {
          var which := DueReminder(v, now, settings);
          if which.Some? {
            var goesOn := true;
            if !answer.Delivered() && answer.Failed() {
              var tries := LiveCount(v.Tries(which.value), now) + 1;
              v := v.WithTries(which.value, Counter(tries, now));
              goesOn := tries >= MAX_ATTEMPTS;
            }
            if goesOn && answer.saved {
              v := if which.value == First then v.(firstSent := true) else v.(secondSent := true);
              if which.value == Second && !v.firstSent {
                v := v.(firstSent := true);
              }
            }
            visits := visits[i := v];
          }
        }
      }
    }
  }

  // -------------------------------------------------------------------------
  // The staff member's own reminder
  // -------------------------------------------------------------------------

  /** The database condition, on dates and times of day. */
  predicate IsInStaffWindow(day: Day, start: TimeOfDay, now: Instant, minutes: nat) {
    var horizon := now + minutes * MINUTE;
    if DayOf(horizon) == DayOf(now) then
      day == DayOf(now) && start > TimeOf(now) && start <= TimeOf(horizon)
    else
      || (day == DayOf(now) && start > TimeOf(now))
      || DayOf(now) < day < DayOf(horizon)
      || (day == DayOf(horizon) && start <= TimeOf(horizon))
  }

  /** It picks exactly the visits that start after now and within the given minutes, over midnight too. */
  lemma StaffWindowIsTheNextMinutes(day: Day, start: TimeOfDay, now: Instant, minutes: nat)
    ensures IsInStaffWindow(day, start, now, minutes) <==> now < At(day, start) <= now + minutes * MINUTE
  {
    var horizon := now + minutes * MINUTE;
    DayOrder(now, horizon);
    assert now == DayOf(now) * DAY + TimeOf(now);
    assert horizon == DayOf(horizon) * DAY + TimeOf(horizon);
  }
}
