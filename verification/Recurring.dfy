/**
The recurring series: the nightly task creates at most one booking per series and tick, and the
series can be paused, resumed and cancelled in between. Days are ordinals.
*/
module Recurring {
  import opened Options
  import opened Dates

  datatype Frequency = Weekly | Biweekly | Monthly
  datatype Status = Active | Paused | CancelledSeries | CompletedSeries

  /** A created booking, with the end date the series had at that moment. */
  datatype Created = Created(date: Date, endDate: Option<int>)

  datatype Series = Series(
    frequency: Frequency,
    status: Status,
    next: Date,
    endDate: Option<int>,
    maxOccurrences: Option<int>,
    occurrences: nat,
    created: seq<Created>)

  datatype Event = Tick(today: int) | Pause | Resume | Cancel(today: int)

  function NextDate(frequency: Frequency, date: Date): (next: Date)
    requires date.Valid()
    ensures next.Valid()
  {
    match frequency
    case Weekly => AddDays(date, 7)
    case Biweekly => AddDays(date, 14)
    case Monthly => AddMonth(date)
  }

  /** An absent limit and a limit of zero both mean "no limit". */
  predicate LimitReached(limit: Option<int>, occurrences: nat) {
    limit.Some? && limit.value != 0 && occurrences >= limit.value
  }

  predicate ShouldCreate(s: Series, today: int)
    requires s.next.Valid()
  {
    && s.status == Active
    && !(s.endDate.Some? && today > s.endDate.value)
    && !LimitReached(s.maxOccurrences, s.occurrences)
    && today >= Ordinal(s.next)
  }

  function Advance(s: Series): (s': Series)
    requires s.next.Valid()
    ensures s'.next.Valid()
  {
    var next := NextDate(s.frequency, s.next);
    var over := || LimitReached(s.maxOccurrences, s.occurrences + 1)
                || (s.endDate.Some? && Ordinal(next) > s.endDate.value);
    s.(next := next,
       occurrences := s.occurrences + 1,
       created := s.created + [Created(s.next, s.endDate)],
       status := if over then CompletedSeries else s.status)
  }

  function Step(s: Series, e: Event): (s': Series)
    requires s.next.Valid()
    ensures s'.next.Valid()
  {
    match e
    case Tick(today) => if ShouldCreate(s, today) then Advance(s) else s
    case Pause => s.(status := Paused)
    case Resume => s.(status := Active)
    case Cancel(today) => s.(status := CancelledSeries, endDate := Some(today))
  }

  function Run(s: Series, events: seq<Event>): (s': Series)
    requires s.next.Valid()
    ensures s'.next.Valid()
  {
    if events == [] then s else Step(Run(s, events[..|events| - 1]), events[|events| - 1])
  }

  ghost predicate IsNew(s: Series) {
    s.next.Valid() && s.status == Active && s.occurrences == 0 && s.created == []
  }

  // -------------------------------------------------------------------------
  // What every run keeps
  // -------------------------------------------------------------------------

  function ShortestStep(f: Frequency): int {
    match f case Weekly => 7 case Biweekly => 14 case Monthly => 28
  }

  function LongestStep(f: Frequency): int {
    match f case Weekly => 7 case Biweekly => 14 case Monthly => 31
  }

  predicate Follows(f: Frequency, earlier: Date, later: Date) {
    && earlier.Valid() && later.Valid()
    && ShortestStep(f) <= Ordinal(later) - Ordinal(earlier) <= LongestStep(f)
    && (f == Monthly ==> later.day <= earlier.day)
  }

  /** The created bookings are one step apart, the last one a step before the next date. */
  ghost predicate OnSchedule(s: Series) {
    && s.next.Valid()
    && s.occurrences == |s.created|
    && (forall k :: 0 <= k < |s.created| - 1 ==> Follows(s.frequency, s.created[k].date, s.created[k + 1].date))
    && (s.created != [] ==> Follows(s.frequency, s.created[|s.created| - 1].date, s.next))
    && (forall k :: 0 <= k < |s.created| ==>
          s.created[k].date.Valid() &&
          (s.created[k].endDate.Some? ==> Ordinal(s.created[k].date) <= s.created[k].endDate.value))
  }

  lemma NextDateFollows(f: Frequency, date: Date)
    requires date.Valid()
    ensures Follows(f, date, NextDate(f, date))
  {
    match f
    case Weekly => AddDaysCounts(date, 7);
    case Biweekly => AddDaysCounts(date, 14);
    case Monthly => AddMonthSpans(date);
  }

  lemma OneMoreOnSchedule(s: Series, s': Series)
    requires OnSchedule(s) && Follows(s.frequency, s.next, s'.next) && s'.frequency == s.frequency
    requires s'.occurrences == s.occurrences + 1 && s'.created == s.created + [Created(s.next, s.endDate)]
    requires s.endDate.Some? ==> Ordinal(s.next) <= s.endDate.value
    ensures OnSchedule(s')
  {
    forall k | 0 <= k < |s'.created| - 1
      ensures Follows(s.frequency, s'.created[k].date, s'.created[k + 1].date)
    {
      if k < |s.created| - 1 {
        assert Follows(s.frequency, s.created[k].date, s.created[k + 1].date);
      }
    }
  }

  lemma StepStaysOnSchedule(s: Series, e: Event)
    requires OnSchedule(s)
    ensures OnSchedule(Step(s, e))
  {
    if e.Tick? && ShouldCreate(s, e.today) {
      NextDateFollows(s.frequency, s.next);
      OneMoreOnSchedule(s, Advance(s));
    }
  }

  lemma {:induction false} RunStaysOnSchedule(s: Series, events: seq<Event>)
    requires IsNew(s)
    ensures OnSchedule(Run(s, events))
    ensures Run(s, events).frequency == s.frequency && Run(s, events).maxOccurrences == s.maxOccurrences
  {
    if events != [] {
      RunStaysOnSchedule(s, events[..|events| - 1]);
      StepStaysOnSchedule(Run(s, events[..|events| - 1]), events[|events| - 1]);
    }
  }

  /** No two bookings of a series fall on the same day, and they come in order. */
  lemma {:induction false} DatesStrictlyIncrease(s: Series, i: nat, j: nat)
    requires OnSchedule(s) && i < j < |s.created|
    ensures Ordinal(s.created[i].date) + ShortestStep(s.frequency) <= Ordinal(s.created[j].date)
    decreases j - i
  {
    assert Follows(s.frequency, s.created[j - 1].date, s.created[j].date);
    if i < j - 1 {
      DatesStrictlyIncrease(s, i, j - 1);
    }
  }

  /** Cancelling writes the day of the cancellation over the end date; late, it moves the end date later. */
  predicate IsLateCancel(e: Event, endDate: int) {
    e.Cancel? && e.today > endDate
  }

  ghost predicate EndsBy(endDate: Option<int>, limit: int) {
    endDate.Some? && endDate.value <= limit
  }

  /** Unless the series is cancelled after its end date, no booking lies after that date. */
  lemma {:induction false} NoneAfterEndDate(s: Series, events: seq<Event>, k: nat)
    requires IsNew(s) && s.endDate.Some?
    requires forall i :: 0 <= i < |events| ==> !IsLateCancel(events[i], s.endDate.value)
    requires k < |Run(s, events).created|
    ensures Run(s, events).created[k].date.Valid()
    ensures Ordinal(Run(s, events).created[k].date) <= s.endDate.value
  {
    RunStaysOnSchedule(s, events);
    EndDateNeverLater(s, events);
    assert EndsBy(Run(s, events).created[k].endDate, s.endDate.value);
  }

  lemma {:induction false} EndDateNeverLater(s: Series, events: seq<Event>)
    requires IsNew(s) && s.endDate.Some?
    requires forall i :: 0 <= i < |events| ==> !IsLateCancel(events[i], s.endDate.value)
    ensures EndsBy(Run(s, events).endDate, s.endDate.value)
    ensures forall k :: 0 <= k < |Run(s, events).created| ==> EndsBy(Run(s, events).created[k].endDate, s.endDate.value)
  {
    if events != [] {
      EndDateNeverLater(s, events[..|events| - 1]);
      assert !IsLateCancel(events[|events| - 1], s.endDate.value);
    }
  }

  /** ...and a late cancellation, resumed, adds a booking after the original end date. */
  lemma CancelThenResumePassesTheEndDate(next: Date, day: int)
    requires next.Valid() && day == Ordinal(next)
    ensures var s := Series(Weekly, Active, next, Some(day - 1), None, 0, []);
            var s' := Run(s, [Cancel(day), Resume, Tick(day)]);
            |s'.created| == 1 && s'.created[0].date == next && Ordinal(next) > s.endDate.value
  {
    var s := Series(Weekly, Active, next, Some(day - 1), None, 0, []);
    assert [Cancel(day), Resume, Tick(day)][..2] == [Cancel(day), Resume];
    assert [Cancel(day), Resume][..1] == [Cancel(day)];
    assert [Cancel(day)][..0] == [];
    assert Run(s, [Cancel(day)]) == Step(s, Cancel(day));
    assert Run(s, [Cancel(day), Resume]) == Step(Step(s, Cancel(day)), Resume);
  }

  lemma {:induction false} OccurrencesWithinLimit(s: Series, events: seq<Event>)
    requires IsNew(s) && s.maxOccurrences.Some? && s.maxOccurrences.value != 0
    ensures |Run(s, events).created| == 0 || |Run(s, events).created| <= s.maxOccurrences.value
  {
    if events != [] {
      OccurrencesWithinLimit(s, events[..|events| - 1]);
      RunStaysOnSchedule(s, events[..|events| - 1]);
    }
  }

  predicate Within(s: Series, limit: int) {
    |s.created| == 0 || |s.created| <= limit
  }

  /** The limit bounds every run exactly when it is not zero, whatever the end date: cancelling moves that to today. */
  lemma LimitBoundsIffNonZero(s: Series)
    requires IsNew(s) && s.maxOccurrences.Some?
    ensures (forall events :: Within(Run(s, events), s.maxOccurrences.value)) <==> s.maxOccurrences.value != 0
  {
    if s.maxOccurrences.value != 0 {
      forall events ensures Within(Run(s, events), s.maxOccurrences.value) {
        OccurrencesWithinLimit(s, events);
      }
    } else {
      var day := Ordinal(s.next);
      var events := [Cancel(day), Resume, Tick(day)];
      RunThree(s, events[0], events[1], events[2]);
      assert !Within(Run(s, events), 0);
    }
  }

  lemma RunThree(s: Series, e: Event, f: Event, g: Event)
    requires s.next.Valid()
    ensures Run(s, [e, f, g]) == Step(Step(Step(s, e), f), g)
  {
    assert [e, f, g][..2] == [e, f] && [e, f][..1] == [e] && [e][..0] == [];
    assert Run(s, [e]) == Step(s, e);
    assert Run(s, [e, f]) == Step(Step(s, e), f);
  }

  /** Paused, cancelled or completed, a series books nothing until it is resumed. */
  lemma {:induction false} NothingWhileStopped(s: Series, stop: Event, events: seq<Event>)
    requires s.next.Valid() && (stop.Pause? || stop.Cancel?)
    requires forall k :: 0 <= k < |events| ==> !events[k].Resume?
    ensures var stopped := Step(s, stop);
            && Run(stopped, events).created == s.created && Run(stopped, events).next == s.next
            && Run(stopped, events).status != Active
  {
    if events != [] {
      NothingWhileStopped(s, stop, events[..|events| - 1]);
      assert !events[|events| - 1].Resume?;
    }
  }

  /** The booking that reaches the limit, or the last date by the end date, completes its series; no other does. */
  lemma CompletedByItsLastBooking(s: Series, today: int)
    requires OnSchedule(s)
    ensures var after := Step(s, Tick(today));
            && (after.created == s.created ==> after == s)
            && (after.created != s.created ==>
                  && after.created == s.created + [Created(s.next, s.endDate)] && s.status == Active
                  && (after.status == CompletedSeries <==>
                        || (s.endDate.Some? && Ordinal(after.next) > s.endDate.value)
                        || (s.maxOccurrences.Some? && s.maxOccurrences.value != 0
                            && |after.created| >= s.maxOccurrences.value))
                  && (after.status != CompletedSeries ==> after.status == Active))
  {
  }

  // -------------------------------------------------------------------------
  // The row the task works on
  // -------------------------------------------------------------------------

  class RecurringBooking {
    const frequency: Frequency
    const maxOccurrences: Option<int>
    var status: Status
    var next: Date
    var endDate: Option<int>
    var occurrences: nat
    ghost var created: seq<Created>

    ghost predicate Valid()
      reads this
    {
      next.Valid()
    }

    ghost function View(): Series
      reads this
    {
      Series(frequency, status, next, endDate, maxOccurrences, occurrences, created)
    }

    constructor (frequency: Frequency, next: Date, endDate: Option<int>, maxOccurrences: Option<int>)
      requires next.Valid()
      ensures Valid() && IsNew(View())
      ensures View() == Series(frequency, Active, next, endDate, maxOccurrences, 0, [])
    {
      this.frequency, this.maxOccurrences := frequency, maxOccurrences;
      this.status, this.next, this.endDate := Active, next, endDate;
      occurrences, created := 0, [];
    }

    /** One series in the nightly task; returns the day of the booking it created, if any. */
    method CreateDueBooking(today: int) returns (booked: Option<Date>)
      requires Valid()
      modifies this
      ensures Valid() && View() == Step(old(View()), Tick(today))
      ensures booked == if ShouldCreate(old(View()), today) then Some(old(next)) else None
    {
      booked := None;
      if status != Active || today < Ordinal(next) {
        return;
      }
      if endDate.Some? && today > endDate.value {
        return;
      }
      if maxOccurrences.Some? && maxOccurrences.value != 0 && occurrences >= maxOccurrences.value {
        return;
      }
      booked := Some(next);
      created := created + [Created(next, endDate)];
      occurrences := occurrences + 1;
      next := NextDate(frequency, next);
      if maxOccurrences.Some? && maxOccurrences.value != 0 && occurrences >= maxOccurrences.value {
        status := CompletedSeries;
      }
      if endDate.Some? && Ordinal(next) > endDate.value {
        status := CompletedSeries;
      }
    }
  }
}
