/**
The schedule of a series as a sequence of dates, independent of ticks: what nightly ticks make of it, and
what a cancellation can do to its end.
*/
module SeriesSchedules {
  import opened Options
  import opened Dates
  import opened Recurring

  /** The k-th date from `first` on. */
  function ScheduleDate(f: Frequency, first: Date, k: nat): (date: Date)
    requires first.Valid()
    ensures date.Valid()
  {
    if k == 0 then first else NextDate(f, ScheduleDate(f, first, k - 1))
  }

  /** Day numbers of the dates of a schedule. */
  type Days = nat -> int

  function DaysOf(s: Series): Days
    requires s.next.Valid()
  {
    (k: nat) => Ordinal(ScheduleDate(s.frequency, s.next, k))
  }

  ghost predicate Rise(days: Days) {
    forall j, k :: j < k ==> days(j) < days(k)
  }

  lemma NextDateIsLater(f: Frequency, date: Date)
    requires date.Valid()
    ensures Ordinal(date) < Ordinal(NextDate(f, date))
  {
    NextDateFollows(f, date);
  }

  lemma {:induction false} StepsRise(days: Days, j: nat, k: nat)
    requires j < k && forall i: nat :: days(i) < days(i + 1)
    ensures days(j) < days(k)
  {
    assert days(k - 1) < days(k - 1 + 1);
    if j < k - 1 {
      StepsRise(days, j, k - 1);
    }
  }

  lemma NextDayIsLater(s: Series, k: nat)
    requires s.next.Valid()
    ensures DaysOf(s)(k) < DaysOf(s)(k + 1)
  {
    NextDateIsLater(s.frequency, ScheduleDate(s.frequency, s.next, k));
  }

  lemma SchedulesRise(s: Series)
    requires s.next.Valid()
    ensures Rise(DaysOf(s))
  {
    var days := DaysOf(s);
    forall i: nat ensures days(i) < days(i + 1) {
      NextDayIsLater(s, i);
    }
    forall j: nat, k: nat | j < k ensures days(j) < days(k) {
      StepsRise(days, j, k);
    }
  }

  // -------------------------------------------------------------------------
  // How far a run has got on the schedule
  // -------------------------------------------------------------------------

  /** `s` has booked the first `n` dates that were ahead of `start`, one after the other. */
  ghost predicate HasBooked(start: Series, s: Series, n: nat)
    requires start.next.Valid()
  {
    && s.frequency == start.frequency && s.maxOccurrences == start.maxOccurrences
    && s.next == ScheduleDate(start.frequency, start.next, n)
    && s.occurrences == start.occurrences + n
    && |s.created| == |start.created| + n
    && (forall k: nat :: k < n ==> s.created[|start.created| + k].date == ScheduleDate(start.frequency, start.next, k))
  }

  /** The k-th date is within the series' limit and not after `last`. */
  predicate IsAllowed(s: Series, days: Days, last: Option<int>, k: nat) {
    !LimitReached(s.maxOccurrences, s.occurrences + k) && (last.Some? ==> days(k) <= last.value)
  }

  predicate AllAllowed(s: Series, days: Days, last: Option<int>, n: nat) {
    forall k: nat :: k < n ==> IsAllowed(s, days, last, k)
  }

  /** The tick of `today` finds the n-th date due. */
  predicate IsBookedTonight(start: Series, days: Days, s: Series, n: nat, today: int) {
    && s.status == Active && days(n) <= today && IsAllowed(start, days, None, n)
    && (s.endDate.Some? ==> today <= s.endDate.value)
  }

  lemma IsBookedIfItShould(start: Series, s: Series, n: nat, today: int)
    requires start.next.Valid() && HasBooked(start, s, n)
    ensures ShouldCreate(s, today) <==> IsBookedTonight(start, DaysOf(start), s, n, today)
  {
    assert DaysOf(start)(n) == Ordinal(s.next);
  }

  lemma AdvanceBooksOneMore(start: Series, s: Series, n: nat)
    requires start.next.Valid() && HasBooked(start, s, n)
    ensures HasBooked(start, Advance(s), n + 1) && Advance(s).endDate == s.endDate
  {
    var after := Advance(s);
    assert after.next == ScheduleDate(start.frequency, start.next, n + 1);
    assert after.created == s.created + [Created(s.next, s.endDate)];
    forall k: nat | k < n + 1
      ensures after.created[|start.created| + k].date == ScheduleDate(start.frequency, start.next, k)
    {
      if k < n {
        assert s.created[|start.created| + k].date == ScheduleDate(start.frequency, start.next, k);
      }
    }
  }

  lemma AdvanceStaysActive(start: Series, s: Series, n: nat)
    requires start.next.Valid() && HasBooked(start, s, n) && s.status == Active
    requires IsAllowed(start, DaysOf(start), s.endDate, n + 1)
    ensures Advance(s).status == Active
  {
    var next := NextDate(s.frequency, s.next);
    assert next == ScheduleDate(start.frequency, start.next, n + 1);
    assert DaysOf(start)(n + 1) == Ordinal(next);
  }

  /** A tick books the date that is next exactly if it has come, is allowed and the series is active. */
  lemma TickBooksNext(start: Series, s: Series, n: nat, today: int)
    requires start.next.Valid() && HasBooked(start, s, n)
    ensures var after, days := Step(s, Tick(today)), DaysOf(start);
            if IsBookedTonight(start, days, s, n, today) then
              HasBooked(start, after, n + 1) && after.endDate == s.endDate
              && (after.status == Active || !IsAllowed(start, days, s.endDate, n + 1))
            else after == s
  {
    IsBookedIfItShould(start, s, n, today);
    if ShouldCreate(s, today) {
      AdvanceBooksOneMore(start, s, n);
      if IsAllowed(start, DaysOf(start), s.endDate, n + 1) {
        AdvanceStaysActive(start, s, n);
      }
    }
  }

  // -------------------------------------------------------------------------
  // Nightly ticks
  // -------------------------------------------------------------------------

  function Nightly(first: int, nights: nat): (ticks: seq<Event>)
    ensures |ticks| == nights
  {
    if nights == 0 then [] else Nightly(first, nights - 1) + [Tick(first + nights - 1)]
  }

  /** After the night of `today`: everything due and allowed is booked, and the series waits or is over. */
  ghost predicate IsUpToDate(start: Series, days: Days, s: Series, n: nat, today: int)
    requires start.next.Valid()
  {
    && HasBooked(start, s, n) && s.endDate == start.endDate
    && AllAllowed(start, days, start.endDate, n) && (n > 0 ==> days(n - 1) <= today)
    && ((s.status == Active && days(n) > today) || !IsAllowed(start, days, start.endDate, n))
  }

  lemma UpToDateAfterBooking(start: Series, days: Days, s: Series, after: Series, n: nat, today: int)
    requires start.next.Valid() && Rise(days)
    requires IsUpToDate(start, days, s, n, today - 1) && IsBookedTonight(start, days, s, n, today)
    requires HasBooked(start, after, n + 1) && after.endDate == s.endDate
    requires after.status == Active || !IsAllowed(start, days, s.endDate, n + 1)
    ensures IsUpToDate(start, days, after, n + 1, today)
  {
    assert days(n) < days(n + 1);
    assert IsAllowed(start, days, start.endDate, n);
  }

  lemma UpToDateWithoutBooking(start: Series, days: Days, s: Series, n: nat, today: int)
    requires start.next.Valid()
    requires IsUpToDate(start, days, s, n, today - 1) && !IsBookedTonight(start, days, s, n, today)
    ensures IsUpToDate(start, days, s, n, today)
  {
  }

  lemma OneMoreNight(start: Series, s: Series, n: nat, today: int) returns (m: nat)
    requires start.next.Valid() && IsUpToDate(start, DaysOf(start), s, n, today - 1)
    ensures IsUpToDate(start, DaysOf(start), Step(s, Tick(today)), m, today)
  {
    var days := DaysOf(start);
    SchedulesRise(start);
    TickBooksNext(start, s, n, today);
    if IsBookedTonight(start, days, s, n, today) {
      m := n + 1;
      UpToDateAfterBooking(start, days, s, Step(s, Tick(today)), n, today);
    } else {
      m := n;
      UpToDateWithoutBooking(start, days, s, n, today);
    }
  }

  lemma {:induction false} NightsKeepUp(start: Series, first: int, nights: nat) returns (n: nat)
    requires IsNew(start) && first <= Ordinal(start.next)
    ensures IsUpToDate(start, DaysOf(start), Run(start, Nightly(first, nights)), n, first + nights - 1)
  {
    if nights == 0 {
      n := 0;
    } else {
      var before := NightsKeepUp(start, first, nights - 1);
      var ticks := Nightly(first, nights);
      assert ticks[..nights - 1] == Nightly(first, nights - 1);
      n := OneMoreNight(start, Run(start, Nightly(first, nights - 1)), before, first + nights - 1);
    }
  }

  /** Exactly the dates up to `today` that are allowed. */
  ghost predicate IsSchedule(start: Series, created: seq<Created>, today: int)
    requires start.next.Valid()
  {
    forall k: nat ::
      && (k < |created| <==> DaysOf(start)(k) <= today && IsAllowed(start, DaysOf(start), start.endDate, k))
      && (k < |created| ==> created[k].date == ScheduleDate(start.frequency, start.next, k))
  }

  /** Past the first date that has not come or is not allowed there is none that has and is. */
  lemma BookedIsDueAndAllowed(s: Series, days: Days, last: Option<int>, n: nat, today: int, k: nat)
    requires Rise(days) && AllAllowed(s, days, last, n) && (n > 0 ==> days(n - 1) <= today)
    requires days(n) > today || !IsAllowed(s, days, last, n)
    ensures k < n <==> days(k) <= today && IsAllowed(s, days, last, k)
  {
    assert k < n - 1 ==> days(k) < days(n - 1);
    assert n < k ==> days(n) < days(k);
  }

  lemma BookedIsTheSchedule(start: Series, s: Series, n: nat, k: nat)
    requires IsNew(start) && HasBooked(start, s, n)
    ensures |s.created| == n && (k < n ==> s.created[k].date == ScheduleDate(start.frequency, start.next, k))
  {
    assert k < n ==> s.created[|start.created| + k].date == ScheduleDate(start.frequency, start.next, k);
  }

  lemma UpToDateIsSchedule(start: Series, s: Series, n: nat, today: int)
    requires IsNew(start) && IsUpToDate(start, DaysOf(start), s, n, today)
    ensures IsSchedule(start, s.created, today)
  {
    SchedulesRise(start);
    forall k: nat
      ensures k < |s.created| <==> DaysOf(start)(k) <= today && IsAllowed(start, DaysOf(start), start.endDate, k)
      ensures k < |s.created| ==> s.created[k].date == ScheduleDate(start.frequency, start.next, k)
    {
      BookedIsDueAndAllowed(start, DaysOf(start), start.endDate, n, today, k);
      BookedIsTheSchedule(start, s, n, k);
    }
  }

  /**
  Ticked every night from its first date or earlier, a series has booked exactly the dates of its schedule up to
  tonight, its end date and its limit: none missing, none twice, none early, in order.
  */
  lemma {:induction false} NightlyTicksBookTheSchedule(start: Series, first: int, nights: nat)
    requires IsNew(start) && first <= Ordinal(start.next)
    ensures IsSchedule(start, Run(start, Nightly(first, nights)).created, first + nights - 1)
  {
    var n := NightsKeepUp(start, first, nights);
    UpToDateIsSchedule(start, Run(start, Nightly(first, nights)), n, first + nights - 1);
  }

  // -------------------------------------------------------------------------
  // When a cancellation moves the end
  // -------------------------------------------------------------------------

  predicate NoCancel(events: seq<Event>) {
    forall k :: 0 <= k < |events| ==> !events[k].Cancel?
  }

  /** Among the bookings made since `before`, one lies after `day`. */
  ghost predicate BooksAfter(before: Series, s: Series, day: int) {
    exists k :: |before.created| <= k < |s.created| && s.created[k].date.Valid() && Ordinal(s.created[k].date) > day
  }

  /** Without another cancellation a run books along the schedule, within the limit and up to its end date. */
  lemma {:induction false} RunBooksTheSchedule(start: Series, events: seq<Event>) returns (n: nat)
    requires start.next.Valid() && start.endDate.Some? && NoCancel(events)
    ensures var s := Run(start, events);
            HasBooked(start, s, n) && s.endDate == start.endDate && AllAllowed(start, DaysOf(start), start.endDate, n)
  {
    if events == [] {
      n := 0;
    } else {
      var last := |events| - 1;
      var before := RunBooksTheSchedule(start, events[..last]);
      assert !events[last].Cancel?;
      n := StepBooksTheSchedule(start, Run(start, events[..last]), before, events[last]);
    }
  }

  lemma StepBooksTheSchedule(start: Series, s: Series, n: nat, e: Event) returns (m: nat)
    requires start.next.Valid() && start.endDate.Some? && !e.Cancel?
    requires HasBooked(start, s, n) && s.endDate == start.endDate && AllAllowed(start, DaysOf(start), start.endDate, n)
    ensures var after := Step(s, e);
            && HasBooked(start, after, m) && after.endDate == start.endDate
            && AllAllowed(start, DaysOf(start), start.endDate, m)
  {
    m := n;
    if e.Tick? {
      TickBooksNext(start, s, n, e.today);
      if IsBookedTonight(start, DaysOf(start), s, n, e.today) {
        m := n + 1;
        assert IsAllowed(start, DaysOf(start), start.endDate, n);
      }
    }
  }

  lemma RunTwoMore(start: Series, events: seq<Event>, e: Event, f: Event)
    requires start.next.Valid()
    ensures Run(start, events + [e, f]) == Step(Step(Run(start, events), e), f)
  {
    assert (events + [e, f])[..|events| + 1] == events + [e];
    assert (events + [e])[..|events|] == events;
  }

  /** Resumed before each tick. */
  function ResumedTicks(today: int, n: nat): (events: seq<Event>)
    ensures NoCancel(events)
  {
    if n == 0 then [] else ResumedTicks(today, n - 1) + [Resume, Tick(today)]
  }

  ghost predicate HasBookedTill(start: Series, events: seq<Event>, n: nat)
    requires start.next.Valid()
  {
    HasBooked(start, Run(start, events), n) && Run(start, events).endDate == start.endDate
  }

  lemma NothingIsBookedYet(start: Series)
    requires start.next.Valid()
    ensures HasBookedTill(start, [], 0)
  {
  }

  lemma OneMoreResumedTick(start: Series, today: int, events: seq<Event>, n: nat)
    requires start.next.Valid() && start.endDate == Some(today) && IsAllowed(start, DaysOf(start), start.endDate, n)
    requires HasBookedTill(start, events, n)
    ensures HasBookedTill(start, events + [Resume, Tick(today)], n + 1)
  {
    ResumedTickBooks(start, Run(start, events), n, today);
    RunTwoMore(start, events, Resume, Tick(today));
  }

  /** So ticked, the series books every allowed date that has come. */
  lemma {:induction false} ResumedTicksBook(start: Series, today: int, n: nat, ticks: seq<Event>)
    requires start.next.Valid() && start.endDate == Some(today) && AllAllowed(start, DaysOf(start), start.endDate, n)
    requires ticks == ResumedTicks(today, n)
    ensures HasBookedTill(start, ticks, n)
  {
    if n == 0 {
      NothingIsBookedYet(start);
      assert ticks == [];
    } else {
      var before := ResumedTicks(today, n - 1);
      ResumedTicksBook(start, today, n - 1, before);
      OneMoreResumedTick(start, today, before, n - 1);
      assert ticks == before + [Resume, Tick(today)];
    }
  }

  lemma ResumedTickBooks(start: Series, s: Series, n: nat, today: int)
    requires start.next.Valid() && start.endDate == Some(today) && IsAllowed(start, DaysOf(start), start.endDate, n)
    requires HasBooked(start, s, n) && s.endDate == start.endDate
    ensures var after := Step(Step(s, Resume), Tick(today));
            HasBooked(start, after, n + 1) && after.endDate == start.endDate
  {
    var resumed := s.(status := Active);
    assert IsBookedTonight(start, DaysOf(start), resumed, n, today);
    TickBooksNext(start, resumed, n, today);
  }

  /** A date of the schedule after `end`, within the limit, that the day of the cancellation has reached. */
  predicate IsLateDate(s: Series, days: Days, today: int, end: int, k: nat) {
    end < days(k) <= today && IsAllowed(s, days, None, k)
  }

  lemma LateIsAllowedTillThen(s: Series, days: Days, today: int, end: int, k: nat)
    requires Rise(days) && IsLateDate(s, days, today, end, k)
    ensures AllAllowed(s, days, Some(today), k + 1)
  {
    forall j: nat | j < k + 1 ensures IsAllowed(s, days, Some(today), j) {
      assert j < k ==> days(j) < days(k);
    }
  }

  lemma BookedAfterIsLate(s: Series, today: int, end: int, after: Series, n: nat) returns (k: nat)
    requires s.next.Valid() && HasBooked(s, after, n) && AllAllowed(s, DaysOf(s), Some(today), n)
    requires BooksAfter(s, after, end)
    ensures IsLateDate(s, DaysOf(s), today, end, k)
  {
    var i :| |s.created| <= i < |after.created|
             && after.created[i].date.Valid() && Ordinal(after.created[i].date) > end;
    k := i - |s.created|;
    assert after.created[|s.created| + k].date == ScheduleDate(s.frequency, s.next, k);
    assert DaysOf(s)(k) == Ordinal(after.created[i].date);
    assert IsAllowed(s, DaysOf(s), Some(today), k);
  }

  lemma LateDateIsBookedAfter(s: Series, today: int, end: int, k: nat, after: Series)
    requires s.next.Valid() && IsLateDate(s, DaysOf(s), today, end, k) && HasBooked(s, after, k + 1)
    ensures BooksAfter(s, after, end)
  {
    var date := after.created[|s.created| + k].date;
    assert date == ScheduleDate(s.frequency, s.next, k);
    assert DaysOf(s)(k) == Ordinal(date);
  }

  /** The series as a cancellation leaves it: on the same schedule. */
  function Cancelled(s: Series, today: int): Series {
    s.(status := CancelledSeries, endDate := Some(today))
  }

  lemma SameSchedule(s: Series, today: int, after: Series, n: nat)
    requires s.next.Valid()
    ensures HasBooked(Cancelled(s, today), after, n) <==> HasBooked(s, after, n)
    ensures AllAllowed(Cancelled(s, today), DaysOf(Cancelled(s, today)), Some(today), n)
       <==> AllAllowed(s, DaysOf(s), Some(today), n)
  {
    forall k: nat
      ensures IsAllowed(Cancelled(s, today), DaysOf(Cancelled(s, today)), Some(today), k)
         <==> IsAllowed(s, DaysOf(s), Some(today), k)
    {
      assert DaysOf(Cancelled(s, today))(k) == DaysOf(s)(k);
    }
  }

  /** What may follow the cancellation, without another one, books after `end`. */
  ghost predicate PassesTheEnd(s: Series, today: int, end: int)
    requires s.next.Valid()
  {
    exists more :: NoCancel(more) && BooksAfter(s, Run(Step(s, Cancel(today)), more), end)
  }

  lemma {:induction false} PassingMeansALateDate(s: Series, today: int, end: int, more: seq<Event>) returns (k: nat)
    requires s.next.Valid() && NoCancel(more) && BooksAfter(s, Run(Cancelled(s, today), more), end)
    ensures IsLateDate(s, DaysOf(s), today, end, k)
  {
    var after := Run(Cancelled(s, today), more);
    var n := RunBooksTheSchedule(Cancelled(s, today), more);
    SameSchedule(s, today, after, n);
    k := BookedAfterIsLate(s, today, end, after, n);
  }

  lemma {:induction false} LateDateIsPassed(s: Series, today: int, end: int, k: nat)
    requires s.next.Valid() && IsLateDate(s, DaysOf(s), today, end, k)
    ensures BooksAfter(s, Run(Cancelled(s, today), ResumedTicks(today, k + 1)), end)
  {
    var after := Run(Cancelled(s, today), ResumedTicks(today, k + 1));
    SchedulesRise(s);
    LateIsAllowedTillThen(s, DaysOf(s), today, end, k);
    SameSchedule(s, today, after, k + 1);
    ResumedTicksBook(Cancelled(s, today), today, k + 1, ResumedTicks(today, k + 1));
    LateDateIsBookedAfter(s, today, end, k, after);
  }

  /**
  A cancellation lets a series book after `end` exactly if a date of its schedule, within its limit, lies after
  `end` and not after the day of the cancellation. So one made by the end date itself never does.
  */
  lemma {:induction false} CancellationPassesTheEndIff(s: Series, today: int, end: int)
    requires s.next.Valid()
    ensures PassesTheEnd(s, today, end) <==> exists k: nat :: IsLateDate(s, DaysOf(s), today, end, k)
    ensures today <= end ==> !PassesTheEnd(s, today, end)
  {
    assert Step(s, Cancel(today)) == Cancelled(s, today);
    if PassesTheEnd(s, today, end) {
      var more :| NoCancel(more) && BooksAfter(s, Run(Step(s, Cancel(today)), more), end);
      var k := PassingMeansALateDate(s, today, end, more);
    }
    if k: nat :| IsLateDate(s, DaysOf(s), today, end, k) {
      LateDateIsPassed(s, today, end, k);
    }
  }
}
