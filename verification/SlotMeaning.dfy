/**
What the slot check means, moment by moment: an independent definition of "the staff member is at work
and free for the whole appointment", and the check proved equal to it.
*/
module SlotMeaning {
  import opened BookingStatus
  import opened Options
  import opened Clock
  import opened Staffing
  import Slots

  /** At work: inside the hours and not in the break. */
  predicate IsWorking(hours: Hours, moment: int) {
    && hours.start <= moment < hours.end
    && !(hours.breakStart.Some? && hours.breakEnd.Some? && hours.breakStart.value <= moment < hours.breakEnd.value)
  }

  /** In one of the staff member's other active bookings. */
  predicate IsBusy(bookings: Bookings, staff: StaffId, day: Day, exclude: Option<BookingId>, moment: int) {
    exists id :: id in bookings && exclude != Some(id) && Occupies(bookings[id], staff, day, moment)
  }

  predicate Occupies(b: Booking, staff: StaffId, day: Day, moment: int) {
    && b.staff == Some(staff) && b.day == day && b.start <= moment < b.end
    && b.status in {Pending, Confirmed, InProgress}
  }

  /** At work in a minute of the day, hours and breaks taken to the minute. */
  predicate WorksMinute(hours: Hours, minute: int) {
    && hours.start / MINUTE <= minute < hours.end / MINUTE
    && !(hours.breakStart.Some? && hours.breakEnd.Some?
         && hours.breakStart.value / MINUTE <= minute < hours.breakEnd.value / MINUTE)
  }

  /**
  The staff member can do the service from `start` to its end, buffer and all: `start` is in the exact hours, every
  minute of the appointment is a working one, and at no moment of it is there another booking.
  */
  ghost predicate CanServe(service: Service, roster: Roster, bookings: Bookings, staff: StaffId, day: Day,
                           start: TimeOfDay, exclude: Option<BookingId>)
  {
    var hours := Availability(roster, staff, day);
    && hours.Some?
    && hours.value.start <= start < hours.value.end
    && WorksThroughout(hours.value, start / MINUTE, service.duration + service.buffer)
    && IsFreeFor(service, bookings, staff, day, start, exclude)
  }

  /** In no other active booking from `start` to the end of service and buffer. */
  ghost predicate IsFreeFor(service: Service, bookings: Bookings, staff: StaffId, day: Day, start: TimeOfDay,
                            exclude: Option<BookingId>)
  {
    forall moment :: start <= moment < start + (service.duration + service.buffer) * MINUTE ==>
      !IsBusy(bookings, staff, day, exclude, moment)
  }

  ghost predicate WorksThroughout(hours: Hours, from: int, total: int) {
    forall minute :: from <= minute < from + total ==> WorksMinute(hours, minute)
  }

  /** A break, where there is one, runs forward by a minute at least. */
  predicate BreakRunsForward(hours: Hours) {
    hours.breakStart.Some? && hours.breakEnd.Some? ==>
      TimeToMinutes(hours.breakStart.value) < TimeToMinutes(hours.breakEnd.value)
  }

  ghost predicate RunForward(bookings: Bookings) {
    forall id <- bookings :: bookings[id].start < bookings[id].end
  }

  lemma FitsIsWorkingThroughout(hours: Hours, start: TimeOfDay, total: int)
    requires BreakRunsForward(hours) && total > 0
    ensures FitsWorkingHours(hours, start, total) <==> WorksThroughout(hours, TimeToMinutes(start), total)
  {
    var from, to := TimeToMinutes(start), TimeToMinutes(start) + total;
    if WorksThroughout(hours, from, total) {
      assert WorksMinute(hours, from) && WorksMinute(hours, to - 1);
      if hours.breakStart.Some? && hours.breakEnd.Some? {
        var pause := TimeToMinutes(hours.breakStart.value);
        assert from <= pause < to ==> WorksMinute(hours, pause);
      }
    }
  }

  /** Hours and breaks entered to the minute. */
  predicate IsToTheMinute(hours: Hours) {
    && IsWholeMinute(hours.start) && IsWholeMinute(hours.end)
    && (hours.breakStart.Some? ==> IsWholeMinute(hours.breakStart.value))
    && (hours.breakEnd.Some? ==> IsWholeMinute(hours.breakEnd.value))
  }

  /** With hours to the minute a working minute is one of working moments. */
  lemma MinutesAreMoments(hours: Hours, start: TimeOfDay, total: int)
    requires IsToTheMinute(hours) && IsWholeMinute(start)
    ensures WorksThroughout(hours, TimeToMinutes(start), total) <==>
              forall moment :: start <= moment < start + total * MINUTE ==> IsWorking(hours, moment)
  {
    var from := TimeToMinutes(start);
    if WorksThroughout(hours, from, total) {
      forall moment | start <= moment < start + total * MINUTE ensures IsWorking(hours, moment) {
        assert WorksMinute(hours, moment / MINUTE);
      }
    }
    if forall moment :: start <= moment < start + total * MINUTE ==> IsWorking(hours, moment) {
      forall minute | from <= minute < from + total ensures WorksMinute(hours, minute) {
        assert IsWorking(hours, minute * MINUTE);
      }
    }
  }

  /** The overlap query on stored times finds a booking exactly when two appointments share a moment. */
  lemma OverlapIsASharedMoment(b: Booking, staff: StaffId, day: Day, start: int, end: int)
    requires b.start < b.end && 0 <= start < end < DAY
    ensures Overlaps(b, staff, day, start, end) <==>
              exists moment :: start <= moment < end && Occupies(b, staff, day, moment)
  {
    var later := if b.start < start then start else b.start;
    if Overlaps(b, staff, day, start, end) {
      assert start <= later < end && Occupies(b, staff, day, later);
    }
  }

  lemma NotBookedIsNeverBusy(bookings: Bookings, staff: StaffId, day: Day, start: TimeOfDay, total: int,
                             exclude: Option<BookingId>)
    requires RunForward(bookings) && total > 0 && start + total * MINUTE < DAY
    ensures IsSlotBooked(bookings, staff, day, start, total, exclude) <==>
              exists moment :: start <= moment < start + total * MINUTE && IsBusy(bookings, staff, day, exclude, moment)
  {
    var end := start + total * MINUTE;
    assert AddMinutes(start, total) == end;
    if IsSlotBooked(bookings, staff, day, start, total, exclude) {
      var id :| id in bookings && exclude != Some(id) && Overlaps(bookings[id], staff, day, start, end);
      OverlapIsASharedMoment(bookings[id], staff, day, start, end);
      var moment :| start <= moment < end && Occupies(bookings[id], staff, day, moment);
      assert IsBusy(bookings, staff, day, exclude, moment);
    }
    if moment :| start <= moment < end && IsBusy(bookings, staff, day, exclude, moment) {
      var id :| id in bookings && exclude != Some(id) && Occupies(bookings[id], staff, day, moment);
      OverlapIsASharedMoment(bookings[id], staff, day, start, end);
    }
  }

  /**
  The slot check passes exactly when the staff member is at work and free throughout: for any start, with seconds
  or without, and any hours. Where both are given to the minute, that is at every single moment.
  */
  lemma SlotCheckIsMomentByMoment(service: Service, roster: Roster, bookings: Bookings, staff: StaffId, day: Day,
                                  start: TimeOfDay, exclude: Option<BookingId>)
    requires service.Total() > 0 && RunForward(bookings)
    requires var hours := Availability(roster, staff, day); hours.Some? ==> BreakRunsForward(hours.value)
    ensures CheckStaffSlot(service, roster, bookings, staff, day, start, exclude, false) == Accepted <==>
              CanServe(service, roster, bookings, staff, day, start, exclude)
    ensures var hours := Availability(roster, staff, day);
            hours.Some? && IsToTheMinute(hours.value) && IsWholeMinute(start) ==>
              (CanServe(service, roster, bookings, staff, day, start, exclude) <==>
                 forall moment :: start <= moment < start + service.Total() * MINUTE ==>
                   IsWorking(hours.value, moment) && !IsBusy(bookings, staff, day, exclude, moment))
  {
    var availability := Availability(roster, staff, day);
    if availability.Some? {
      var hours := availability.value;
      FitsIsWorkingThroughout(hours, start, service.Total());
      if FitsWorkingHours(hours, start, service.Total()) {
        FittingStaysInTheDay(hours, start, service.Total());
        NotBookedIsNeverBusy(bookings, staff, day, start, service.Total(), exclude);
      }
      if IsToTheMinute(hours) && IsWholeMinute(start) {
        MinutesAreMoments(hours, start, service.Total());
        assert start <= start < start + service.Total() * MINUTE;
      }
    }
  }

  lemma FittingStaysInTheDay(hours: Hours, start: TimeOfDay, total: int)
    requires total > 0 && FitsWorkingHours(hours, start, total)
    ensures start + total * MINUTE < DAY
  {
    assert start < (TimeToMinutes(start) + 1) * MINUTE;
    assert TimeToMinutes(start) + total < MINUTES_PER_DAY;
  }

  // -------------------------------------------------------------------------
  // The day's hours
  // -------------------------------------------------------------------------

  predicate IsFor(e: DayException, staff: StaffId, day: Day) {
    e.staff == staff && e.day == day
  }

  /** The exception that counts is the one entered last for the day, however many there are. */
  lemma {:induction false} NewestExceptionCounts(exceptions: seq<DayException>, staff: StaffId, day: Day)
    ensures var e := LatestException(exceptions, staff, day);
            if e.Some? then
              exists k :: 0 <= k < |exceptions| && exceptions[k] == e.value && IsFor(exceptions[k], staff, day)
                          && forall l :: k < l < |exceptions| ==> !IsFor(exceptions[l], staff, day)
            else forall k :: 0 <= k < |exceptions| ==> !IsFor(exceptions[k], staff, day)
  {
    if exceptions != [] {
      var last := |exceptions| - 1;
      if IsFor(exceptions[last], staff, day) {
        assert exceptions[last] == LatestException(exceptions, staff, day).value;
      } else {
        NewestExceptionCounts(exceptions[..last], staff, day);
        var e := LatestException(exceptions[..last], staff, day);
        if e.Some? {
          var k :| 0 <= k < last && exceptions[..last][k] == e.value && IsFor(exceptions[..last][k], staff, day)
                   && forall l :: k < l < last ==> !IsFor(exceptions[..last][l], staff, day);
          assert exceptions[k] == e.value;
          forall l | k < l < |exceptions| ensures !IsFor(exceptions[l], staff, day) {
            assert l < last ==> !IsFor(exceptions[..last][l], staff, day);
          }
        } else {
          forall l | 0 <= l < |exceptions| ensures !IsFor(exceptions[l], staff, day) {
            assert l < last ==> !IsFor(exceptions[..last][l], staff, day);
          }
        }
      }
    }
  }

  predicate IsNewest(exceptions: seq<DayException>, k: nat, staff: StaffId, day: Day) {
    && k < |exceptions| && IsFor(exceptions[k], staff, day)
    && forall l :: k < l < |exceptions| ==> !IsFor(exceptions[l], staff, day)
  }

  /** The row of the weekday, where there is one that is available. */
  predicate HasWeekday(roster: Roster, staff: StaffId, day: Day) {
    (staff, Weekday(day)) in roster.weekly && roster.weekly[(staff, Weekday(day))].isAvailable
  }

  /** On a day without exceptions someone works if the row of the weekday is available, in its hours and breaks. */
  lemma OrdinaryDay(roster: Roster, staff: StaffId, day: Day)
    requires forall k :: 0 <= k < |roster.exceptions| ==> !IsFor(roster.exceptions[k], staff, day)
    ensures Availability(roster, staff, day).Some? <==> HasWeekday(roster, staff, day)
    ensures HasWeekday(roster, staff, day) ==>
              Availability(roster, staff, day).value == roster.weekly[(staff, Weekday(day))].hours
  {
    NewestExceptionCounts(roster.exceptions, staff, day);
  }

  /**
  With exceptions the newest decides: a day off if it says so; its own hours, without a break, if it has both; else
  the row of the weekday, if that is available; else from 9:00 and until 17:00 where it does not say.
  */
  lemma ExceptionalDay(roster: Roster, staff: StaffId, day: Day, k: nat)
    requires IsNewest(roster.exceptions, k, staff, day)
    ensures var e, hours := roster.exceptions[k], Availability(roster, staff, day);
            && (hours.Some? <==> e.isAvailable)
            && (e.isAvailable && e.start.Some? && e.end.Some? ==>
                  hours.value == Hours(e.start.value, e.end.value, None, None))
            && (e.isAvailable && (e.start.None? || e.end.None?) && HasWeekday(roster, staff, day) ==>
                  hours.value == roster.weekly[(staff, Weekday(day))].hours)
            && (e.isAvailable && (e.start.None? || e.end.None?) && !HasWeekday(roster, staff, day) ==>
                  && hours.value.start == (if e.start.Some? then e.start.value else 9 * HOUR)
                  && hours.value.end == (if e.end.Some? then e.end.value else 17 * HOUR)
                  && hours.value.breakStart.None? && hours.value.breakEnd.None?)
  {
    NewestExceptionCounts(roster.exceptions, staff, day);
    var e := LatestException(roster.exceptions, staff, day);
    if e.Some? {
      var l :| 0 <= l < |roster.exceptions| && roster.exceptions[l] == e.value
               && IsFor(roster.exceptions[l], staff, day)
               && forall m :: l < m < |roster.exceptions| ==> !IsFor(roster.exceptions[m], staff, day);
      assert k == l;
    }
  }

  // -------------------------------------------------------------------------
  // The times a service is offered at
  // -------------------------------------------------------------------------

  /** The n-th step after the first minute. */
  predicate IsStep(first: int, step: nat, n: nat, minute: int) {
    minute == first + n * step
  }

  /** One of the fixed times, or some steps after the start of the day's hours and before their end. */
  ghost predicate IsOffered(service: Service, hours: Hours, step: nat, minute: int) {
    match service.kind
    case FixedSlots(times) => exists k :: 0 <= k < |times| && times[k].Some? && times[k].value == minute
    case DurationBased =>
      minute < hours.end / MINUTE && exists n: nat :: IsStep(hours.start / MINUTE, step, n, minute)
    case Unlisted => false
  }

  lemma InStepsIff(first: int, end: int, step: nat, m: int)
    requires step > 0
    ensures InSteps(first, end, step, m) <==> m < end && exists n: nat :: IsStep(first, step, n, m)
  {
    if InSteps(first, end, step, m) {
      var n := (m - first) / step;
      assert m - first == n * step;
      assert n >= 0;
      assert IsStep(first, step, n, m);
    }
    if n: nat :| IsStep(first, step, n, m) {
      MultipleHasNoRest(n, step);
    }
  }

  lemma {:induction false} MultipleHasNoRest(n: nat, step: nat)
    requires step > 0
    ensures n * step >= 0 && n * step % step == 0
  {
    if n > 0 {
      MultipleHasNoRest(n - 1, step);
      assert n * step == (n - 1) * step + step;
      Slots.NextStep((n - 1) * step, step);
    }
  }

  lemma GridIsOffered(service: Service, hours: Hours, minute: MinuteOfDay)
    ensures OnGrid(service, hours, minute) <==> IsOffered(service, hours, GridStep(service), minute)
  {
    InStepsIff(hours.start / MINUTE, hours.end / MINUTE, GridStep(service), minute);
  }

  /** A customer's time: no odd seconds, offered that day, and the staff member can serve then. */
  ghost predicate ServesOnGrid(service: Service, roster: Roster, bookings: Bookings, staff: StaffId, day: Day,
                               start: TimeOfDay, exclude: Option<BookingId>)
  {
    && CanServe(service, roster, bookings, staff, day, start, exclude)
    && start / SECOND % 60 == 0
    && IsOffered(service, Availability(roster, staff, day).value, GridStep(service), start / MINUTE)
  }

  /** Services that take time, bookings and breaks that run forward. */
  ghost predicate RunsForward(service: Service, roster: Roster, bookings: Bookings, staff: StaffId, day: Day) {
    && service.duration + service.buffer > 0
    && RunForward(bookings)
    && var hours := Availability(roster, staff, day); hours.Some? ==> BreakRunsForward(hours.value)
  }

  /** With the grid enforced the check passes exactly when the time is offered as well. */
  lemma GridCheckIsServing(service: Service, roster: Roster, bookings: Bookings, staff: StaffId, day: Day,
                           start: TimeOfDay, exclude: Option<BookingId>)
    requires RunsForward(service, roster, bookings, staff, day)
    ensures CheckStaffSlot(service, roster, bookings, staff, day, start, exclude, true) == Accepted <==>
              ServesOnGrid(service, roster, bookings, staff, day, start, exclude)
  {
    SlotCheckIsMomentByMoment(service, roster, bookings, staff, day, start, exclude);
    var hours := Availability(roster, staff, day);
    if hours.Some? {
      GridIsOffered(service, hours.value, TimeToMinutes(start));
    }
  }

  /**
  A day off, or a day with hours of its own, looks at no weekly row; on any other day the weekly row's breaks count.
  */
  lemma ExceptionsWin(roster: Roster, other: Roster, staff: StaffId, day: Day)
    requires roster.exceptions == other.exceptions
    ensures var e := LatestException(roster.exceptions, staff, day);
            var hours := Availability(roster, staff, day);
            && (e.Some? && (!e.value.isAvailable || (e.value.start.Some? && e.value.end.Some?)) ==>
                  hours == Availability(other, staff, day) && (hours.Some? <==> e.value.isAvailable))
            && (e.Some? && hours.Some? && hours != WeeklyHours(roster, staff, day) ==>
                  hours.value.breakStart.None? && (e.value.start.Some? ==> hours.value.start == e.value.start.value)
                  && (e.value.end.Some? ==> hours.value.end == e.value.end.value))
  {
  }
}
