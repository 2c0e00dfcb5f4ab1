/**
The slot lists against the validator. A time is on the customers' list exactly when every check made
on a submitted booking passes; where the two differ is stated exactly, with an input for each case.
*/
module SlotAgreement {
  import opened Options
  import opened Clock
  import opened Staffing
  import opened Slots
  import SlotMeaning

  /** Every check a customer's booking of staff member `s` at `t` has to pass. */
  predicate Accepts(r: Request, s: StaffId, t: TimeOfDay)
    requires r.listing.ForCustomers?
  {
    && StaffCanPerform(r.service, r.roster, s)
    && CheckBookingWindow(r.listing.window, r.listing.now, r.day, t) == Accepted
    && ValidateBookingAvailability(
         r.service, r.roster, r.bookings, r.listing.now, Some(s), r.day, t, None, true) == Accepted
  }

  /** The same with the staff member left open. */
  predicate AcceptsAnyone(r: Request, t: TimeOfDay)
    requires r.listing.ForCustomers?
  {
    && CheckBookingWindow(r.listing.window, r.listing.now, r.day, t) == Accepted
    && ValidateBookingAvailability(
         r.service, r.roster, r.bookings, r.listing.now, None, r.day, t, None, true) == Accepted
  }

  predicate InsideHours(r: Request, s: StaffId, t: TimeOfDay) {
    var hours := Availability(r.roster, s, r.day);
    hours.Some? && IsTimeInRange(t, hours.value.start, hours.value.end)
  }

  /** The day starts on a full minute for `s`, if `s` works at all. */
  predicate StartsOnTheMinute(r: Request, s: StaffId) {
    var hours := Availability(r.roster, s, r.day);
    hours.Some? ==> IsWholeMinute(hours.value.start)
  }

  /** What the agreement rests on: services take time and customers book at least an hour ahead. */
  predicate Usual(r: Request) {
    && r.service.Total() > 0
    && (r.listing.ForCustomers? ==> r.listing.window.minHours >= 1)
  }

  // -------------------------------------------------------------------------
  // The customers' list
  // -------------------------------------------------------------------------

  /** For every request: listed and refused happens only outside the exact hours or not after the present moment. */
  lemma AcceptedExactly(r: Request, s: StaffId, m: MinuteOfDay)
    requires r.listing.ForCustomers?
    ensures Accepts(r, s, MinutesToTime(m)) <==>
              && s in r.Listed(Some(s), []) && r.Offers(s, m)
              && InsideHours(r, s, MinutesToTime(m))
              && r.listing.now < At(r.day, MinutesToTime(m))
  {
    MinutesRoundTrip(m);
    PastOrNot(r.listing.now, r.day, MinutesToTime(m));
  }

  lemma PastOrNot(now: Instant, day: Day, t: TimeOfDay)
    ensures day < DayOf(now) || (day == DayOf(now) && t <= TimeOf(now)) <==> At(day, t) <= now
  {
    assert now == DayOf(now) * DAY + TimeOf(now);
  }

  lemma OfferedIsInside(r: Request, s: StaffId, m: MinuteOfDay)
    requires Usual(r) && StartsOnTheMinute(r, s) && r.Offers(s, m)
    ensures InsideHours(r, s, MinutesToTime(m))
  {
    MinutesRoundTrip(m);
    var hours := Availability(r.roster, s, r.day).value;
    assert TimeToMinutes(hours.start) <= m < TimeToMinutes(hours.end);
    assert TimeToMinutes(hours.start) * MINUTE == hours.start;
  }

  lemma ListedIffAccepted(r: Request, s: StaffId, m: MinuteOfDay)
    requires r.listing.ForCustomers? && Usual(r) && StartsOnTheMinute(r, s)
    ensures s in r.Listed(Some(s), []) && r.Offers(s, m) <==> Accepts(r, s, MinutesToTime(m))
  {
    AcceptedExactly(r, s, m);
    if r.Offers(s, m) {
      OfferedIsInside(r, s, m);
    }
  }

  /** With nobody asked for, a time is listed for someone exactly when the booking is accepted for whoever is free. */
  lemma ListedIffSomeoneAccepted(r: Request, inOrder: seq<StaffId>, m: MinuteOfDay)
    requires r.listing.ForCustomers? && Usual(r)
    requires forall s :: s in inOrder <==> s in r.service.staff
    requires forall s :: s in r.service.staff ==> StartsOnTheMinute(r, s)
    ensures (exists s :: s in r.Listed(None, inOrder) && r.Offers(s, m)) <==> AcceptsAnyone(r, MinutesToTime(m))
  {
    var t := MinutesToTime(m);
    forall s | s in r.Listed(None, inOrder) ensures r.Offers(s, m) <==> Accepts(r, s, t) {
      ListedIffAccepted(r, s, m);
    }
    var found := FindAvailableStaff(r.service, r.service.staff, r.roster, r.bookings, r.day, t, None, true);
    if AcceptsAnyone(r, t) {
      assert found.value in r.Listed(None, inOrder) && Accepts(r, found.value, t);
    }
    if s :| s in r.Listed(None, inOrder) && r.Offers(s, m) {
      assert Accepts(r, s, t);
    }
  }

  /** An accepted start is one of the listed times exactly if it has no fraction of a second. */
  lemma OnlyListedTimesAreAccepted(r: Request, s: StaffId, t: TimeOfDay)
    requires r.listing.ForCustomers? && Accepts(r, s, t)
    ensures IsWholeMinute(t) && r.Offers(s, TimeToMinutes(t)) <==> t % SECOND == 0
  {
    if t % SECOND == 0 {
      assert t == (t / SECOND) * SECOND && t / SECOND == (t / SECOND / 60) * 60;
      assert t == MinutesToTime(TimeToMinutes(t));
      AcceptedExactly(r, s, TimeToMinutes(t));
    }
  }

  // -------------------------------------------------------------------------
  // The staff's list
  // -------------------------------------------------------------------------

  /** Staff are listed every candidate time of the chosen grid at which the slot check without a grid passes. */
  lemma StaffListIsTheSlotCheck(r: Request, s: StaffId, m: MinuteOfDay)
    requires r.listing.ForStaff? && Usual(r) && StartsOnTheMinute(r, s)
    ensures var t, hours := MinutesToTime(m), Availability(r.roster, s, r.day);
            r.Offers(s, m) <==>
              && hours.Some? && r.IsCandidate(hours.value, m)
              && (r.listing.notBefore.Some? ==> At(r.day, t) >= r.listing.notBefore.value)
              && CheckStaffSlot(r.service, r.roster, r.bookings, s, r.day, t, r.listing.exclude, false) == Accepted
  {
    MinutesRoundTrip(m);
    if r.Offers(s, m) {
      OfferedIsInside(r, s, m);
    }
  }

  /** Both lists step by the service's grid; the staff's by their own step, if they ask for one of a minute or more. */
  lemma ListedTimesAreOffered(r: Request, hours: Hours, m: MinuteOfDay)
    ensures var own := r.listing.ForStaff? && r.listing.step.Some? && r.listing.step.value >= 1;
            r.IsCandidate(hours, m) <==>
              SlotMeaning.IsOffered(r.service, hours, if own then r.listing.step.value else GridStep(r.service), m)
  {
    SlotMeaning.GridIsOffered(r.service, hours, m);
    if r.listing.ForStaff? && r.listing.step.Some? && r.listing.step.value >= 1 {
      SlotMeaning.InStepsIff(hours.start / MINUTE, hours.end / MINUTE, r.listing.step.value, m);
    }
  }

  /** Who is listed: the one asked for, to customers only if active and on the roster; or all that are active. */
  lemma ListedStaffAre(r: Request, staff: Option<StaffId>, inOrder: seq<StaffId>, s: StaffId)
    ensures s in r.Listed(staff, inOrder) <==>
              if staff.Some? then
                s == staff.value && (r.listing.ForStaff? || (s in r.roster.active && s in r.service.staff))
              else s in inOrder && s in r.roster.active
  {
  }

  // -------------------------------------------------------------------------
  // Inputs on which list and validator differ
  // -------------------------------------------------------------------------

  function Shift(from: TimeOfDay, to: TimeOfDay): Hours {
    Hours(from, to, None, None)
  }

  /** One staff member, always at work from `from` to 17:00, a service of 60 minutes, no bookings, Monday as day 1. */
  function Example(from: TimeOfDay, minHours: int, now: Instant): Request {
    Request(
      ForCustomers(Window(minHours, 60), now),
      Service(60, 0, DurationBased, [7]),
      Roster(map[(7, 0) := Weekly(Shift(from, 17 * HOUR), true)], [], {7}),
      map[], 1)
  }

  lemma ExampleHours(from: TimeOfDay, minHours: int, now: Instant)
    ensures Availability(Example(from, minHours, now).roster, 7, 1) == Some(Shift(from, 17 * HOUR))
  {
    assert Weekday(1) == 0;
  }

  /** Hours from 9:00:30: 9:00 is listed, and booking it is refused. */
  lemma HoursWithSecondsListARefusedTime()
    ensures var r := Example(9 * HOUR + 30 * SECOND, 2, 0);
            r.Offers(7, 540) && !Accepts(r, 7, MinutesToTime(540))
  {
    ExampleHours(9 * HOUR + 30 * SECOND, 2, 0);
  }

  /** No lead time: at 9:00 sharp, 9:00 is still listed, and booking it is refused. */
  lemma NoLeadTimeListsThePresent()
    ensures var r := Example(9 * HOUR, 0, At(1, 9 * HOUR));
            r.Offers(7, 540) && !Accepts(r, 7, MinutesToTime(540))
  {
    ExampleHours(9 * HOUR, 0, At(1, 9 * HOUR));
  }

  /** A microsecond after 10:00 is no listed time, and can be booked: the grid looks at whole seconds. */
  lemma SubSecondStartsPassTheGrid()
    ensures var r := Example(9 * HOUR, 2, 0);
            && Accepts(r, 7, 10 * HOUR + 1)
            && forall m: MinuteOfDay :: MinutesToTime(m) != 10 * HOUR + 1
  {
    ExampleHours(9 * HOUR, 2, 0);
  }
}
