/**
When a staff member can take a service: weekly hours, date exceptions, breaks, the length of the
service with its buffer, and the bookings already made. The booking table is a map.
*/
module Staffing {
  import opened BookingStatus
  import opened Options
  import opened Clock

  type StaffId = nat
  type ServiceId = nat
  type BookingId = nat

  datatype Hours = Hours(start: TimeOfDay, end: TimeOfDay, breakStart: Option<TimeOfDay>, breakEnd: Option<TimeOfDay>)

  datatype Weekly = Weekly(hours: Hours, isAvailable: bool)

  datatype DayException = DayException(
    staff: StaffId, day: Day, isAvailable: bool, start: Option<TimeOfDay>, end: Option<TimeOfDay>)

  /** The working calendar: weekly rows by staff member and weekday, exceptions oldest first, who takes bookings. */
  datatype Roster = Roster(
    weekly: map<(StaffId, int), Weekly>, exceptions: seq<DayException>, active: set<StaffId>)

  /** Fixed start times are minutes of the day, absent where the configured text is no time. */
  datatype Kind = FixedSlots(times: seq<Option<MinuteOfDay>>) | DurationBased | Unlisted

  datatype Service = Service(duration: int, buffer: int, kind: Kind, staff: seq<StaffId>) {

    /** Service plus buffer, in minutes. */
    function Total(): int {
      duration + buffer
    }
  }

  datatype Booking = Booking(
    service: ServiceId, staff: Option<StaffId>, day: Day, start: TimeOfDay, end: TimeOfDay, status: Status)

  type Bookings = map<BookingId, Booking>

  datatype Reason =
    | NotWorking | NotOffered | OutsideHours | RunsPastHours | InBreak | AlreadyBooked
    | InThePast | NobodyAssigned | NobodyFree | TooSoon | TooFarAhead

  datatype Outcome = Accepted | Refused(reason: Reason)

  // -------------------------------------------------------------------------
  // Working hours of a day
  // -------------------------------------------------------------------------

  /** The newest exception entered for this staff member and day. */
  function LatestException(exceptions: seq<DayException>, staff: StaffId, day: Day): Option<DayException> {
    if exceptions == [] then None
    else
      var newest := exceptions[|exceptions| - 1];
      if newest.staff == staff && newest.day == day then Some(newest)
      else LatestException(exceptions[..|exceptions| - 1], staff, day)
  }

  function WeeklyHours(roster: Roster, staff: StaffId, day: Day): Option<Hours> {
    var key := (staff, Weekday(day));
    if key in roster.weekly && roster.weekly[key].isAvailable then Some(roster.weekly[key].hours) else None
  }

  function Availability(roster: Roster, staff: StaffId, day: Day): Option<Hours> {
    var weekly := WeeklyHours(roster, staff, day);
    match LatestException(roster.exceptions, staff, day)
    case None => weekly
    case Some(e) =>
      if !e.isAvailable then None
      else if e.start.Some? && e.end.Some? then Some(Hours(e.start.value, e.end.value, None, None))
      else if weekly.None? then
        Some(Hours(e.start.GetOr(MinutesToTime(9 * 60)), e.end.GetOr(MinutesToTime(17 * 60)), None, None))
      else weekly
  }

  // -------------------------------------------------------------------------
  // One appointment in one day
  // -------------------------------------------------------------------------

  /** Every half hour, or as often as a shorter service allows. */
  function GridStep(service: Service): (step: nat)
    ensures 1 <= step <= 30
    ensures service.duration >= 1 ==> step <= service.duration && (step == 30 || step == service.duration)
    ensures service.duration < 1 ==> step == 1
  {
    var shorter := if service.duration < 30 then service.duration else 30;
    if shorter < 1 then 1 else shorter
  }

  /** One of first, first + step, ... below end. */
  predicate InSteps(first: int, end: int, step: nat, m: int)
    requires step > 0
  {
    first <= m < end && (m - first) % step == 0
  }

  predicate OnGrid(service: Service, hours: Hours, minute: MinuteOfDay) {
    match service.kind
    case FixedSlots(times) => Some(minute) in times
    case DurationBased => InSteps(TimeToMinutes(hours.start), TimeToMinutes(hours.end), GridStep(service), minute)
    case Unlisted => false
  }

  predicate FitsWorkingHours(hours: Hours, start: TimeOfDay, total: int) {
    var from := TimeToMinutes(start);
    var to := from + total;
    && TimeToMinutes(hours.start) <= from
    && to <= TimeToMinutes(hours.end)
    && (hours.breakStart.Some? && hours.breakEnd.Some? ==>
          !(from < TimeToMinutes(hours.breakEnd.value) && to > TimeToMinutes(hours.breakStart.value)))
  }

  predicate IsTimeInRange(t: TimeOfDay, from: TimeOfDay, to: TimeOfDay) {
    from <= t < to
  }

  /** The overlap test of the booking query, on stored and wrapped times of day. */
  predicate Overlaps(b: Booking, staff: StaffId, day: Day, start: TimeOfDay, end: TimeOfDay) {
    b.staff == Some(staff) && b.day == day && IsActive(b.status) && b.start < end && b.end > start
  }

  predicate IsSlotBooked(bookings: Bookings, staff: StaffId, day: Day, start: TimeOfDay, total: int,
                         exclude: Option<BookingId>)
  {
    exists id :: id in bookings && exclude != Some(id)
                 && Overlaps(bookings[id], staff, day, start, AddMinutes(start, total))
  }

  function CheckStaffSlot(service: Service, roster: Roster, bookings: Bookings, staff: StaffId, day: Day,
                          start: TimeOfDay, exclude: Option<BookingId>, enforceGrid: bool): Outcome
  {
    match Availability(roster, staff, day)
    case None => Refused(NotWorking)
    case Some(hours) =>
      if enforceGrid && (!OnGrid(service, hours, TimeToMinutes(start)) || start / SECOND % 60 != 0)
      then Refused(NotOffered)
      else if !IsTimeInRange(start, hours.start, hours.end) then Refused(OutsideHours)
      else if TimeToMinutes(start) + service.Total() > TimeToMinutes(hours.end) then Refused(RunsPastHours)
      else if !FitsWorkingHours(hours, start, service.Total()) then Refused(InBreak)
      else if IsSlotBooked(bookings, staff, day, start, service.Total(), exclude) then Refused(AlreadyBooked)
      else Accepted
  }

  predicate StaffCanPerform(service: Service, roster: Roster, staff: StaffId) {
    staff in roster.active && staff in service.staff
  }

  /** First active staff member of the service, in id order, who can take it then. */
  function FindAvailableStaff(service: Service, staff: seq<StaffId>, roster: Roster, bookings: Bookings, day: Day,
                              start: TimeOfDay, exclude: Option<BookingId>, enforceGrid: bool): (found: Option<StaffId>)
    ensures found.Some? ==>
              found.value in staff && found.value in roster.active
              && CheckStaffSlot(service, roster, bookings, found.value, day, start, exclude, enforceGrid) == Accepted
    ensures found.None? ==>
              forall s <- staff :: s in roster.active ==>
                CheckStaffSlot(service, roster, bookings, s, day, start, exclude, enforceGrid) != Accepted
  {
    if staff == [] then None
    else if staff[0] in roster.active
            && CheckStaffSlot(service, roster, bookings, staff[0], day, start, exclude, enforceGrid) == Accepted
    then Some(staff[0])
    else FindAvailableStaff(service, staff[1..], roster, bookings, day, start, exclude, enforceGrid)
  }

  // -------------------------------------------------------------------------
  // Customer rules
  // -------------------------------------------------------------------------

  /** Lead time and how far ahead, judged on the business's clock. */
  datatype Window = Window(minHours: int, maxDays: int)

  function CheckBookingWindow(window: Window, now: Instant, day: Day, start: TimeOfDay): Outcome {
    if At(day, start) < now + window.minHours * HOUR then Refused(TooSoon)
    else if day > DayOf(now) + window.maxDays then Refused(TooFarAhead)
    else Accepted
  }

  function ValidateBookingAvailability(service: Service, roster: Roster, bookings: Bookings, now: Instant,
                                       staff: Option<StaffId>, day: Day, start: TimeOfDay,
                                       exclude: Option<BookingId>, enforceGrid: bool): Outcome
  {
    if day < DayOf(now) || (day == DayOf(now) && start <= TimeOf(now)) then Refused(InThePast)
    else if staff.Some? then
      CheckStaffSlot(service, roster, bookings, staff.value, day, start, exclude, enforceGrid)
    else if !(exists s <- service.staff :: s in roster.active) then Refused(NobodyAssigned)
    else if FindAvailableStaff(service, service.staff, roster, bookings, day, start, exclude, enforceGrid).None? then
      Refused(NobodyFree)
    else Accepted
  }

  // -------------------------------------------------------------------------
  // Clock addition on accepted slots
  // -------------------------------------------------------------------------

  /**
  Wherever a slot got as far as the overlap query, free or taken, its end is on the same day: the wrap does nothing.
  */
  lemma QueriedSlotsDoNotWrap(service: Service, roster: Roster, bookings: Bookings, staff: StaffId, day: Day,
                              start: TimeOfDay, exclude: Option<BookingId>, enforceGrid: bool)
    requires CheckStaffSlot(service, roster, bookings, staff, day, start, exclude, enforceGrid)
             in {Accepted, Refused(AlreadyBooked)}
    requires service.Total() >= 0
    ensures start + service.Total() * MINUTE < DAY
    ensures AddMinutes(start, service.Total()) == start + service.Total() * MINUTE
  {
    var hours := Availability(roster, staff, day).value;
    assert TimeToMinutes(start) + service.Total() <= TimeToMinutes(hours.end) < MINUTES_PER_DAY;
  }

  /** A start with seconds runs past the working hours by less than a minute, and past them at all only then. */
  lemma OverrunIsBelowAMinute(service: Service, roster: Roster, bookings: Bookings, staff: StaffId, day: Day,
                              start: TimeOfDay, exclude: Option<BookingId>, enforceGrid: bool)
    requires CheckStaffSlot(service, roster, bookings, staff, day, start, exclude, enforceGrid) == Accepted
    ensures var hours := Availability(roster, staff, day).value;
            && start >= hours.start
            && start + service.Total() * MINUTE < hours.end + MINUTE
            && (IsWholeMinute(start) ==> start + service.Total() * MINUTE <= hours.end)
  {
  }
}
