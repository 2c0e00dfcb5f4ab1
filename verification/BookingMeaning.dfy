/**
What the booking handlers decide, said on the fields of their inputs: which requests open a transaction, and with which
order; which bookings move, to whom and to what. Times are compared as instants, and "can serve" is moment by moment.
*/
module BookingMeaning {
  import opened BookingStatus
  import opened Options
  import opened Clock
  import opened Staffing
  import opened SlotMeaning
  import opened BookingRun
  import SlotAgreement

  // -------------------------------------------------------------------------
  // Who can serve
  // -------------------------------------------------------------------------

  ghost predicate Serves(service: Service, roster: Roster, bookings: Bookings, s: StaffId, day: Day, start: TimeOfDay,
                         exclude: Option<BookingId>, onGrid: bool)
  {
    if onGrid then ServesOnGrid(service, roster, bookings, s, day, start, exclude)
    else CanServe(service, roster, bookings, s, day, start, exclude)
  }

  /** An active staff member of the service who can serve. */
  ghost predicate IsAvailable(service: Service, roster: Roster, bookings: Bookings, s: StaffId, day: Day,
                              start: TimeOfDay, exclude: Option<BookingId>, onGrid: bool)
  {
    s in service.staff && s in roster.active && Serves(service, roster, bookings, s, day, start, exclude, onGrid)
  }

  /** The staff member asked for can serve or, with nobody asked for, somebody is available. */
  ghost predicate CanBeServed(service: Service, roster: Roster, bookings: Bookings, staff: Option<StaffId>, day: Day,
                              start: TimeOfDay, exclude: Option<BookingId>, onGrid: bool)
  {
    if staff.Some? then Serves(service, roster, bookings, staff.value, day, start, exclude, onGrid)
    else exists s :: IsAvailable(service, roster, bookings, s, day, start, exclude, onGrid)
  }

  /** The first of the roster who is available, or nobody where nobody is. */
  ghost predicate IsFirstAvailable(service: Service, roster: Roster, bookings: Bookings, found: Option<StaffId>,
                                   day: Day, start: TimeOfDay, exclude: Option<BookingId>, onGrid: bool)
  {
    if found.None? then forall s :: !IsAvailable(service, roster, bookings, s, day, start, exclude, onGrid)
    else
      && IsAvailable(service, roster, bookings, found.value, day, start, exclude, onGrid)
      && exists k :: 0 <= k < |service.staff| && service.staff[k] == found.value
                     && forall j :: 0 <= j < k ==>
                          !IsAvailable(service, roster, bookings, service.staff[j], day, start, exclude, onGrid)
  }

  /** The service takes time, and bookings and breaks run forward. */
  ghost predicate AllRunForward(service: Service, roster: Roster, bookings: Bookings, day: Day) {
    forall s: StaffId :: RunsForward(service, roster, bookings, s, day)
  }

  lemma CheckIsServing(service: Service, roster: Roster, bookings: Bookings, s: StaffId, day: Day, start: TimeOfDay,
                       exclude: Option<BookingId>, onGrid: bool)
    requires AllRunForward(service, roster, bookings, day)
    ensures CheckStaffSlot(service, roster, bookings, s, day, start, exclude, onGrid) == Accepted <==>
              Serves(service, roster, bookings, s, day, start, exclude, onGrid)
    ensures Serves(service, roster, bookings, s, day, start, exclude, onGrid) ==>
              AddMinutes(start, service.Total()) == start + (service.duration + service.buffer) * MINUTE
  {
    assert RunsForward(service, roster, bookings, s, day);
    if onGrid {
      GridCheckIsServing(service, roster, bookings, s, day, start, exclude);
    } else {
      SlotCheckIsMomentByMoment(service, roster, bookings, s, day, start, exclude);
    }
    if CheckStaffSlot(service, roster, bookings, s, day, start, exclude, onGrid) == Accepted {
      QueriedSlotsDoNotWrap(service, roster, bookings, s, day, start, exclude, onGrid);
    }
  }

  /** Nobody before the one found passes. */
  lemma {:induction false} FirstIsFound(service: Service, staff: seq<StaffId>, roster: Roster, bookings: Bookings,
                                        day: Day, start: TimeOfDay, exclude: Option<BookingId>, onGrid: bool)
    ensures var found := FindAvailableStaff(service, staff, roster, bookings, day, start, exclude, onGrid);
            found.Some? ==>
              exists k :: 0 <= k < |staff| && staff[k] == found.value
                          && forall j :: 0 <= j < k ==>
                               !(staff[j] in roster.active
                                 && CheckStaffSlot(service, roster, bookings, staff[j], day, start, exclude, onGrid)
                                    == Accepted)
  {
    var found := FindAvailableStaff(service, staff, roster, bookings, day, start, exclude, onGrid);
    if found.Some? {
      if staff[0] == found.value {
      } else {
        FirstIsFound(service, staff[1..], roster, bookings, day, start, exclude, onGrid);
        var k :| 0 <= k < |staff[1..]| && staff[1..][k] == found.value
                 && forall j :: 0 <= j < k ==>
                      !(staff[1..][j] in roster.active
                        && CheckStaffSlot(service, roster, bookings, staff[1..][j], day, start, exclude, onGrid)
                           == Accepted);
        forall j | 0 <= j < k + 1
          ensures !(staff[j] in roster.active
                    && CheckStaffSlot(service, roster, bookings, staff[j], day, start, exclude, onGrid) == Accepted)
        {
          if j > 0 {
            assert staff[j] == staff[1..][j - 1];
          }
        }
        assert staff[k + 1] == found.value;
      }
    }
  }

  lemma FoundIsFirstAvailable(service: Service, roster: Roster, bookings: Bookings, day: Day, start: TimeOfDay,
                              exclude: Option<BookingId>, onGrid: bool)
    requires AllRunForward(service, roster, bookings, day)
    ensures IsFirstAvailable(
              service, roster, bookings,
              FindAvailableStaff(service, service.staff, roster, bookings, day, start, exclude, onGrid),
              day, start, exclude, onGrid)
  {
    FirstIsFound(service, service.staff, roster, bookings, day, start, exclude, onGrid);
    forall s: StaffId
      ensures CheckStaffSlot(service, roster, bookings, s, day, start, exclude, onGrid) == Accepted <==>
                Serves(service, roster, bookings, s, day, start, exclude, onGrid)
    {
      CheckIsServing(service, roster, bookings, s, day, start, exclude, onGrid);
    }
  }

  /** Validation is: after now, and somebody can serve. */
  lemma ValidationIsServing(service: Service, roster: Roster, bookings: Bookings, now: Instant, staff: Option<StaffId>,
                            day: Day, start: TimeOfDay, exclude: Option<BookingId>, onGrid: bool)
    requires AllRunForward(service, roster, bookings, day)
    ensures ValidateBookingAvailability(service, roster, bookings, now, staff, day, start, exclude, onGrid) == Accepted
       <==> now < At(day, start) && CanBeServed(service, roster, bookings, staff, day, start, exclude, onGrid)
    ensures CanBeServed(service, roster, bookings, staff, day, start, exclude, onGrid) ==>
              AddMinutes(start, service.Total()) == start + (service.duration + service.buffer) * MINUTE
  {
    SlotAgreement.PastOrNot(now, day, start);
    if staff.Some? {
      CheckIsServing(service, roster, bookings, staff.value, day, start, exclude, onGrid);
    } else {
      FoundIsFirstAvailable(service, roster, bookings, day, start, exclude, onGrid);
      var found := FindAvailableStaff(service, service.staff, roster, bookings, day, start, exclude, onGrid);
      if found.Some? {
        CheckIsServing(service, roster, bookings, found.value, day, start, exclude, onGrid);
      }
    }
  }

  // -------------------------------------------------------------------------
  // Opening a transaction
  // -------------------------------------------------------------------------

  /** Enough hours ahead, not too many days ahead, and after now in any case. */
  predicate IsInWindow(window: Window, now: Instant, day: Day, start: TimeOfDay) {
    && now + window.minHours * HOUR <= At(day, start)
    && day <= DayOf(now) + window.maxDays
    && now < At(day, start)
  }

  ghost predicate MayBook(service: Service, roster: Roster, seen: Bookings, window: Window, now: Instant,
                          wanted: Option<StaffId>, day: Day, start: TimeOfDay)
  {
    && (wanted.Some? ==> wanted.value in roster.active && wanted.value in service.staff)
    && IsInWindow(window, now, day, start)
    && CanBeServed(service, roster, seen, wanted, day, start, None, true)
  }

  /** The only change is a transaction that holds no lock yet. */
  predicate Opens(w: World, after: World, txn: TxnId) {
    && txn !in w.txns && txn in after.txns && after.txns[txn].phase == Locking(0)
    && after == w.(txns := w.txns[txn := after.txns[txn]])
  }

  /**
  A customer's request opens a transaction exactly if it is new and allowed: in the window, on the grid, with the staff
  member asked for or anyone able to serve. Its order is what was asked for, with the first available if left open.
  */
  lemma CustomerOpensIff(catalog: Catalog, w: World, txn: TxnId, id: ServiceId, wanted: Option<StaffId>, day: Day,
                         start: TimeOfDay, seen: Bookings, seenNext: Bookings, roster: Roster, window: Window,
                         now: Instant)
    requires id in catalog ==> AllRunForward(catalog[id], roster, seen, day)
                               && AllRunForward(catalog[id], roster, seenNext, day)
    ensures var request := ByCustomer(id, wanted, day, start);
            var after := Step(catalog, w, Begin(txn, request, seen, seenNext, roster, window, now));
            if txn !in w.txns && id in catalog && MayBook(catalog[id], roster, seen, window, now, wanted, day, start)
            then
              && Opens(w, after, txn)
              && var o := after.txns[txn].order;
                 && o.service == id && o.day == day && o.start == start && o.status == Pending
                 && o.locks == catalog[id].staff && o.auto == wanted.None?
                 && (if wanted.Some? then o.staff == wanted
                     else IsFirstAvailable(catalog[id], roster, seenNext, o.staff, day, start, None, true))
            else after == w
  {
    if id in catalog {
      ValidationIsServing(catalog[id], roster, seen, now, wanted, day, start, None, true);
      FoundIsFirstAvailable(catalog[id], roster, seenNext, day, start, None, true);
    }
  }

  /** The front desk's exactly if its staff member is active, on the roster and able to serve, at any time. */
  lemma DeskOpensIff(catalog: Catalog, w: World, txn: TxnId, id: ServiceId, staff: StaffId, day: Day,
                     start: TimeOfDay, confirmed: bool, seen: Bookings, seenNext: Bookings, roster: Roster,
                     window: Window, now: Instant)
    requires id in catalog ==> AllRunForward(catalog[id], roster, seen, day)
    ensures var request := ByDesk(id, staff, day, start, confirmed);
            var after := Step(catalog, w, Begin(txn, request, seen, seenNext, roster, window, now));
            if txn !in w.txns && id in catalog && IsAvailable(catalog[id], roster, seen, staff, day, start, None, false)
            then
              && Opens(w, after, txn)
              && var o := after.txns[txn].order;
                 && o.service == id && o.day == day && o.start == start
                 && o.status == (if confirmed then Confirmed else Pending)
                 && o.staff == Some(staff) && o.locks == [staff] && !o.auto
            else after == w
  {
    if id in catalog {
      CheckIsServing(catalog[id], roster, seen, staff, day, start, None, false);
    }
  }

  // -------------------------------------------------------------------------
  // Looking again and inserting
  // -------------------------------------------------------------------------

  /** The staff member meant is still free or, if it was left open, somebody is available now. */
  ghost predicate CanStillBook(service: Service, roster: Roster, bookings: Bookings, o: Order) {
    || (o.staff.Some? && IsFreeFor(service, bookings, o.staff.value, o.day, o.start, None))
    || (o.auto && exists s :: IsAvailable(service, roster, bookings, s, o.day, o.start, None, false))
  }

  ghost predicate IsChosen(service: Service, roster: Roster, bookings: Bookings, o: Order, staff: Option<StaffId>) {
    if o.staff.Some? && IsFreeFor(service, bookings, o.staff.value, o.day, o.start, None) then staff == o.staff
    else staff.Some? && IsFirstAvailable(service, roster, bookings, staff, o.day, o.start, None, false)
  }

  lemma FreeIsNotBooked(service: Service, bookings: Bookings, s: StaffId, day: Day, start: TimeOfDay)
    requires service.duration + service.buffer > 0 && RunForward(bookings)
    requires start + (service.duration + service.buffer) * MINUTE < DAY
    ensures IsFreeFor(service, bookings, s, day, start, None) <==>
              !IsSlotBooked(bookings, s, day, start, service.Total(), None)
  {
    NotBookedIsNeverBusy(bookings, s, day, start, service.Total(), None);
  }

  /**
  With all locks taken, looking again and inserting leaves the booking that was ordered exactly if it can still be had:
  with the staff member meant if free, else with the first available, for the length of its service.
  */
  lemma OrderBecomesBookingIff(catalog: Catalog, w: World, txn: TxnId, roster: Roster, id: BookingId)
    requires HasAllLocks(w, txn) && w.txns[txn].order.service in catalog && id !in w.bookings
    requires var o := w.txns[txn].order;
             && AllRunForward(catalog[o.service], roster, w.bookings, o.day)
             && o.start + (catalog[o.service].duration + catalog[o.service].buffer) * MINUTE < DAY
    ensures var o := w.txns[txn].order;
            var service := catalog[o.service];
            var after := Step(catalog, Step(catalog, w, LookAgain(txn, roster)), Insert(txn, id));
            && after.txns == w.txns - {txn}
            && (forall s :: s in after.holder <==> s in w.holder && w.holder[s] != txn)
            && if CanStillBook(service, roster, w.bookings, o) then
                 && id in after.bookings && after.bookings == w.bookings[id := after.bookings[id]]
                 && var b := after.bookings[id];
                    && b.service == o.service && b.day == o.day && b.start == o.start && b.status == o.status
                    && b.end == o.start + (service.duration + service.buffer) * MINUTE
                    && IsChosen(service, roster, w.bookings, o, b.staff)
               else after.bookings == w.bookings
  {
    var o := w.txns[txn].order;
    var service := catalog[o.service];
    assert RunsForward(service, roster, w.bookings, 0, o.day);
    if o.staff.Some? {
      FreeIsNotBooked(service, w.bookings, o.staff.value, o.day, o.start);
    }
    FoundIsFirstAvailable(service, roster, w.bookings, o.day, o.start, None, false);
    var staff := Chosen(service, w.bookings, roster, o);
    assert staff.Some? <==> CanStillBook(service, roster, w.bookings, o);
    assert staff.Some? ==> IsChosen(service, roster, w.bookings, o, staff);
    assert AddMinutes(o.start, service.Total()) == o.start + (service.duration + service.buffer) * MINUTE;
    LookAndInsert(catalog, w, txn, roster, id);
  }

  lemma LookAndInsert(catalog: Catalog, w: World, txn: TxnId, roster: Roster, id: BookingId)
    requires HasAllLocks(w, txn) && w.txns[txn].order.service in catalog && id !in w.bookings
    ensures var o := w.txns[txn].order;
            var service := catalog[o.service];
            var staff := Chosen(service, w.bookings, roster, o);
            var after := Step(catalog, Step(catalog, w, LookAgain(txn, roster)), Insert(txn, id));
            && after.txns == w.txns - {txn}
            && (forall s :: s in after.holder <==> s in w.holder && w.holder[s] != txn)
            && after.bookings == if staff.None? then w.bookings
                                 else w.bookings[id := Placed(service, o, staff.value)]
  {
    var looked := Step(catalog, w, LookAgain(txn, roster));
    assert looked.bookings == w.bookings;
  }

  // -------------------------------------------------------------------------
  // Moving and handing over
  // -------------------------------------------------------------------------

  /** Notice for the old time, a new time in the window, the whole roster unlocked, and somebody to serve. */
  ghost predicate MayMove(service: Service, roster: Roster, w: World, id: BookingId, reading: Booking, day: Day,
                          start: TimeOfDay, noticeHours: int, window: Window, now: Instant)
  {
    && reading.status in {Pending, Confirmed}
    && now + noticeHours * HOUR <= At(reading.day, reading.start)
    && IsInWindow(window, now, day, start)
    && (forall s <- service.staff :: s !in w.holder)
    && CanBeServed(service, roster, w.bookings, reading.staff, day, start, Some(id), true)
  }

  /** Only the booking `id` changes: it is `row` from then on. */
  predicate Writes(w: World, after: World, id: BookingId, row: Booking) {
    after == w.(bookings := w.bookings[id := row])
  }

  /** The booking at its new time, for the length of its service, with `staff`. */
  function AtTime(service: Service, b: Booking, staff: Option<StaffId>, day: Day, start: TimeOfDay): Booking
    requires 0 <= start + (service.duration + service.buffer) * MINUTE < DAY
  {
    Booking(b.service, staff, day, start, start + (service.duration + service.buffer) * MINUTE, b.status)
  }

  /**
  A customer's move of a booking read as `reading` is written exactly if it may be: with the staff member read or, where
  there was none, the first available, booking and locks otherwise untouched.
  */
  lemma CustomerMovesIff(catalog: Catalog, w: World, id: BookingId, reading: Booking, day: Day, start: TimeOfDay,
                         noticeHours: int, roster: Roster, window: Window, now: Instant)
    requires IsReading(catalog, w.bookings, id, reading)
    requires AllRunForward(catalog[reading.service], roster, w.bookings, day)
    ensures var service := catalog[reading.service];
            var move := MoveByCustomer(id, reading, day, start, noticeHours, roster, window, now);
            var after, row := Step(catalog, w, move),
                              MovedByCustomer(catalog, w, id, reading, day, start, noticeHours, roster, window, now);
            && (row.Some? <==> MayMove(service, roster, w, id, reading, day, start, noticeHours, window, now))
            && (row.None? ==> after == w)
            && (row.Some? ==>
                  && EndsByMidnight(service, start) && Writes(w, after, id, row.value)
                  && row.value == AtTime(service, w.bookings[id], row.value.staff, day, start)
                  && (if reading.staff.Some? then row.value.staff == reading.staff
                      else row.value.staff.Some? && IsFirstAvailable(service, roster, w.bookings, row.value.staff, day,
                                                                     start, Some(id), true)))
  {
    var service := catalog[reading.service];
    ValidationIsServing(service, roster, w.bookings, now, reading.staff, day, start, Some(id), true);
    FoundIsFirstAvailable(service, roster, w.bookings, day, start, Some(id), true);
    assert RunsForward(service, roster, w.bookings, 0, day);
  }

  predicate EndsByMidnight(service: Service, start: TimeOfDay) {
    0 <= start + (service.duration + service.buffer) * MINUTE < DAY
  }

  /** Staff's exactly if the booking is upcoming, its staff member unlocked and able to serve, who stays. */
  lemma StaffMovesIff(catalog: Catalog, w: World, id: BookingId, day: Day, start: TimeOfDay, roster: Roster,
                      now: Instant)
    requires id in w.bookings && w.bookings[id].service in catalog
    requires AllRunForward(catalog[w.bookings[id].service], roster, w.bookings, day)
    ensures var b := w.bookings[id];
            var service := catalog[b.service];
            var after := Step(catalog, w, MoveByStaff(id, day, start, roster, now));
            var row := MovedByStaff(catalog, w, id, day, start, roster, now);
            && (row.Some? <==>
                  && b.status in {Pending, Confirmed}
                  && now < At(day, start)
                  && (b.staff.Some? ==> b.staff.value !in w.holder)
                  && CanBeServed(service, roster, w.bookings, b.staff, day, start, Some(id), false))
            && (row.None? ==> after == w)
            && (row.Some? ==>
                  && EndsByMidnight(service, start) && Writes(w, after, id, row.value)
                  && row.value == AtTime(service, b, b.staff, day, start))
  {
    var b := w.bookings[id];
    ValidationIsServing(catalog[b.service], roster, w.bookings, now, b.staff, day, start, Some(id), false);
    assert RunsForward(catalog[b.service], roster, w.bookings, 0, day);
  }

  /** A booking is handed over exactly if it is upcoming and another's, who is active, unlocked and able to serve. */
  lemma AssignsIff(catalog: Catalog, w: World, id: BookingId, staff: StaffId, roster: Roster)
    requires id in w.bookings && w.bookings[id].service in catalog
    requires AllRunForward(catalog[w.bookings[id].service], roster, w.bookings, w.bookings[id].day)
    ensures var b := w.bookings[id];
            var service := catalog[b.service];
            var after := Step(catalog, w, AssignStaff(id, staff, roster));
            if && b.status in {Pending, Confirmed} && b.staff != Some(staff) && staff !in w.holder
               && IsAvailable(service, roster, w.bookings, staff, b.day, b.start, Some(id), false)
            then Writes(w, after, id, Booking(b.service, Some(staff), b.day, b.start, b.end, b.status))
            else after == w
  {
    var b := w.bookings[id];
    CheckIsServing(catalog[b.service], roster, w.bookings, staff, b.day, b.start, Some(id), false);
  }

  // -------------------------------------------------------------------------
  // Statuses
  // -------------------------------------------------------------------------

  /** What each action starts from. */
  const STARTS: map<Move, set<Status>> := map[
    Confirm := {Pending},
    CheckIn := {Pending, Confirmed},
    Complete := {Confirmed, InProgress},
    MarkNoShow := {Pending, Confirmed},
    Cancel := {Pending, Confirmed, InProgress}]

  /** What each action leaves. */
  const LEAVES: map<Move, Status> := map[
    Confirm := Confirmed, CheckIn := InProgress, Complete := Completed, MarkNoShow := NoShow, Cancel := Cancelled]

  /** An action changes the status, and nothing else, exactly where it starts from the present one. */
  lemma StatusChangesIff(catalog: Catalog, w: World, id: BookingId, move: Move)
    requires id in w.bookings
    ensures var b, after := w.bookings[id], Step(catalog, w, ChangeStatus(id, move));
            && move in STARTS && move in LEAVES
            && if b.status in STARTS[move] then Writes(w, after, id, b.(status := LEAVES[move])) else after == w
  {
    match move
    case Confirm =>
    case CheckIn =>
    case Complete =>
    case MarkNoShow =>
    case Cancel =>
  }
}
