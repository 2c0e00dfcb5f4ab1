/** The booking table with its staff locks, and the handlers that update it in place. */
module BookingDesks {
  import opened BookingStatus
  import opened Options
  import opened Clock
  import opened Staffing
  import opened BookingRun
  import opened BookingSafety

  /** The first active staff member who can take the slot, asked one after the other. */
  method FindFree(service: Service, roster: Roster, bookings: Bookings, day: Day, start: TimeOfDay,
                  exclude: Option<BookingId>, enforceGrid: bool) returns (found: Option<StaffId>)
    ensures found == FindAvailableStaff(service, service.staff, roster, bookings, day, start, exclude, enforceGrid)
  {
    var staff := service.staff;
    for k := 0 to |staff|
      invariant FindAvailableStaff(service, staff, roster, bookings, day, start, exclude, enforceGrid)
             == FindAvailableStaff(service, staff[k..], roster, bookings, day, start, exclude, enforceGrid)
    {
      assert staff[k..][1..] == staff[k + 1..];
      if staff[k] in roster.active {
        var outcome := CheckStaffSlot(service, roster, bookings, staff[k], day, start, exclude, enforceGrid);
        if outcome == Accepted {
          return Some(staff[k]);
        }
      }
    }
    return None;
  }

  /** Where a move leads; a status it does not start from stays. */
  method StatusAfter(status: Status, move: Move) returns (next: Status)
    ensures next == After(status, move).GetOr(status)
    ensures next != status ==> Stage(status) < Stage(next) && (IsActive(next) ==> IsActive(status))
  {
    next := status;
    match move {
      case Confirm => if status == Pending { next := Confirmed; }
      case CheckIn => if status == Pending || status == Confirmed { next := InProgress; }
      case Complete => if status == Confirmed || status == InProgress { next := Completed; }
      case MarkNoShow => if status == Pending || status == Confirmed { next := NoShow; }
      case Cancel => if status != Completed && status != Cancelled && status != NoShow { next := Cancelled; }
    }
  }

  class BookingDesk {
    const catalog: Catalog
    var bookings: Bookings
    var holder: map<StaffId, TxnId>
    var txns: map<TxnId, Txn>
    ghost var history: seq<Event>

    ghost function View(): World
      reads this
    {
      World(bookings, holder, txns)
    }

    /** The desk is in the state its history leads to, so everything proved about runs holds of it. */
    ghost predicate Valid()
      reads this
      ensures Valid() ==> NoClash(bookings)
    {
      InIdOrder(catalog) && (RunIsSound(catalog, EMPTY, history); View() == Run(catalog, EMPTY, history))
    }

    constructor (catalog: Catalog)
      requires InIdOrder(catalog)
      ensures this.catalog == catalog && View() == EMPTY && history == [] && Valid()
    {
      this.catalog := catalog;
      bookings, holder, txns, history := map[], map[], map[], [];
    }

    lemma ServiceIsKnown(id: BookingId)
      requires Valid()
      ensures id in bookings ==> bookings[id].service in catalog
    {
      RunIsSound(catalog, EMPTY, history);
      assert id in bookings ==> IsTidy(catalog, bookings[id]);
    }

    lemma OrderIsKnown(txn: TxnId)
      requires Valid() && txn in txns
      ensures txns[txn].order.service in catalog
    {
      RunIsSound(catalog, EMPTY, history);
      assert IsSoundOrder(catalog, txns[txn].order);
    }

    /** The event is written down, together with what it does to the rows. */
    ghost method Record(e: Event)
      modifies this`history
      ensures history == old(history) + [e]
      ensures Run(catalog, EMPTY, history) == Step(catalog, Run(catalog, EMPTY, old(history)), e)
    {
      assert (history + [e])[..|history|] == history;
      history := history + [e];
    }

    /** A request is validated on what was read so far, and a transaction opened for it. */
    method Begin(txn: TxnId, request: Request, seen: Bookings, seenNext: Bookings, roster: Roster, window: Window,
                 now: Instant) returns (accepted: bool)
      requires Valid()
      modifies this`txns, this`history
      ensures Valid() && history == old(history) + [BookingRun.Begin(txn, request, seen, seenNext, roster, window, now)]
      ensures View() == Step(catalog, old(View()), BookingRun.Begin(txn, request, seen, seenNext, roster, window, now))
      ensures accepted <==> txn !in old(txns) && Validated(catalog, seen, seenNext, roster, window, now, request).Some?
    {
      Record(BookingRun.Begin(txn, request, seen, seenNext, roster, window, now));
      accepted := false;
      if txn in txns || request.service !in catalog {
        return;
      }
      var service := catalog[request.service];
      match request {
        case ByCustomer(id, wanted, day, start) =>
          if wanted.Some? && !StaffCanPerform(service, roster, wanted.value) {
            return;
          }
          if CheckBookingWindow(window, now, day, start) != Accepted {
            return;
          }
          if ValidateBookingAvailability(service, roster, seen, now, wanted, day, start, None, true) != Accepted {
            return;
          }
          var staff := wanted;
          if wanted.None? {
            staff := FindFree(service, roster, seenNext, day, start, None, true);
          }
          txns := txns[txn := Txn(Order(id, staff, wanted.None?, service.staff, day, start, Pending), Locking(0))];
        case ByDesk(id, staff, day, start, confirmed) =>
          if !StaffCanPerform(service, roster, staff) {
            return;
          }
          if CheckStaffSlot(service, roster, seen, staff, day, start, None, false) != Accepted {
            return;
          }
          var status := if confirmed then Confirmed else Pending;
          txns := txns[txn := Txn(Order(id, Some(staff), false, [staff], day, start, status), Locking(0))];
      }
      accepted := true;
    }

    /** The next staff member's row is locked, unless another transaction has it: then this one waits. */
    method TakeLock(txn: TxnId)
      requires Valid()
      requires txn in txns && txns[txn].phase.Locking? && txns[txn].phase.taken < |txns[txn].order.locks|
      modifies this`holder, this`txns, this`history
      ensures Valid() && history == old(history) + [BookingRun.TakeLock(txn)]
      ensures View() == Step(catalog, old(View()), BookingRun.TakeLock(txn))
    {
      Record(BookingRun.TakeLock(txn));
      if txns[txn].order.locks[txns[txn].phase.taken] !in holder {
        GiveLock(txn);
      }
    }

    method GiveLock(txn: TxnId)
      requires CanTakeLock(View(), txn)
      modifies this`holder, this`txns
      ensures View() == AfterTakeLock(old(View()), txn)
    {
      var t := txns[txn];
      holder := holder[t.order.locks[t.phase.taken] := txn];
      txns := txns[txn := t.(phase := Locking(t.phase.taken + 1))];
    }

    method Release(txn: TxnId)
      modifies this`holder, this`txns
      ensures View() == Released(old(View()), txn)
    {
      holder := map s | s in holder && holder[s] != txn :: holder[s];
      txns := txns - {txn};
    }

    /** Under the locks the slot is looked at again; if it is gone, someone else is found or the request fails. */
    method LookAgain(txn: TxnId, roster: Roster) returns (failed: bool)
      requires Valid()
      requires HasAllLocks(View(), txn)
      modifies this`holder, this`txns, this`history
      ensures Valid() && history == old(history) + [BookingRun.LookAgain(txn, roster)]
      ensures View() == Step(catalog, old(View()), BookingRun.LookAgain(txn, roster))
      ensures failed <==> txn !in txns
    {
      OrderIsKnown(txn);
      Record(BookingRun.LookAgain(txn, roster));
      var t := txns[txn];
      var o := t.order;
      var service := catalog[o.service];
      var staff := o.staff;
      if staff.None? || IsSlotBooked(bookings, staff.value, o.day, o.start, service.Total(), None) {
        staff := None;
        if o.auto {
          staff := FindFree(service, roster, bookings, o.day, o.start, None, false);
        }
      }
      failed := staff.None?;
      if failed {
        Release(txn);
      } else {
        txns := txns[txn := t.(phase := Ready(staff.value))];
      }
    }

    method Insert(txn: TxnId, id: BookingId)
      requires Valid()
      requires IsReady(View(), txn) && id !in bookings
      modifies this
      ensures Valid() && history == old(history) + [BookingRun.Insert(txn, id)]
      ensures View() == Step(catalog, old(View()), BookingRun.Insert(txn, id))
    {
      OrderIsKnown(txn);
      Record(BookingRun.Insert(txn, id));
      var o, staff := txns[txn].order, txns[txn].phase.staff;
      var end := AddMinutes(o.start, catalog[o.service].Total());
      bookings := bookings[id := Booking(o.service, Some(staff), o.day, o.start, end, o.status)];
      Release(txn);
    }

    predicate HasItsLength(b: Booking) {
      b.service in catalog && b.end == AddMinutes(b.start, catalog[b.service].Total())
    }

    /** Same booking at another time, for the length of its service, ending the same day. */
    predicate IsMoved(id: BookingId, b: Booking, day: Day, start: TimeOfDay)
      reads this
    {
      && id in bookings && b.service == bookings[id].service && b.status == bookings[id].status
      && b.day == day && b.start == start && HasItsLength(b) && EndsToday(catalog[b.service], start)
    }

    /**
    What a customer's move writes, if anything: the row was read, as `reading`, before the roster's locks are free.
    */
    method CheckMoveByCustomer(id: BookingId, reading: Booking, day: Day, start: TimeOfDay, noticeHours: int,
                               roster: Roster, window: Window, now: Instant) returns (after: Option<Booking>)
      requires IsReading(catalog, bookings, id, reading)
      ensures after == MovedByCustomer(catalog, View(), id, reading, day, start, noticeHours, roster, window, now)
      ensures after.Some? ==> IsFree(bookings, id, after.value) && IsMoved(id, after.value, day, start)
    {
      var service := catalog[reading.service];
      if reading.status != Pending && reading.status != Confirmed {
        return None;
      }
      if At(reading.day, reading.start) - now < noticeHours * HOUR {
        return None;
      }
      if CheckBookingWindow(window, now, day, start) != Accepted {
        return None;
      }
      if exists k :: 0 <= k < |service.staff| && service.staff[k] in holder {
        return None;
      }
      var staff := reading.staff;
      if ValidateBookingAvailability(service, roster, bookings, now, staff, day, start, Some(id), true) != Accepted {
        return None;
      }
      if staff.None? {
        staff := FindFree(service, roster, bookings, day, start, Some(id), true);
      }
      var end := AddMinutes(start, service.Total());
      after := Some(bookings[id].(staff := staff, day := day, start := start, end := end));
      AcceptedEndsToday(service, roster, bookings, staff.value, day, start, Some(id), true);
      NotBookedIsFree(bookings, id, after.value, service.Total(), Some(id));
    }

    method MoveByCustomer(id: BookingId, reading: Booking, day: Day, start: TimeOfDay, noticeHours: int, roster: Roster,
                          window: Window, now: Instant)
      requires Valid() && IsReading(catalog, bookings, id, reading)
      modifies this`bookings, this`history
      ensures Valid()
      ensures history ==
              old(history) + [BookingRun.MoveByCustomer(id, reading, day, start, noticeHours, roster, window, now)]
      ensures View() == Step(catalog, old(View()),
                             BookingRun.MoveByCustomer(id, reading, day, start, noticeHours, roster, window, now))
    {
      Record(BookingRun.MoveByCustomer(id, reading, day, start, noticeHours, roster, window, now));
      var after := CheckMoveByCustomer(id, reading, day, start, noticeHours, roster, window, now);
      Write(id, after);
    }

    /** What staff's move writes, if anything; the staff member stays, and may be nobody. */
    method CheckMoveByStaff(id: BookingId, day: Day, start: TimeOfDay, roster: Roster, now: Instant)
      returns (after: Option<Booking>)
      requires id in bookings ==> bookings[id].service in catalog
      ensures after == MovedByStaff(catalog, View(), id, day, start, roster, now)
      ensures after.Some? ==> IsFree(bookings, id, after.value) && IsMoved(id, after.value, day, start)
      ensures after.Some? ==> after.value.staff == bookings[id].staff
    {
      if id !in bookings {
        return None;
      }
      var b := bookings[id];
      var service := catalog[b.service];
      if (b.status != Pending && b.status != Confirmed) || (b.staff.Some? && b.staff.value in holder) {
        return None;
      }
      if ValidateBookingAvailability(service, roster, bookings, now, b.staff, day, start, Some(id), false) != Accepted {
        return None;
      }
      after := Some(b.(day := day, start := start, end := AddMinutes(start, service.Total())));
      ghost var found := FindAvailableStaff(service, service.staff, roster, bookings, day, start, Some(id), false);
      ghost var staff := if b.staff.Some? then b.staff.value else found.value;
      AcceptedEndsToday(service, roster, bookings, staff, day, start, Some(id), false);
      NotBookedIsFree(bookings, id, after.value, service.Total(), Some(id));
    }

    method MoveByStaff(id: BookingId, day: Day, start: TimeOfDay, roster: Roster, now: Instant)
      requires Valid()
      modifies this`bookings, this`history
      ensures Valid() && history == old(history) + [BookingRun.MoveByStaff(id, day, start, roster, now)]
      ensures View() == Step(catalog, old(View()), BookingRun.MoveByStaff(id, day, start, roster, now))
    {
      ServiceIsKnown(id);
      Record(BookingRun.MoveByStaff(id, day, start, roster, now));
      var after := CheckMoveByStaff(id, day, start, roster, now);
      Write(id, after);
    }

    /** What handing a booking to a colleague writes, if the colleague provides the service and is free then. */
    method CheckAssignment(id: BookingId, staff: StaffId, roster: Roster) returns (after: Option<Booking>)
      requires id in bookings ==> bookings[id].service in catalog
      ensures after == Assigned(catalog, View(), id, staff, roster)
      ensures after.Some? ==> id in bookings && after.value.(staff := bookings[id].staff) == bookings[id]
      ensures after.Some? && HasItsLength(bookings[id]) ==> IsFree(bookings, id, after.value)
    {
      if id !in bookings {
        return None;
      }
      var b := bookings[id];
      var service := catalog[b.service];
      if (b.status != Pending && b.status != Confirmed) || b.staff == Some(staff) {
        return None;
      }
      if staff !in roster.active || staff !in service.staff || staff in holder {
        return None;
      }
      if CheckStaffSlot(service, roster, bookings, staff, b.day, b.start, Some(id), false) != Accepted {
        return None;
      }
      after := Some(b.(staff := Some(staff)));
      if b.end == AddMinutes(b.start, service.Total()) {
        NotBookedIsFree(bookings, id, after.value, service.Total(), Some(id));
      }
    }

    method AssignStaff(id: BookingId, staff: StaffId, roster: Roster)
      requires Valid()
      modifies this`bookings, this`history
      ensures Valid() && history == old(history) + [BookingRun.AssignStaff(id, staff, roster)]
      ensures View() == Step(catalog, old(View()), BookingRun.AssignStaff(id, staff, roster))
    {
      ServiceIsKnown(id);
      Record(BookingRun.AssignStaff(id, staff, roster));
      var after := CheckAssignment(id, staff, roster);
      Write(id, after);
    }

    method Write(id: BookingId, after: Option<Booking>)
      modifies this`bookings
      ensures View() == Put(old(View()), id, after)
    {
      if after.Some? {
        bookings := bookings[id := after.value];
      }
    }

    method CheckStatus(id: BookingId, move: Move) returns (after: Option<Booking>)
      ensures after == WithStatus(View(), id, move)
    {
      if id !in bookings {
        return None;
      }
      var b := bookings[id];
      var next := StatusAfter(b.status, move);
      after := if next == b.status then None else Some(b.(status := next));
    }

    /** Confirm, check in, complete, no-show and cancel, by whomever. */
    method ChangeStatus(id: BookingId, move: Move)
      requires Valid()
      modifies this`bookings, this`history
      ensures Valid() && history == old(history) + [BookingRun.ChangeStatus(id, move)]
      ensures View() == Step(catalog, old(View()), BookingRun.ChangeStatus(id, move))
    {
      Record(BookingRun.ChangeStatus(id, move));
      var after := CheckStatus(id, move);
      Write(id, after);
    }

    method Delete(id: BookingId)
      requires Valid()
      modifies this`bookings, this`history
      ensures Valid() && history == old(history) + [BookingRun.Delete(id)]
      ensures View() == Step(catalog, old(View()), BookingRun.Delete(id))
    {
      Record(BookingRun.Delete(id));
      bookings := bookings - {id};
    }
  }
}
