/**
What keeping bookings apart rests on. A write that skips the check is safe exactly when the check
would have passed; for each handler that relies on this, a state in which it does not.
*/
module BookingAssumptions {
  import opened BookingStatus
  import opened Options
  import opened Clock
  import opened Staffing
  import opened BookingRun
  import opened BookingSafety
  import Ledger

  /** Among bookings kept apart, storing one leaves them apart exactly when nothing is in its way. */
  lemma WriteIsSafeIff(bookings: Bookings, id: BookingId, b: Booking)
    requires NoClash(bookings)
    ensures NoClash(bookings[id := b]) <==> IsFree(bookings, id, b)
  {
    var after := bookings[id := b];
    if IsFree(bookings, id, b) {
      StoringAFreeBooking(bookings, id, b);
    }
    if NoClash(after) {
      forall j | j in bookings && j != id ensures !Clash(b, bookings[j]) {
        assert !Clash(after[id], after[j]);
      }
    }
  }

  /** The nightly series: a confirmed booking without its buffer, stored without asking. */
  lemma SeriesBookingIsSafeIff(bookings: Bookings, id: BookingId, b: Booking, service: Service)
    requires NoClash(bookings) && id !in bookings
    requires b.status == Confirmed && b.end == AddMinutes(b.start, service.duration)
    ensures NoClash(bookings[id := b]) <==>
              b.staff.None? || !IsSlotBooked(bookings, b.staff.value, b.day, b.start, service.duration, None)
  {
    WriteIsSafeIff(bookings, id, b);
    if b.staff.Some? && IsSlotBooked(bookings, b.staff.value, b.day, b.start, service.duration, None) {
      var end := AddMinutes(b.start, service.duration);
      var j :| j in bookings && Overlaps(bookings[j], b.staff.value, b.day, b.start, end);
      assert Clash(b, bookings[j]);
    }
  }

  /**
  A status written on a row read earlier, as by confirm, check-in and the rest: safe exactly if it takes no time, or
  the row is still active, has nobody, or its time is still free.
  */
  lemma LateStatusIsSafeIff(bookings: Bookings, id: BookingId, status: Status)
    requires NoClash(bookings) && id in bookings
    ensures var b := bookings[id];
            NoClash(bookings[id := b.(status := status)]) <==>
              || !IsActive(status) || IsActive(b.status) || b.staff.None?
              || forall j :: j in bookings && j != id ==> !Overlaps(bookings[j], b.staff.value, b.day, b.start, b.end)
  {
    var b := bookings[id];
    var after := b.(status := status);
    WriteIsSafeIff(bookings, id, after);
    if IsActive(b.status) {
      forall j | j in bookings && j != id ensures !Clash(after, bookings[j]) {
        assert !Clash(b, bookings[j]);
      }
    } else if IsActive(status) && b.staff.Some? && IsFree(bookings, id, after) {
      forall j | j in bookings && j != id ensures !Overlaps(bookings[j], b.staff.value, b.day, b.start, b.end) {
        assert !Clash(after, bookings[j]);
      }
    }
  }

  /** A reassignment tests the service's length of today, and is safe exactly if nothing is in the stored time. */
  lemma ReassignmentIsSafeIff(catalog: Catalog, w: World, id: BookingId, staff: StaffId, roster: Roster)
    requires NoClash(w.bookings) && Assigned(catalog, w, id, staff, roster).Some?
    ensures var b := w.bookings[id];
            NoClash(Step(catalog, w, AssignStaff(id, staff, roster)).bookings) <==>
              forall j :: j in w.bookings && j != id ==> !Overlaps(w.bookings[j], staff, b.day, b.start, b.end)
  {
    var b := w.bookings[id];
    var after := b.(staff := Some(staff));
    WriteIsSafeIff(w.bookings, id, after);
    if IsFree(w.bookings, id, after) {
      forall j | j in w.bookings && j != id ensures !Overlaps(w.bookings[j], staff, b.day, b.start, b.end) {
        assert !Clash(after, w.bookings[j]);
      }
    }
  }

  /** With any catalogue the reassignment is safe, on every table on which it passes. */
  ghost predicate ReassignsSafely(catalog: Catalog, id: BookingId, b: Booking, staff: StaffId, roster: Roster) {
    forall w: World ::
      && NoClash(w.bookings) && id in w.bookings && w.bookings[id] == b
      && Assigned(catalog, w, id, staff, roster).Some? ==>
        NoClash(Step(catalog, w, AssignStaff(id, staff, roster)).bookings)
  }

  function Alone(id: BookingId, b: Booking): World {
    World(map[id := b], map[], map[])
  }

  /**
  What decides is the service's length: a reassignment that passes on a table without other bookings is safe
  on every table exactly if the booking does not end after the time that is tested.
  */
  lemma ReassignmentIsSafeIffLongEnough(catalog: Catalog, id: BookingId, b: Booking, staff: StaffId, roster: Roster)
    requires Assigned(catalog, Alone(id, b), id, staff, roster).Some?
    ensures ReassignsSafely(catalog, id, b, staff, roster) <==>
              b.end <= AddMinutes(b.start, catalog[b.service].Total())
  {
    var tested := AddMinutes(b.start, catalog[b.service].Total());
    if b.end <= tested {
      forall w: World | NoClash(w.bookings) && id in w.bookings && w.bookings[id] == b
                        && Assigned(catalog, w, id, staff, roster).Some?
        ensures NoClash(Step(catalog, w, AssignStaff(id, staff, roster)).bookings)
      {
        ReassignmentIsSafeIff(catalog, w, id, staff, roster);
        forall j | j in w.bookings && j != id ensures !Overlaps(w.bookings[j], staff, b.day, b.start, b.end) {
          assert !Overlaps(w.bookings[j], staff, b.day, b.start, tested);
        }
      }
    } else {
      UntestedEndIsTaken(catalog, id, b, staff, roster);
    }
  }

  /**
  A booking of the new staff member in the untested part: the check does not see it, and the write clashes with it.
  */
  lemma UntestedEndIsTaken(catalog: Catalog, id: BookingId, b: Booking, staff: StaffId, roster: Roster)
    requires Assigned(catalog, Alone(id, b), id, staff, roster).Some?
    requires b.end > AddMinutes(b.start, catalog[b.service].Total())
    ensures !ReassignsSafely(catalog, id, b, staff, roster)
  {
    var tested := AddMinutes(b.start, catalog[b.service].Total());
    AcceptedStartsBeforeTheEnd(catalog[b.service], roster, map[id := b], staff, b.day, b.start, Some(id), false);
    var end: TimeOfDay := if b.end > b.start then b.end else b.start + 1;
    var other := Booking(b.service, Some(staff), b.day, tested, end, Confirmed);
    var w := World(map[id := b, id + 1 := other], map[], map[]);
    assert !Overlaps(other, staff, b.day, b.start, tested);
    assert Assigned(catalog, w, id, staff, roster) == Some(b.(staff := Some(staff)));
    var after := Step(catalog, w, AssignStaff(id, staff, roster)).bookings;
    assert Clash(after[id], after[id + 1]);
    assert NoClash(w.bookings);
  }

  lemma AcceptedStartsBeforeTheEnd(service: Service, roster: Roster, bookings: Bookings, staff: StaffId, day: Day,
                                   start: TimeOfDay, exclude: Option<BookingId>, enforceGrid: bool)
    requires CheckStaffSlot(service, roster, bookings, staff, day, start, exclude, enforceGrid) == Accepted
    ensures start + 1 < DAY
  {
  }

  // -------------------------------------------------------------------------
  // Handlers that read the row before they lock
  // -------------------------------------------------------------------------

  /** The row as staff's move writes it: day and times, whoever it belongs to by now. */
  function WrittenByMove(b: Booking, day: Day, start: TimeOfDay, total: int): Booking {
    b.(day := day, start := start, end := AddMinutes(start, total))
  }

  /**
  Staff's move checks the staff member it read. Written on the row as it is by now, it is safe exactly if the row
  is no longer active, has nobody, still has that staff member, or the new one is free as well.
  */
  lemma LateMoveIsSafeIff(bookings: Bookings, id: BookingId, read: Option<StaffId>, day: Day, start: TimeOfDay,
                          total: int)
    requires NoClash(bookings) && id in bookings
    requires read.Some? ==> !IsSlotBooked(bookings, read.value, day, start, total, Some(id))
    ensures var b := bookings[id];
            NoClash(bookings[id := WrittenByMove(b, day, start, total)]) <==>
              || !IsActive(b.status) || b.staff.None? || b.staff == read
              || !IsSlotBooked(bookings, b.staff.value, day, start, total, Some(id))
  {
    var b := bookings[id];
    CheckedWriteIsSafeIff(bookings, id, WrittenByMove(b, day, start, total), total);
  }

  /**
  A reassignment checks the day and time it read. Safe exactly if the row has not been moved, or is free there too.
  */
  lemma LateReassignmentIsSafeIff(bookings: Bookings, id: BookingId, staff: StaffId, day: Day, start: TimeOfDay,
                                  total: int)
    requires NoClash(bookings) && id in bookings && bookings[id].end == AddMinutes(bookings[id].start, total)
    requires !IsSlotBooked(bookings, staff, day, start, total, Some(id))
    ensures var b := bookings[id];
            NoClash(bookings[id := b.(staff := Some(staff))]) <==>
              || !IsActive(b.status) || (b.day == day && b.start == start)
              || !IsSlotBooked(bookings, staff, b.day, b.start, total, Some(id))
  {
    CheckedWriteIsSafeIff(bookings, id, bookings[id].(staff := Some(staff)), total);
  }

  /**
  An edit of notes or price saves all of the row as it was read. Safe exactly if that row was not active, had nobody,
  or its time is free now.
  */
  lemma LateEditIsSafeIff(bookings: Bookings, id: BookingId, read: Booking, total: int)
    requires NoClash(bookings) && id in bookings && read.end == AddMinutes(read.start, total)
    ensures NoClash(bookings[id := read]) <==>
              || !IsActive(read.status) || read.staff.None?
              || !IsSlotBooked(bookings, read.staff.value, read.day, read.start, total, Some(id))
  {
    CheckedWriteIsSafeIff(bookings, id, read, total);
  }

  /**
  An insertion without the staff member's lock, as when the roster changed after validation: what was found free
  need not be so any more, and it is safe exactly if it still is.
  */
  lemma UnlockedInsertIsSafeIff(catalog: Catalog, w: World, txn: TxnId, id: BookingId)
    requires NoClash(w.bookings) && IsReady(w, txn) && w.txns[txn].order.service in catalog && id !in w.bookings
    ensures var o := w.txns[txn].order;
            NoClash(Step(catalog, w, Insert(txn, id)).bookings) <==>
              || !IsActive(o.status)
              || !IsSlotBooked(w.bookings, w.txns[txn].phase.staff, o.day, o.start, catalog[o.service].Total(), None)
  {
    var o := w.txns[txn].order;
    var total := catalog[o.service].Total();
    CheckedWriteIsSafeIff(w.bookings, id, Placed(catalog[o.service], o, w.txns[txn].phase.staff), total);
    assert IsSlotBooked(w.bookings, w.txns[txn].phase.staff, o.day, o.start, total, Some(id))
        <==> IsSlotBooked(w.bookings, w.txns[txn].phase.staff, o.day, o.start, total, None);
  }

  /** Any write of the service's length is safe exactly if it takes no time or the query finds its slot free. */
  lemma CheckedWriteIsSafeIff(bookings: Bookings, id: BookingId, b: Booking, total: int)
    requires NoClash(bookings) && b.end == AddMinutes(b.start, total)
    ensures NoClash(bookings[id := b]) <==>
              || !IsActive(b.status) || b.staff.None?
              || !IsSlotBooked(bookings, b.staff.value, b.day, b.start, total, Some(id))
  {
    WriteIsSafeIff(bookings, id, b);
    if IsActive(b.status) && b.staff.Some? && IsFree(bookings, id, b) {
      forall j | j in bookings && j != id ensures !Overlaps(bookings[j], b.staff.value, b.day, b.start, b.end) {
        assert !Clash(b, bookings[j]);
      }
    }
  }

  // -------------------------------------------------------------------------
  // States in which the unchecked write double-books
  // -------------------------------------------------------------------------

  /** Two staff members, at work every Monday from 9:00 to 17:00, and one service of `minutes`. */
  function Catalogue(minutes: int): Catalog {
    map[1 := Service(minutes, 0, DurationBased, [1, 2])]
  }

  function AtWork(): Roster {
    var day := Weekly(Hours(9 * HOUR, 17 * HOUR, None, None), true);
    Roster(map[(1, 0) := day, (2, 0) := day], [], {1, 2})
  }

  /** An hour on Monday, from the given minute. */
  function AnHour(staff: StaffId, minute: MinuteOfDay, status: Status): Booking {
    Booking(1, Some(staff), 1, MinutesToTime(minute), AddMinutes(MinutesToTime(minute), 60), status)
  }

  function Holding(first: Booking, second: Booking): World {
    World(map[1 := first, 2 := second], map[], map[])
  }

  lemma EveryoneIsAtWork(staff: StaffId)
    requires staff == 1 || staff == 2
    ensures Availability(AtWork(), staff, 1) == Some(Hours(9 * HOUR, 17 * HOUR, None, None))
  {
    assert Weekday(1) == 0;
  }

  /** Handing the 10:00 booking to staff member 2 passes when that one is busy from `busy` on. */
  lemma HandedOver(minutes: int, busy: MinuteOfDay)
    requires 0 < minutes <= 60 && 600 + minutes <= busy <= 1000
    ensures var w := Holding(AnHour(1, 600, Confirmed), AnHour(2, busy, Confirmed));
            Assigned(Catalogue(minutes), w, 1, 2, AtWork()) == Some(AnHour(2, 600, Confirmed))
  {
    EveryoneIsAtWork(2);
  }

  /** Moving it to noon passes for staff member 1, who has nothing else. */
  lemma MovedToNoon()
    ensures var w := Holding(AnHour(1, 600, Confirmed), AnHour(2, 720, Confirmed));
            MovedByStaff(Catalogue(60), w, 1, 1, MinutesToTime(720), AtWork(), 0) == Some(AnHour(1, 720, Confirmed))
  {
    EveryoneIsAtWork(1);
  }

  lemma HoldingIsSound(first: Booking, second: Booking)
    requires IsTidy(Catalogue(60), first) && IsTidy(Catalogue(60), second) && !Clash(first, second)
    ensures Sound(Catalogue(60), Holding(first, second))
  {
    ClashIsMutual(first, second);
  }

  /** The service becomes half an hour; moving the 10:00 booking next to one at 10:30 passes, and double-books. */
  lemma ShorterServiceDoubleBooks()
    ensures var w := Holding(AnHour(1, 600, Confirmed), AnHour(2, 630, Confirmed));
            && Sound(Catalogue(60), w)
            && !NoClash(Step(Catalogue(30), w, AssignStaff(1, 2, AtWork())).bookings)
  {
    var first, second := AnHour(1, 600, Confirmed), AnHour(2, 630, Confirmed);
    var w := Holding(first, second);
    HoldingIsSound(first, second);
    HandedOver(30, 630);
    var after := Step(Catalogue(30), w, AssignStaff(1, 2, AtWork())).bookings;
    assert Clash(after[1], after[2]);
  }

  /** The series stores its confirmed hour over one that is already there. */
  lemma SeriesDoubleBooks()
    ensures var taken: Bookings := map[1 := AnHour(1, 600, Confirmed)];
            NoClash(taken) && !NoClash(taken[2 := AnHour(1, 600, Confirmed)])
  {
    var after: Bookings := map[1 := AnHour(1, 600, Confirmed)][2 := AnHour(1, 600, Confirmed)];
    assert Clash(after[1], after[2]);
  }

  /** Cancelled and given away after staff opened it: confirming it then double-books. */
  lemma LateConfirmationDoubleBooks()
    ensures var w := Holding(AnHour(1, 600, Cancelled), AnHour(1, 600, Confirmed));
            && Sound(Catalogue(60), w)
            && !NoClash(w.bookings[1 := w.bookings[1].(status := Confirmed)])
  {
    var first, second := AnHour(1, 600, Cancelled), AnHour(1, 600, Confirmed);
    HoldingIsSound(first, second);
    var after := Holding(first, second).bookings[1 := first.(status := Confirmed)];
    assert Clash(after[1], after[2]);
  }

  /** Staff's move checked the staff member it read; reassigned meanwhile, the booking lands on the other's time. */
  lemma MoveOfAReassignedBookingDoubleBooks()
    ensures var read := Holding(AnHour(1, 600, Confirmed), AnHour(2, 720, Confirmed));
            var now := Step(Catalogue(60), read, AssignStaff(1, 2, AtWork()));
            var moved := MovedByStaff(Catalogue(60), read, 1, 1, MinutesToTime(720), AtWork(), 0);
            && Sound(Catalogue(60), read) && moved.Some? && 1 in now.bookings
            && var written := now.bookings[1].(day := moved.value.day, start := moved.value.start,
                                               end := moved.value.end);
               !NoClash(now.bookings[1 := written])
  {
    var first, second := AnHour(1, 600, Confirmed), AnHour(2, 720, Confirmed);
    var read := Holding(first, second);
    HoldingIsSound(first, second);
    HandedOver(60, 720);
    MovedToNoon();
    var now := Step(Catalogue(60), read, AssignStaff(1, 2, AtWork()));
    var after := now.bookings[1 := AnHour(2, 720, Confirmed)];
    assert now.bookings[1] == first.(staff := Some(2));
    assert Clash(after[1], after[2]);
  }

  /** Reassignment checked the time it read; moved to noon meanwhile, the booking lands on the new colleague's noon. */
  lemma ReassignmentOfAMovedBookingDoubleBooks()
    ensures var read := Holding(AnHour(1, 600, Confirmed), AnHour(2, 720, Confirmed));
            var now := Step(Catalogue(60), read, MoveByStaff(1, 1, MinutesToTime(720), AtWork(), 0));
            && Sound(Catalogue(60), read) && Assigned(Catalogue(60), read, 1, 2, AtWork()).Some? && 1 in now.bookings
            && !NoClash(now.bookings[1 := now.bookings[1].(staff := Some(2))])
  {
    var first, second := AnHour(1, 600, Confirmed), AnHour(2, 720, Confirmed);
    var read := Holding(first, second);
    HoldingIsSound(first, second);
    HandedOver(60, 720);
    MovedToNoon();
    var now := Step(Catalogue(60), read, MoveByStaff(1, 1, MinutesToTime(720), AtWork(), 0));
    var after := now.bookings[1 := AnHour(2, 720, Confirmed)];
    assert now.bookings[1] == AnHour(1, 720, Confirmed);
    assert Clash(after[1], after[2]);
  }

  /** Moved to noon while its row was open for editing, and its old time given away: the edit brings it back there. */
  lemma LateEditDoubleBooks()
    ensures var read, now := AnHour(1, 600, Confirmed), Holding(AnHour(1, 720, Confirmed), AnHour(1, 600, Confirmed));
            Sound(Catalogue(60), now) && !NoClash(now.bookings[1 := read])
  {
    var first, second := AnHour(1, 720, Confirmed), AnHour(1, 600, Confirmed);
    HoldingIsSound(first, second);
    var after := Holding(first, second).bookings[1 := AnHour(1, 600, Confirmed)];
    assert Clash(after[1], after[2]);
  }

  /**
  Two creations for staff member 1: the customer's locks what is left of the roster, the front desk's the staff row.
  */
  function AtOnce(): World {
    var byCustomer := Order(1, Some(1), false, [2], 1, MinutesToTime(600), Pending);
    var byDesk := Order(1, Some(1), false, [1], 1, MinutesToTime(600), Confirmed);
    World(map[], map[2 := 1, 1 := 2], map[1 := Txn(byCustomer, Locking(1)), 2 := Txn(byDesk, Locking(1))])
  }

  function Shrunk(): Catalog {
    map[1 := Service(60, 0, DurationBased, [2])]
  }

  lemma ValidatedForOne()
    ensures Validated(Catalogue(60), map[], map[], AtWork(), Window(2, 60), 0,
                      ByCustomer(1, Some(1), 1, MinutesToTime(600)))
         == Some(Order(1, Some(1), false, [1, 2], 1, MinutesToTime(600), Pending))
  {
    EveryoneIsAtWork(1);
  }

  lemma LocksOfBoth()
    ensures LocksAgree(AtOnce())
  {
    var w := AtOnce();
    assert w.txns[1].order.locks[0] == 2 && w.txns[2].order.locks[0] == 1;
    assert w.txns[1].Held() == {2} && w.txns[2].Held() == {1};
  }

  function Looked(): World {
    var w := AtOnce();
    w.(txns := map[1 := w.txns[1].(phase := Ready(1)), 2 := w.txns[2].(phase := Ready(1))])
  }

  lemma FirstLooks()
    ensures Step(Shrunk(), AtOnce(), LookAgain(1, AtWork()))
         == AtOnce().(txns := AtOnce().txns[1 := AtOnce().txns[1].(phase := Ready(1))])
  {
  }

  lemma BothLook()
    ensures Step(Shrunk(), Step(Shrunk(), AtOnce(), LookAgain(1, AtWork())), LookAgain(2, AtWork())) == Looked()
  {
    FirstLooks();
    var once := AtOnce().(txns := AtOnce().txns[1 := AtOnce().txns[1].(phase := Ready(1))]);
    assert Step(Shrunk(), once, LookAgain(2, AtWork())).txns == Looked().txns;
  }

  lemma BothInsert()
    ensures Step(Shrunk(), Step(Shrunk(), Looked(), Insert(1, 10)), Insert(2, 11)).bookings
         == map[10 := AnHour(1, 600, Pending), 11 := AnHour(1, 600, Confirmed)]
  {
    var once := Step(Shrunk(), Looked(), Insert(1, 10));
    assert once.bookings == map[10 := AnHour(1, 600, Pending)];
    assert 2 in once.txns && once.txns[2] == Looked().txns[2];
  }

  /**
  Staff member 1 is taken off the service between a customer's validation and its locks: the order is the one
  validated before, its locks are the roster of after, and both creations look and then insert.
  */
  lemma ShrunkRosterDoubleBooks()
    ensures var validated := Validated(Catalogue(60), map[], map[], AtWork(), Window(2, 60), 0,
                                       ByCustomer(1, Some(1), 1, MinutesToTime(600)));
            && validated.Some? && AtOnce().txns[1].order == validated.value.(locks := Shrunk()[1].staff)
    ensures var looked := Step(Shrunk(), Step(Shrunk(), AtOnce(), LookAgain(1, AtWork())), LookAgain(2, AtWork()));
            var inserted := Step(Shrunk(), Step(Shrunk(), looked, Insert(1, 10)), Insert(2, 11));
            LocksAgree(AtOnce()) && NoClash(looked.bookings) && !NoClash(inserted.bookings)
  {
    ValidatedForOne();
    LocksOfBoth();
    BothLook();
    BothInsert();
    BothClash();
  }

  lemma BothClash()
    ensures !NoClash(map[10 := AnHour(1, 600, Pending), 11 := AnHour(1, 600, Confirmed)])
  {
    var both: Bookings := map[10 := AnHour(1, 600, Pending), 11 := AnHour(1, 600, Confirmed)];
    assert Clash(both[10], both[11]);
  }

  // -------------------------------------------------------------------------
  // The ledger's part
  // -------------------------------------------------------------------------

  /** Whatever a payment, a sweep or a desk action does to a booking's status is one of the moves of these runs. */
  lemma LedgerMovesAreMoves(b: Ledger.Book, e: Ledger.Event, settings: Ledger.Settings)
    ensures var s, after := b.row.status, Ledger.Step(b, e, settings).row.status;
            after == s || exists move :: After(s, move) == Some(after)
  {
    var s, after := b.row.status, Ledger.Step(b, e, settings).row.status;
    if after != s {
      assert After(s, Confirm) == Some(after) || After(s, CheckIn) == Some(after) || After(s, Complete) == Some(after)
          || After(s, MarkNoShow) == Some(after) || After(s, Cancel) == Some(after);
    }
  }
}
