/** No double booking, on every run; and what it rests on. */
module BookingSafety {
  import opened BookingStatus
  import opened Options
  import opened Clock
  import opened Staffing
  import opened BookingRun
  import SlotMeaning

  // -------------------------------------------------------------------------
  // What every step keeps
  // -------------------------------------------------------------------------

  predicate Ascending(staff: seq<StaffId>) {
    forall i, j :: 0 <= i < j < |staff| ==> staff[i] < staff[j]
  }

  /** The staff of a service comes in id order, each once. */
  predicate InIdOrder(catalog: Catalog) {
    forall s <- catalog :: Ascending(catalog[s].staff)
  }

  /** Two bookings take up the same staff member's time at once, by the query's own test on stored times. */
  predicate Clash(a: Booking, b: Booking) {
    IsActive(a.status) && a.staff.Some? && Overlaps(b, a.staff.value, a.day, a.start, a.end)
  }

  ghost predicate NoClash(bookings: Bookings) {
    forall i, j :: i in bookings && j in bookings && i != j ==> !Clash(bookings[i], bookings[j])
  }

  /** The appointment ends, buffer and all, in the hours of the day. */
  predicate EndsToday(service: Service, start: TimeOfDay) {
    TimeToMinutes(start) + service.Total() < MINUTES_PER_DAY
  }

  /** A stored booking belongs to its service: one of its staff members, and its length. */
  predicate IsTidy(catalog: Catalog, b: Booking) {
    && b.service in catalog
    && b.end == AddMinutes(b.start, catalog[b.service].Total())
    && (b.staff.Some? ==> b.staff.value in catalog[b.service].staff)
    && EndsToday(catalog[b.service], b.start)
  }

  ghost predicate AllTidy(catalog: Catalog, bookings: Bookings) {
    forall i <- bookings :: IsTidy(catalog, bookings[i])
  }

  predicate IsSoundOrder(catalog: Catalog, o: Order) {
    && o.service in catalog
    && Ascending(o.locks)
    && (o.staff.Some? ==> o.staff.value in o.locks && o.staff.value in catalog[o.service].staff)
    && (o.auto ==> o.locks == catalog[o.service].staff)
    && EndsToday(catalog[o.service], o.start)
  }

  predicate IsSoundPhase(catalog: Catalog, t: Txn)
    requires IsSoundOrder(catalog, t.order)
  {
    match t.phase
    case Locking(taken) => taken <= |t.order.locks|
    case Ready(staff) => staff in t.order.locks && staff in catalog[t.order.service].staff
  }

  ghost predicate AllSound(catalog: Catalog, txns: map<TxnId, Txn>) {
    forall t <- txns :: IsSoundOrder(catalog, txns[t].order) && IsSoundPhase(catalog, txns[t])
  }

  /** The lock table and the transactions agree on who holds what. */
  ghost predicate LocksAgree(w: World) {
    && (forall t, s :: t in w.txns && s in w.txns[t].Held() ==> s in w.holder && w.holder[s] == t)
    && (forall s <- w.holder :: w.holder[s] in w.txns && s in w.txns[w.holder[s]].Held())
  }

  /** What a transaction found free stays free while it holds the locks. */
  ghost predicate PromisesHold(catalog: Catalog, w: World)
    requires AllSound(catalog, w.txns)
  {
    forall t <- w.txns :: w.txns[t].phase.Ready? ==>
      var o := w.txns[t].order;
      !IsSlotBooked(w.bookings, w.txns[t].phase.staff, o.day, o.start, catalog[o.service].Total(), None)
  }

  ghost predicate Sound(catalog: Catalog, w: World) {
    && NoClash(w.bookings)
    && AllTidy(catalog, w.bookings)
    && AllSound(catalog, w.txns)
    && LocksAgree(w)
    && PromisesHold(catalog, w)
  }

  // -------------------------------------------------------------------------
  // Changing one booking
  // -------------------------------------------------------------------------

  /** Nothing else is in the way of `b` stored under `id`. */
  ghost predicate IsFree(bookings: Bookings, id: BookingId, b: Booking) {
    forall j :: j in bookings && j != id ==> !Clash(b, bookings[j])
  }

  lemma ClashIsMutual(a: Booking, b: Booking)
    ensures Clash(a, b) <==> Clash(b, a)
  {
  }

  lemma StoringAFreeBooking(bookings: Bookings, id: BookingId, b: Booking)
    requires NoClash(bookings) && IsFree(bookings, id, b)
    ensures NoClash(bookings[id := b])
  {
    forall j | j in bookings && j != id ensures !Clash(b, bookings[j]) && !Clash(bookings[j], b) {
      ClashIsMutual(b, bookings[j]);
    }
  }

  /** A booking that is new to its time is with a staff member nobody else has locked; a promise is not touched. */
  ghost predicate Respects(w: World, id: BookingId, b: Booking) {
    || (id in w.bookings && TakesNoMore(w.bookings[id], b))
    || (b.staff.Some? ==> b.staff.value !in w.holder)
  }

  ghost predicate TakesNoMore(before: Booking, after: Booking) {
    after.(status := before.status) == before && (IsActive(after.status) ==> IsActive(before.status))
  }

  lemma PutIsSound(catalog: Catalog, w: World, id: BookingId, b: Booking)
    requires Sound(catalog, w)
    requires IsFree(w.bookings, id, b) && IsTidy(catalog, b) && Respects(w, id, b)
    ensures Sound(catalog, w.(bookings := w.bookings[id := b]))
  {
    StoringAFreeBooking(w.bookings, id, b);
    forall t | t in w.txns && w.txns[t].phase.Ready?
      ensures var o := w.txns[t].order;
              !IsSlotBooked(w.bookings[id := b], w.txns[t].phase.staff, o.day, o.start, catalog[o.service].Total(),
                            None)
    {
      PromiseSurvives(catalog, w, id, b, t);
    }
  }

  lemma PromiseSurvives(catalog: Catalog, w: World, id: BookingId, b: Booking, t: TxnId)
    requires Sound(catalog, w) && Respects(w, id, b)
    requires t in w.txns && w.txns[t].phase.Ready?
    ensures var o := w.txns[t].order;
            !IsSlotBooked(w.bookings[id := b], w.txns[t].phase.staff, o.day, o.start, catalog[o.service].Total(), None)
  {
    var o, staff := w.txns[t].order, w.txns[t].phase.staff;
    var end := AddMinutes(o.start, catalog[o.service].Total());
    ReadyIsLocked(catalog, w, t);
    var after := w.bookings[id := b];
    forall j | j in after ensures !Overlaps(after[j], staff, o.day, o.start, end) {
      if j != id || Overlaps(b, staff, o.day, o.start, end) {
        assert j in w.bookings && !Overlaps(w.bookings[j], staff, o.day, o.start, end);
      }
    }
  }

  lemma ReadyIsLocked(catalog: Catalog, w: World, t: TxnId)
    requires Sound(catalog, w) && t in w.txns && w.txns[t].phase.Ready?
    ensures w.txns[t].phase.staff in w.txns[t].Held() && w.txns[t].phase.staff in w.holder
  {
    var k :| 0 <= k < |w.txns[t].order.locks| && w.txns[t].order.locks[k] == w.txns[t].phase.staff;
  }

  /** The query's answer for a slot is that a booking of this length would clash with nothing. */
  lemma NotBookedIsFree(bookings: Bookings, id: BookingId, b: Booking, total: int, exclude: Option<BookingId>)
    requires b.end == AddMinutes(b.start, total) && (exclude == Some(id) || (exclude == None && id !in bookings))
    requires b.staff.Some? ==> !IsSlotBooked(bookings, b.staff.value, b.day, b.start, total, exclude)
    ensures IsFree(bookings, id, b)
  {
  }

  // -------------------------------------------------------------------------
  // The steps of a creation
  // -------------------------------------------------------------------------

  lemma AcceptedEndsToday(service: Service, roster: Roster, bookings: Bookings, staff: StaffId, day: Day,
                          start: TimeOfDay, exclude: Option<BookingId>, enforceGrid: bool)
    requires CheckStaffSlot(service, roster, bookings, staff, day, start, exclude, enforceGrid) == Accepted
    ensures EndsToday(service, start)
    ensures !IsSlotBooked(bookings, staff, day, start, service.Total(), exclude)
  {
  }

  lemma {:induction false} ValidatedIsSound(catalog: Catalog, seen: Bookings, seenNext: Bookings, roster: Roster,
                                            window: Window, now: Instant, request: Request)
    requires InIdOrder(catalog)
    ensures var o := Validated(catalog, seen, seenNext, roster, window, now, request);
            o.Some? ==> IsSoundOrder(catalog, o.value)
  {
    if Validated(catalog, seen, seenNext, roster, window, now, request).Some? {
      var service := catalog[request.service];
      match request
      case ByDesk(_, staff, day, start, _) => AcceptedEndsToday(service, roster, seen, staff, day, start, None, false);
      case ByCustomer(_, wanted, day, start) =>
        var found := FindAvailableStaff(service, service.staff, roster, seen, day, start, None, true);
        var staff := if wanted.Some? then wanted.value else found.value;
        AcceptedEndsToday(service, roster, seen, staff, day, start, None, true);
    }
  }

  lemma BeginIsSound(catalog: Catalog, w: World, txn: TxnId, o: Order)
    requires Sound(catalog, w) && txn !in w.txns && IsSoundOrder(catalog, o)
    ensures Sound(catalog, w.(txns := w.txns[txn := Txn(o, Locking(0))]))
  {
    assert Txn(o, Locking(0)).Held() == {};
  }

  /** Locks and transactions still agree when one more lock goes to `txn`. */
  lemma OneMoreLock(w: World, txn: TxnId, t: Txn, s: StaffId)
    requires LocksAgree(w) && txn in w.txns && s !in w.holder && t.Held() == w.txns[txn].Held() + {s}
    ensures LocksAgree(w.(holder := w.holder[s := txn], txns := w.txns[txn := t]))
  {
    var after := w.(holder := w.holder[s := txn], txns := w.txns[txn := t]);
    forall u, x | u in after.txns && x in after.txns[u].Held() ensures x in after.holder && after.holder[x] == u {
      assert u != txn ==> x in w.txns[u].Held();
    }
  }

  /** With no change to the bookings, nor to what any transaction has found, every promise holds on. */
  lemma KeepsPromises(catalog: Catalog, w: World, txn: TxnId, t: Txn)
    requires AllSound(catalog, w.txns) && PromisesHold(catalog, w)
    requires IsSoundOrder(catalog, t.order) && IsSoundPhase(catalog, t) && t.phase.Locking?
    ensures AllSound(catalog, w.txns[txn := t]) && PromisesHold(catalog, w.(txns := w.txns[txn := t]))
  {
  }

  lemma {:induction false} TakeLockIsSound(catalog: Catalog, w: World, txn: TxnId)
    requires Sound(catalog, w) && CanTakeLock(w, txn)
    ensures Sound(catalog, AfterTakeLock(w, txn))
  {
    var k := w.txns[txn].phase.taken;
    var t := w.txns[txn].(phase := Locking(k + 1));
    assert t.Held() == w.txns[txn].Held() + {t.order.locks[k]};
    OneMoreLock(w, txn, t, t.order.locks[k]);
    KeepsPromises(catalog, w, txn, t);
  }

  lemma ReleaseKeepsLocks(w: World, txn: TxnId)
    requires LocksAgree(w)
    ensures LocksAgree(Released(w, txn))
  {
  }

  lemma ReleaseIsSound(catalog: Catalog, w: World, txn: TxnId)
    requires Sound(catalog, w)
    ensures Sound(catalog, Released(w, txn))
  {
    ReleaseKeepsLocks(w, txn);
    var after := Released(w, txn);
    assert AllSound(catalog, after.txns);
    forall t | t in after.txns && after.txns[t].phase.Ready?
      ensures var o := after.txns[t].order;
              !IsSlotBooked(w.bookings, after.txns[t].phase.staff, o.day, o.start, catalog[o.service].Total(), None)
    {
      assert after.txns[t] == w.txns[t];
    }
  }

  lemma SameLocksHeld(w: World, txn: TxnId, t: Txn)
    requires LocksAgree(w) && txn in w.txns && t.Held() == w.txns[txn].Held()
    ensures LocksAgree(w.(txns := w.txns[txn := t]))
  {
  }

  lemma BecomesReady(catalog: Catalog, w: World, txn: TxnId, staff: StaffId)
    requires Sound(catalog, w) && HasAllLocks(w, txn)
    requires var o := w.txns[txn].order;
             && staff in o.locks && staff in catalog[o.service].staff
             && !IsSlotBooked(w.bookings, staff, o.day, o.start, catalog[o.service].Total(), None)
    ensures Sound(catalog, w.(txns := w.txns[txn := w.txns[txn].(phase := Ready(staff))]))
  {
    var t := w.txns[txn].(phase := Ready(staff));
    assert t.Held() == w.txns[txn].Held();
    SameLocksHeld(w, txn, t);
    assert AllSound(catalog, w.txns[txn := t]);
  }

  lemma {:induction false} LookAgainIsSound(catalog: Catalog, w: World, txn: TxnId, roster: Roster)
    requires Sound(catalog, w) && HasAllLocks(w, txn)
    ensures Sound(catalog, AfterLookAgain(catalog, w, txn, roster))
  {
    var o := w.txns[txn].order;
    var staff := Chosen(catalog[o.service], w.bookings, roster, o);
    if staff.None? {
      ReleaseIsSound(catalog, w, txn);
    } else {
      assert IsSoundOrder(catalog, o);
      BecomesReady(catalog, w, txn, staff.value);
    }
  }

  /** The booking is stored as the locks are given back. */
  lemma {:induction false} InsertIsSound(catalog: Catalog, w: World, txn: TxnId, id: BookingId)
    requires Sound(catalog, w) && IsReady(w, txn) && id !in w.bookings
    ensures Sound(catalog, AfterInsert(catalog, w, txn, id))
  {
    var t := w.txns[txn];
    var service := catalog[t.order.service];
    var b := Placed(service, t.order, t.phase.staff);
    NotBookedIsFree(w.bookings, id, b, service.Total(), None);
    ReadyIsLocked(catalog, w, txn);
    ReleaseIsSound(catalog, w, txn);
    PutIsSound(catalog, Released(w, txn), id, b);
  }

  // -------------------------------------------------------------------------
  // The other steps
  // -------------------------------------------------------------------------

  /**
  A customer's move is safe however old its reading of the row is: what it writes, it has checked under the locks.
  */
  lemma {:induction false} MoveByCustomerIsSound(catalog: Catalog, w: World, id: BookingId, reading: Booking, day: Day,
                                                 start: TimeOfDay, noticeHours: int, roster: Roster, window: Window,
                                                 now: Instant)
    requires Sound(catalog, w)
    ensures Sound(catalog, Put(w, id, MovedByCustomer(catalog, w, id, reading, day, start, noticeHours, roster,
                                                      window, now)))
  {
    var after := MovedByCustomer(catalog, w, id, reading, day, start, noticeHours, roster, window, now);
    if after.Some? {
      var b := after.value;
      var service := catalog[b.service];
      AcceptedEndsToday(service, roster, w.bookings, b.staff.value, day, start, Some(id), true);
      NotBookedIsFree(w.bookings, id, b, service.Total(), Some(id));
      PutIsSound(catalog, w, id, b);
    }
  }

  lemma MoveByStaffIsSound(catalog: Catalog, w: World, id: BookingId, day: Day, start: TimeOfDay, roster: Roster,
                           now: Instant)
    requires Sound(catalog, w)
    ensures Sound(catalog, Put(w, id, MovedByStaff(catalog, w, id, day, start, roster, now)))
  {
    var after := MovedByStaff(catalog, w, id, day, start, roster, now);
    if after.Some? {
      var b := after.value;
      var service := catalog[b.service];
      var found := FindAvailableStaff(service, service.staff, roster, w.bookings, day, start, Some(id), false);
      AcceptedEndsToday(service, roster, w.bookings, if b.staff.Some? then b.staff.value else found.value,
                        day, start, Some(id), false);
      NotBookedIsFree(w.bookings, id, b, service.Total(), Some(id));
      PutIsSound(catalog, w, id, b);
    }
  }

  lemma AssignIsSound(catalog: Catalog, w: World, id: BookingId, staff: StaffId, roster: Roster)
    requires Sound(catalog, w)
    ensures Sound(catalog, Put(w, id, Assigned(catalog, w, id, staff, roster)))
  {
    var after := Assigned(catalog, w, id, staff, roster);
    if after.Some? {
      var service := catalog[after.value.service];
      NotBookedIsFree(w.bookings, id, after.value, service.Total(), Some(id));
      PutIsSound(catalog, w, id, after.value);
    }
  }

  lemma ChangeStatusIsSound(catalog: Catalog, w: World, id: BookingId, move: Move)
    requires Sound(catalog, w)
    ensures Sound(catalog, Put(w, id, WithStatus(w, id, move)))
  {
    var after := WithStatus(w, id, move);
    if after.Some? {
      assert IsActive(after.value.status) ==> IsActive(w.bookings[id].status);
      forall j | j in w.bookings && j != id ensures !Clash(after.value, w.bookings[j]) {
        assert !Clash(w.bookings[id], w.bookings[j]);
      }
      PutIsSound(catalog, w, id, after.value);
    }
  }

  lemma DeleteIsSound(catalog: Catalog, w: World, id: BookingId)
    requires Sound(catalog, w)
    ensures Sound(catalog, Step(catalog, w, Delete(id)))
  {
  }

  lemma {:induction false} CreationStepIsSound(catalog: Catalog, w: World, e: Event)
    requires InIdOrder(catalog) && Sound(catalog, w) && (e.Begin? || e.TakeLock? || e.LookAgain? || e.Insert?)
    ensures Sound(catalog, Step(catalog, w, e))
  {
    match e
    case Begin(txn, request, seen, seenNext, roster, window, now) =>
      ValidatedIsSound(catalog, seen, seenNext, roster, window, now, request);
      var order := Validated(catalog, seen, seenNext, roster, window, now, request);
      if txn !in w.txns && order.Some? {
        BeginIsSound(catalog, w, txn, order.value);
      }
    case TakeLock(txn) => if CanTakeLock(w, txn) { TakeLockIsSound(catalog, w, txn); }
    case LookAgain(txn, roster) => if HasAllLocks(w, txn) { LookAgainIsSound(catalog, w, txn, roster); }
    case Insert(txn, id) => if IsReady(w, txn) && id !in w.bookings { InsertIsSound(catalog, w, txn, id); }
  }

  lemma {:induction false} StepIsSound(catalog: Catalog, w: World, e: Event)
    requires InIdOrder(catalog) && Sound(catalog, w)
    ensures Sound(catalog, Step(catalog, w, e))
  {
    match e
    case MoveByCustomer(id, reading, day, start, noticeHours, roster, window, now) =>
      MoveByCustomerIsSound(catalog, w, id, reading, day, start, noticeHours, roster, window, now);
    case MoveByStaff(id, day, start, roster, now) => MoveByStaffIsSound(catalog, w, id, day, start, roster, now);
    case AssignStaff(id, staff, roster) => AssignIsSound(catalog, w, id, staff, roster);
    case ChangeStatus(id, move) => ChangeStatusIsSound(catalog, w, id, move);
    case Delete(id) => DeleteIsSound(catalog, w, id);
    case _ => CreationStepIsSound(catalog, w, e);
  }

  lemma {:induction false} RunIsSound(catalog: Catalog, w: World, events: seq<Event>)
    requires InIdOrder(catalog) && Sound(catalog, w)
    ensures Sound(catalog, Run(catalog, w, events))
  {
    if events != [] {
      RunIsSound(catalog, w, events[..|events| - 1]);
      StepIsSound(catalog, Run(catalog, w, events[..|events| - 1]), events[|events| - 1]);
    }
  }

  predicate Deletes(e: Event, id: BookingId) {
    e.Delete? && e.id == id
  }

  lemma StepKeepsService(catalog: Catalog, w: World, e: Event, id: BookingId)
    requires id in w.bookings && !Deletes(e, id)
    ensures var after := Step(catalog, w, e).bookings;
            id in after && after[id].service == w.bookings[id].service
  {
  }

  /** Every row of an earlier state is still a reading of the same row later on, unless that one was deleted. */
  lemma {:induction false} EarlierRowsAreReadings(catalog: Catalog, w: World, more: seq<Event>, id: BookingId)
    requires Sound(catalog, w) && id in w.bookings
    requires forall k :: 0 <= k < |more| ==> !Deletes(more[k], id)
    ensures IsReading(catalog, Run(catalog, w, more).bookings, id, w.bookings[id])
  {
    assert IsTidy(catalog, w.bookings[id]);
    if more != [] {
      var n := |more| - 1;
      EarlierRowsAreReadings(catalog, w, more[..n], id);
      StepKeepsService(catalog, Run(catalog, w, more[..n]), more[n], id);
    }
  }

  // -------------------------------------------------------------------------
  // No double booking
  // -------------------------------------------------------------------------

  /** At no moment of any day does a staff member have two active bookings, however stale the validations were. */
  lemma {:induction false} NoDoubleBooking(catalog: Catalog, events: seq<Event>, i: BookingId, j: BookingId,
                                           moment: TimeOfDay)
    requires InIdOrder(catalog)
    ensures var bookings := Run(catalog, EMPTY, events).bookings;
            i in bookings && j in bookings && i != j ==>
              var a, b := bookings[i], bookings[j];
              var active := {Pending, Confirmed, InProgress};
              a.status in active && b.status in active && a.staff.Some? && a.staff == b.staff && a.day == b.day ==>
                !(a.start <= moment < a.end && b.start <= moment < b.end)
  {
    RunIsSound(catalog, EMPTY, events);
  }

  lemma NoWrapToday(service: Service, start: TimeOfDay)
    requires EndsToday(service, start) && service.Total() >= 0
    ensures AddMinutes(start, service.Total()) == start + service.Total() * MINUTE
  {
    assert start < (TimeToMinutes(start) + 1) * MINUTE;
  }

  /** The stored end is the start plus service and buffer, on the same day. */
  lemma {:induction false} StoredEndIsTheRealEnd(catalog: Catalog, events: seq<Event>, i: BookingId)
    requires InIdOrder(catalog) && forall s <- catalog :: catalog[s].Total() >= 0
    ensures var bookings := Run(catalog, EMPTY, events).bookings;
            i in bookings ==>
              var b := bookings[i];
              && b.service in catalog
              && b.end == b.start + (catalog[b.service].duration + catalog[b.service].buffer) * MINUTE
              && (b.staff.Some? ==> b.staff.value in catalog[b.service].staff)
  {
    RunIsSound(catalog, EMPTY, events);
    var bookings := Run(catalog, EMPTY, events).bookings;
    if i in bookings {
      var b := bookings[i];
      assert IsTidy(catalog, b);
      NoWrapToday(catalog[b.service], b.start);
    }
  }

  /** Nor does the wrap do anything where a creation looks again under its locks: its slot was checked before. */
  lemma {:induction false} OpenOrdersDoNotWrap(catalog: Catalog, events: seq<Event>, txn: TxnId)
    requires InIdOrder(catalog) && forall s <- catalog :: catalog[s].Total() >= 0
    ensures var txns := Run(catalog, EMPTY, events).txns;
            txn in txns ==>
              var o := txns[txn].order;
              && o.service in catalog
              && AddMinutes(o.start, catalog[o.service].Total()) == o.start + catalog[o.service].Total() * MINUTE
  {
    RunIsSound(catalog, EMPTY, events);
    var txns := Run(catalog, EMPTY, events).txns;
    if txn in txns {
      var o := txns[txn].order;
      assert IsSoundOrder(catalog, o);
      NoWrapToday(catalog[o.service], o.start);
    }
  }

  /** Where services take time, every stored booking runs forward, as the meaning of the slot check asks. */
  lemma {:induction false} BookingsRunForward(catalog: Catalog, events: seq<Event>)
    requires InIdOrder(catalog) && forall s <- catalog :: catalog[s].Total() > 0
    ensures SlotMeaning.RunForward(Run(catalog, EMPTY, events).bookings)
  {
    var bookings := Run(catalog, EMPTY, events).bookings;
    forall i | i in bookings ensures bookings[i].start < bookings[i].end {
      StoredEndIsTheRealEnd(catalog, events, i);
    }
  }

  lemma NobodyElseIsThere(bookings: Bookings, id: BookingId, status: Status)
    requires NoClash(bookings) && id in bookings && IsActive(bookings[id].status) && bookings[id].staff.Some?
    requires !IsActive(status)
    ensures var b, left := bookings[id], bookings[id := bookings[id].(status := status)];
            forall j <- left :: !Overlaps(left[j], b.staff.value, b.day, b.start, b.end)
  {
    var b, left := bookings[id], bookings[id := bookings[id].(status := status)];
    forall j | j in left ensures !Overlaps(left[j], b.staff.value, b.day, b.start, b.end) {
      if j != id {
        assert !Clash(bookings[id], bookings[j]);
      }
    }
  }

  /** What `id` occupied is free of everyone once its status has moved to a final one. */
  ghost predicate Frees(w: World, id: BookingId, move: Move) {
    var after := WithStatus(w, id, move);
    after.Some? && IsFinal(after.value.status) && after.value.staff.Some? ==>
      var b, left := after.value, Put(w, id, after).bookings;
      forall j <- left :: !Overlaps(left[j], b.staff.value, b.day, b.start, b.end)
  }

  lemma FinalStatusFrees(w: World, id: BookingId, move: Move)
    requires NoClash(w.bookings)
    ensures Frees(w, id, move)
  {
    var after := WithStatus(w, id, move);
    if after.Some? && IsFinal(after.value.status) && after.value.staff.Some? {
      NobodyElseIsThere(w.bookings, id, after.value.status);
    }
  }

  /** Once its booking is cancelled, missed or done, the staff member's time is free: nobody else had a part of it. */
  lemma FreedTimeIsFree(catalog: Catalog, events: seq<Event>, id: BookingId, move: Move)
    requires InIdOrder(catalog)
    ensures Frees(Run(catalog, EMPTY, events), id, move)
  {
    RunIsSound(catalog, EMPTY, events);
    FinalStatusFrees(Run(catalog, EMPTY, events), id, move);
  }
}
