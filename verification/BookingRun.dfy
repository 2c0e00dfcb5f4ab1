/**
Runs of the booking system. Creating a booking is a transaction of several steps: it is validated
against whatever the tables held some time earlier, takes the locks of the staff members one by one,
looks again, and inserts. Every other handler is one step. A step that its guard does not allow
changes nothing.
*/
module BookingRun {
  import opened BookingStatus
  import opened Options
  import opened Clock
  import opened Staffing

  type TxnId = nat
  type Catalog = map<ServiceId, Service>

  /** A customer may leave the staff member open; the front desk names one and sets the first status. */
  datatype Request =
    | ByCustomer(service: ServiceId, wanted: Option<StaffId>, day: Day, start: TimeOfDay)
    | ByDesk(service: ServiceId, staff: StaffId, day: Day, start: TimeOfDay, confirmed: bool)

  /** A validated request: who it is meant for, and the locks it takes, in this order. */
  datatype Order = Order(service: ServiceId, staff: Option<StaffId>, auto: bool, locks: seq<StaffId>,
                         day: Day, start: TimeOfDay, status: Status)

  datatype Phase = Locking(taken: nat) | Ready(staff: StaffId)

  datatype Txn = Txn(order: Order, phase: Phase) {

    /** The staff members whose rows it has locked. */
    function Held(): set<StaffId> {
      match phase
      case Locking(taken) => set k | 0 <= k < |order.locks| && k < taken :: order.locks[k]
      case Ready(_) => set k | 0 <= k < |order.locks| :: order.locks[k]
    }
  }

  datatype World = World(bookings: Bookings, holder: map<StaffId, TxnId>, txns: map<TxnId, Txn>)

  datatype Event =
    | Begin(txn: TxnId, request: Request, seen: Bookings, seenNext: Bookings, roster: Roster, window: Window,
            now: Instant)
    | TakeLock(txn: TxnId)
    | LookAgain(txn: TxnId, roster: Roster)
    | Insert(txn: TxnId, id: BookingId)
    | MoveByCustomer(id: BookingId, reading: Booking, day: Day, start: TimeOfDay, noticeHours: int, roster: Roster,
                     window: Window, now: Instant)
    | MoveByStaff(id: BookingId, day: Day, start: TimeOfDay, roster: Roster, now: Instant)
    | AssignStaff(id: BookingId, staff: StaffId, roster: Roster)
    | ChangeStatus(id: BookingId, move: Move)
    | Delete(id: BookingId)

  // -------------------------------------------------------------------------
  // Creating a booking
  // -------------------------------------------------------------------------

  /** What validation lets through, from two reads of the bookings that may both be out of date. */
  function Validated(catalog: Catalog, seen: Bookings, seenNext: Bookings, roster: Roster, window: Window,
                     now: Instant, request: Request): Option<Order>
  {
    if request.service !in catalog then None
    else
      var service := catalog[request.service];
      match request
      case ByCustomer(id, wanted, day, start) =>
        if wanted.Some? && !StaffCanPerform(service, roster, wanted.value) then None
        else if CheckBookingWindow(window, now, day, start) != Accepted then None
        else if ValidateBookingAvailability(service, roster, seen, now, wanted, day, start, None, true) != Accepted
        then None
        else
          var staff := if wanted.Some? then wanted
                       else FindAvailableStaff(service, service.staff, roster, seenNext, day, start, None, true);
          Some(Order(id, staff, wanted.None?, service.staff, day, start, Pending))
      case ByDesk(id, staff, day, start, confirmed) =>
        if !StaffCanPerform(service, roster, staff) then None
        else if CheckStaffSlot(service, roster, seen, staff, day, start, None, false) != Accepted then None
        else Some(Order(id, Some(staff), false, [staff], day, start, if confirmed then Confirmed else Pending))
  }

  /** Under the locks: the staff member meant, if still free; otherwise, if left open, another who is. */
  function Chosen(service: Service, bookings: Bookings, roster: Roster, o: Order): (staff: Option<StaffId>)
    ensures staff.Some? ==>
              && !IsSlotBooked(bookings, staff.value, o.day, o.start, service.Total(), None)
              && (staff == o.staff || (o.auto && staff.value in service.staff))
  {
    if o.staff.Some? && !IsSlotBooked(bookings, o.staff.value, o.day, o.start, service.Total(), None) then o.staff
    else if o.auto then FindAvailableStaff(service, service.staff, roster, bookings, o.day, o.start, None, false)
    else None
  }

  function Placed(service: Service, o: Order, staff: StaffId): Booking {
    Booking(o.service, Some(staff), o.day, o.start, AddMinutes(o.start, service.Total()), o.status)
  }

  /** Commit or roll back: the transaction is over and its locks are free. */
  function Released(w: World, txn: TxnId): World {
    w.(holder := map s | s in w.holder && w.holder[s] != txn :: w.holder[s], txns := w.txns - {txn})
  }

  predicate CanTakeLock(w: World, txn: TxnId) {
    && txn in w.txns && w.txns[txn].phase.Locking?
    && var t := w.txns[txn];
       t.phase.taken < |t.order.locks| && t.order.locks[t.phase.taken] !in w.holder
  }

  predicate HasAllLocks(w: World, txn: TxnId) {
    txn in w.txns && w.txns[txn].phase.Locking? && w.txns[txn].phase.taken >= |w.txns[txn].order.locks|
  }

  predicate IsReady(w: World, txn: TxnId) {
    txn in w.txns && w.txns[txn].phase.Ready?
  }

  function AfterTakeLock(w: World, txn: TxnId): World
    requires CanTakeLock(w, txn)
  {
    var t := w.txns[txn];
    w.(holder := w.holder[t.order.locks[t.phase.taken] := txn],
       txns := w.txns[txn := t.(phase := Locking(t.phase.taken + 1))])
  }

  function AfterLookAgain(catalog: Catalog, w: World, txn: TxnId, roster: Roster): World
    requires HasAllLocks(w, txn) && w.txns[txn].order.service in catalog
  {
    var t := w.txns[txn];
    match Chosen(catalog[t.order.service], w.bookings, roster, t.order)
    case None => Released(w, txn)
    case Some(staff) => w.(txns := w.txns[txn := t.(phase := Ready(staff))])
  }

  function AfterInsert(catalog: Catalog, w: World, txn: TxnId, id: BookingId): World
    requires IsReady(w, txn) && w.txns[txn].order.service in catalog
  {
    var t := w.txns[txn];
    Released(w.(bookings := w.bookings[id := Placed(catalog[t.order.service], t.order, t.phase.staff)]), txn)
  }

  // -------------------------------------------------------------------------
  // The other handlers
  // -------------------------------------------------------------------------

  predicate Unlocked(w: World, staff: seq<StaffId>) {
    forall k :: 0 <= k < |staff| ==> staff[k] !in w.holder
  }

  predicate IsUpcoming(s: Status) {
    s == Pending || s == Confirmed
  }

  function Moved(service: Service, b: Booking, staff: Option<StaffId>, day: Day, start: TimeOfDay): Booking {
    b.(staff := staff, day := day, start := start, end := AddMinutes(start, service.Total()))
  }

  /** What may have been read of a row some time before: its service never changes, its staff come from the roster. */
  predicate IsReading(catalog: Catalog, bookings: Bookings, id: BookingId, reading: Booking) {
    && id in bookings && reading.service == bookings[id].service && reading.service in catalog
    && (reading.staff.Some? ==> reading.staff.value in catalog[reading.service].staff)
  }

  /**
  The row after a customer's move, if it is allowed: notice for the old time, lead time for the new one. The
  row was read, as `reading`, before the locks are taken; staff, day and times are written together.
  */
  function MovedByCustomer(catalog: Catalog, w: World, id: BookingId, reading: Booking, day: Day, start: TimeOfDay,
                           noticeHours: int, roster: Roster, window: Window, now: Instant): Option<Booking>
  {
    if !IsReading(catalog, w.bookings, id, reading) || !IsUpcoming(reading.status) then None
    else
      var service := catalog[reading.service];
      if At(reading.day, reading.start) - now < noticeHours * HOUR then None
      else if CheckBookingWindow(window, now, day, start) != Accepted then None
      else if !Unlocked(w, service.staff) then None
      else if ValidateBookingAvailability(
                service, roster, w.bookings, now, reading.staff, day, start, Some(id), true) != Accepted
      then None
      else
        var staff := if reading.staff.Some? then reading.staff
                     else FindAvailableStaff(service, service.staff, roster, w.bookings, day, start, Some(id), true);
        Some(Moved(service, w.bookings[id], staff, day, start))
  }

  function MovedByStaff(catalog: Catalog, w: World, id: BookingId, day: Day, start: TimeOfDay, roster: Roster,
                        now: Instant): Option<Booking>
  {
    if id !in w.bookings || w.bookings[id].service !in catalog || !IsUpcoming(w.bookings[id].status) then None
    else
      var b := w.bookings[id];
      var service := catalog[b.service];
      if b.staff.Some? && b.staff.value in w.holder then None
      else if ValidateBookingAvailability(
                service, roster, w.bookings, now, b.staff, day, start, Some(id), false) != Accepted
      then None
      else Some(Moved(service, b, b.staff, day, start))
  }

  function Assigned(catalog: Catalog, w: World, id: BookingId, staff: StaffId, roster: Roster): Option<Booking> {
    if id !in w.bookings || w.bookings[id].service !in catalog || !IsUpcoming(w.bookings[id].status) then None
    else
      var b := w.bookings[id];
      var service := catalog[b.service];
      if b.staff == Some(staff) || !StaffCanPerform(service, roster, staff) || staff in w.holder then None
      else if CheckStaffSlot(service, roster, w.bookings, staff, b.day, b.start, Some(id), false) != Accepted then None
      else Some(b.(staff := Some(staff)))
  }

  function WithStatus(w: World, id: BookingId, move: Move): Option<Booking> {
    if id !in w.bookings then None
    else
      match After(w.bookings[id].status, move)
      case None => None
      case Some(next) => Some(w.bookings[id].(status := next))
  }

  function Put(w: World, id: BookingId, b: Option<Booking>): World {
    if b.Some? then w.(bookings := w.bookings[id := b.value]) else w
  }

  // -------------------------------------------------------------------------
  // Steps and runs
  // -------------------------------------------------------------------------

  function Step(catalog: Catalog, w: World, e: Event): World {
    match e
    case Begin(txn, request, seen, seenNext, roster, window, now) =>
      var order := Validated(catalog, seen, seenNext, roster, window, now, request);
      if txn in w.txns || order.None? then w else w.(txns := w.txns[txn := Txn(order.value, Locking(0))])
    case TakeLock(txn) => if CanTakeLock(w, txn) then AfterTakeLock(w, txn) else w
    case LookAgain(txn, roster) =>
      if HasAllLocks(w, txn) && w.txns[txn].order.service in catalog then AfterLookAgain(catalog, w, txn, roster) else w
    case Insert(txn, id) =>
      if IsReady(w, txn) && w.txns[txn].order.service in catalog && id !in w.bookings
      then AfterInsert(catalog, w, txn, id) else w
    case MoveByCustomer(id, reading, day, start, noticeHours, roster, window, now) =>
      Put(w, id, MovedByCustomer(catalog, w, id, reading, day, start, noticeHours, roster, window, now))
    case MoveByStaff(id, day, start, roster, now) => Put(w, id, MovedByStaff(catalog, w, id, day, start, roster, now))
    case AssignStaff(id, staff, roster) => Put(w, id, Assigned(catalog, w, id, staff, roster))
    case ChangeStatus(id, move) => Put(w, id, WithStatus(w, id, move))
    case Delete(id) => w.(bookings := w.bookings - {id})
  }

  function Run(catalog: Catalog, w: World, events: seq<Event>): World {
    if events == [] then w
    else Step(catalog, Run(catalog, w, events[..|events| - 1]), events[|events| - 1])
  }

  const EMPTY := World(map[], map[], map[])
}
