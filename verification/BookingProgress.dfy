/** Taking the locks in id order: creations never wait for each other in a circle, and all of them can be finished. */
module BookingProgress {
  import opened Options
  import opened Clock
  import opened Staffing
  import opened BookingRun
  import opened BookingSafety

  /** The transaction is not waiting for a lock. */
  predicate CanAct(w: World, t: TxnId) {
    CanTakeLock(w, t) || HasAllLocks(w, t) || IsReady(w, t)
  }

  /** The lock the transaction needs next. */
  predicate Wants(w: World, t: TxnId, s: StaffId) {
    && t in w.txns && w.txns[t].phase.Locking?
    && w.txns[t].phase.taken < |w.txns[t].order.locks|
    && w.txns[t].order.locks[w.txns[t].phase.taken] == s
  }

  /** Whoever holds a lock wants a later one. */
  lemma HolderWantsLater(catalog: Catalog, w: World, s: StaffId, next: StaffId)
    requires Sound(catalog, w) && s in w.holder && Wants(w, w.holder[s], next)
    ensures s < next
  {
    var t := w.txns[w.holder[s]];
    assert s in t.Held();
    var k :| 0 <= k < |t.order.locks| && k < t.phase.taken && t.order.locks[k] == s;
  }

  /** The locks taken, from the one a waiting transaction wants upwards. */
  function LocksFrom(w: World, t: TxnId): set<StaffId>
    requires t in w.txns
  {
    if CanAct(w, t) then {} else set s <- w.holder | s >= w.txns[t].order.locks[w.txns[t].phase.taken]
  }

  /** Along the chain of waiting transactions the wanted locks rise, so the chain ends at one that is not waiting. */
  lemma {:induction false} SomeoneCanAct(catalog: Catalog, w: World, t: TxnId) returns (u: TxnId)
    requires Sound(catalog, w) && t in w.txns
    ensures u in w.txns && CanAct(w, u)
    decreases LocksFrom(w, t)
  {
    u := t;
    if !CanAct(w, t) {
      var wanted := w.txns[t].order.locks[w.txns[t].phase.taken];
      assert wanted in LocksFrom(w, t);
      var h := w.holder[wanted];
      if CanAct(w, h) {
        return h;
      }
      HolderWantsLater(catalog, w, wanted, w.txns[h].order.locks[w.txns[h].phase.taken]);
      u := SomeoneCanAct(catalog, w, h);
    }
  }

  /** In every reachable state with an open creation, some open creation can take its next step. */
  lemma {:induction false} NoDeadlock(catalog: Catalog, events: seq<Event>)
    requires InIdOrder(catalog)
    ensures var w := Run(catalog, EMPTY, events);
            w.txns != map[] ==> exists u :: u in w.txns && CanAct(w, u)
  {
    RunIsSound(catalog, EMPTY, events);
    var w := Run(catalog, EMPTY, events);
    if t :| t in w.txns {
      var u := SomeoneCanAct(catalog, w, t);
    }
  }

  // -------------------------------------------------------------------------
  // What comes of a creation
  // -------------------------------------------------------------------------

  predicate IsStillFree(service: Service, bookings: Bookings, o: Order)
    requires o.staff.Some?
  {
    !IsSlotBooked(bookings, o.staff.value, o.day, o.start, service.Total(), None)
  }

  predicate CanTake(service: Service, bookings: Bookings, roster: Roster, o: Order, s: StaffId) {
    s in roster.active && CheckStaffSlot(service, roster, bookings, s, o.day, o.start, None, false) == Accepted
  }

  /** Somebody can take the order: the one meant, or, if left open, anyone active on the roster. */
  predicate CanBeMet(service: Service, bookings: Bookings, roster: Roster, o: Order) {
    || (o.staff.Some? && IsStillFree(service, bookings, o))
    || (o.auto && exists s <- service.staff :: CanTake(service, bookings, roster, o, s))
  }

  /** With the locks taken, the order ends as a booking as requested exactly if somebody can take it. */
  lemma {:induction false} OrderIsMetIfItCanBe(catalog: Catalog, w: World, txn: TxnId, roster: Roster, id: BookingId)
    requires HasAllLocks(w, txn) && w.txns[txn].order.service in catalog && id !in w.bookings
    ensures var o := w.txns[txn].order;
            var service := catalog[o.service];
            var after := Step(catalog, Step(catalog, w, LookAgain(txn, roster)), Insert(txn, id));
            && txn !in after.txns
            && (id in after.bookings <==> CanBeMet(service, w.bookings, roster, o))
            && (id in after.bookings ==>
                  var b := after.bookings[id];
                  && b.service == o.service && b.day == o.day && b.start == o.start && b.status == o.status
                  && b.end == AddMinutes(o.start, service.Total()) && b.staff.Some?
                  && (if o.staff.Some? && IsStillFree(service, w.bookings, o) then b.staff == o.staff
                      else CanTake(service, w.bookings, roster, o, b.staff.value)))
            && (forall j <- w.bookings :: j in after.bookings && after.bookings[j] == w.bookings[j])
  {
    var o := w.txns[txn].order;
    var service := catalog[o.service];
    var found := FindAvailableStaff(service, service.staff, roster, w.bookings, o.day, o.start, None, false);
    var looked := Step(catalog, w, LookAgain(txn, roster));
    assert found.Some? ==> CanTake(service, w.bookings, roster, o, found.value);
    assert Chosen(service, w.bookings, roster, o).Some? <==> CanBeMet(service, w.bookings, roster, o);
    assert looked.bookings == w.bookings;
  }

  // -------------------------------------------------------------------------
  // Finishing
  // -------------------------------------------------------------------------

  function Done(t: Txn): nat {
    match t.phase
    case Locking(taken) => taken
    case Ready(_) => |t.order.locks| + 1
  }

  /** The steps the open creations still have to make. */
  function Work(w: World): set<(TxnId, nat)> {
    set t, k | t in w.txns && k in Rest(w.txns[t]) :: (t, k)
  }

  function Rest(t: Txn): set<nat> {
    set k: nat | k < |t.order.locks| + 2 && IsLeft(t, k)
  }

  predicate IsLeft(t: Txn, k: nat) {
    Done(t) <= k
  }

  function NextStep(w: World, t: TxnId, roster: Roster, id: BookingId): Event
    requires t in w.txns
  {
    if w.txns[t].phase.Ready? then Insert(t, id)
    else if HasAllLocks(w, t) then LookAgain(t, roster)
    else TakeLock(t)
  }

  lemma {:induction false} FreshId(ids: set<BookingId>) returns (id: BookingId)
    ensures forall i <- ids :: i < id
  {
    id := 0;
    if i :| i in ids {
      var above := FreshId(ids - {i});
      id := if above > i then above else i + 1;
      assert forall j <- ids :: j == i || j in ids - {i};
    }
  }

  lemma ActingShrinksWork(catalog: Catalog, w: World, t: TxnId, roster: Roster, id: BookingId)
    requires Sound(catalog, w) && t in w.txns && CanAct(w, t) && id !in w.bookings
    ensures Work(Step(catalog, w, NextStep(w, t, roster, id))) < Work(w)
  {
    var after := Step(catalog, w, NextStep(w, t, roster, id));
    var k := Done(w.txns[t]);
    assert IsLeft(w.txns[t], k);
    assert (t, k) in Work(w);
    assert t in after.txns ==> Done(after.txns[t]) > k && |after.txns[t].order.locks| == |w.txns[t].order.locks|;
    forall p | p in Work(after) ensures p in Work(w) && p != (t, k) {
      assert p.1 in Rest(after.txns[p.0]) && IsLeft(after.txns[p.0], p.1);
      assert p.0 != t ==> after.txns[p.0] == w.txns[p.0];
      assert IsLeft(w.txns[p.0], p.1);
    }
  }

  lemma {:induction false} RunFromNext(catalog: Catalog, w: World, e: Event, rest: seq<Event>)
    ensures Run(catalog, w, [e] + rest) == Run(catalog, Step(catalog, w, e), rest)
  {
    var all := [e] + rest;
    if rest == [] {
      assert all[..0] == [];
    } else {
      RunFromNext(catalog, w, e, rest[..|rest| - 1]);
      assert all[..|all| - 1] == [e] + rest[..|rest| - 1];
    }
  }

  predicate IsCreationStep(e: Event) {
    e.TakeLock? || e.LookAgain? || e.Insert?
  }

  lemma {:induction false} FinishFrom(catalog: Catalog, w: World, roster: Roster) returns (events: seq<Event>)
    requires InIdOrder(catalog) && Sound(catalog, w)
    ensures Run(catalog, w, events).txns == map[]
    ensures forall k :: 0 <= k < |events| ==> IsCreationStep(events[k])
    decreases Work(w)
  {
    events := [];
    if t :| t in w.txns {
      var u := SomeoneCanAct(catalog, w, t);
      var id := FreshId(w.bookings.Keys);
      var e := NextStep(w, u, roster, id);
      ActingShrinksWork(catalog, w, u, roster, id);
      StepIsSound(catalog, w, e);
      var rest := FinishFrom(catalog, Step(catalog, w, e), roster);
      RunFromNext(catalog, w, e, rest);
      events := [e] + rest;
    }
  }

  /** From every reachable state, creation steps alone can end every open creation and free every lock. */
  lemma {:induction false} AllCreationsCanFinish(catalog: Catalog, events: seq<Event>, roster: Roster)
    returns (more: seq<Event>)
    requires InIdOrder(catalog)
    ensures forall k :: 0 <= k < |more| ==> IsCreationStep(more[k])
    ensures var w := Run(catalog, Run(catalog, EMPTY, events), more);
            w.txns == map[] && w.holder == map[]
  {
    RunIsSound(catalog, EMPTY, events);
    var w := Run(catalog, EMPTY, events);
    more := FinishFrom(catalog, w, roster);
    RunIsSound(catalog, w, more);
  }
}
