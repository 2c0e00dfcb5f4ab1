/**
The two slot lists, the customers' and the staff's. Both walk over the staff members and their
candidate start times and collect who is free in a table by time. What they list is proved to be
what the validator accepts.
*/
module Slots {
  import opened Options
  import opened Clock
  import opened Staffing

  /** Which list: the customers', or the staff's with a booking being moved, a cut-off and a grid of its own. */
  datatype Listing =
    | ForCustomers(window: Window, now: Instant)
    | ForStaff(exclude: Option<BookingId>, notBefore: Option<Instant>, step: Option<nat>)

  /** Everything else a list is made from. */
  datatype Request = Request(listing: Listing, service: Service, roster: Roster, bookings: Bookings, day: Day) {

    /** The grid of the list: the service's own, unless staff ask for another step. */
    predicate IsCandidate(hours: Hours, m: MinuteOfDay) {
      if listing.ForStaff? && service.kind.DurationBased? && listing.step.Some? && listing.step.value > 0
      then InSteps(TimeToMinutes(hours.start), TimeToMinutes(hours.end), listing.step.value, m)
      else OnGrid(service, hours, m)
    }

    predicate InTime(t: TimeOfDay) {
      match listing
      case ForCustomers(window, now) => CheckBookingWindow(window, now, day, t) == Accepted
      case ForStaff(_, notBefore, _) => notBefore.Some? ==> At(day, t) >= notBefore.value
    }

    function Exclude(): Option<BookingId> {
      match listing
      case ForCustomers(_, _) => None
      case ForStaff(exclude, _, _) => exclude
    }

    predicate Keeps(hours: Hours, s: StaffId, m: MinuteOfDay) {
      var t := MinutesToTime(m);
      && FitsWorkingHours(hours, t, service.Total())
      && InTime(t)
      && !IsSlotBooked(bookings, s, day, t, service.Total(), Exclude())
    }

    /** The list offers staff member `s` at minute `m`. */
    predicate Offers(s: StaffId, m: MinuteOfDay) {
      match Availability(roster, s, day)
      case None => false
      case Some(hours) => IsCandidate(hours, m) && Keeps(hours, s, m)
    }

    /** Whose times are listed; `inOrder` is the order the roster of the service comes in. */
    function Listed(staff: Option<StaffId>, inOrder: seq<StaffId>): seq<StaffId> {
      match staff
      case Some(s) => if listing.ForStaff? || StaffCanPerform(service, roster, s) then [s] else []
      case None => ActiveOf(roster, inOrder)
    }
  }

  function ActiveOf(roster: Roster, staff: seq<StaffId>): (active: seq<StaffId>)
    ensures forall s :: s in active <==> s in staff && s in roster.active
  {
    if staff == [] then []
    else if staff[0] in roster.active then [staff[0]] + ActiveOf(roster, staff[1..])
    else ActiveOf(roster, staff[1..])
  }

  /** One entry: the start, the end without the buffer, the first free staff member and all of them. */
  datatype Slot = Slot(minute: MinuteOfDay, end: TimeOfDay, staff: StaffId, available: seq<StaffId>)

  type Table = map<MinuteOfDay, seq<StaffId>>

  // -------------------------------------------------------------------------
  // Building a list
  // -------------------------------------------------------------------------

  method CandidateStartTimes(r: Request, hours: Hours) returns (times: seq<MinuteOfDay>)
    ensures forall m: MinuteOfDay :: m in times <==> r.IsCandidate(hours, m)
  {
    times := [];
    match r.service.kind
    case Unlisted =>
    case FixedSlots(configured) =>
      for k := 0 to |configured|
        invariant forall m: MinuteOfDay :: m in times <==> Some(m) in configured[..k]
      {
        if configured[k].Some? {
          times := times + [configured[k].value];
        }
      }
    case DurationBased =>
      var step := GridStep(r.service);
      if r.listing.ForStaff? && r.listing.step.Some? && r.listing.step.value > 0 {
        step := r.listing.step.value;
      }
      times := Steps(TimeToMinutes(hours.start), TimeToMinutes(hours.end), step);
  }

  method Steps(first: nat, end: nat, step: nat) returns (times: seq<MinuteOfDay>)
    requires step > 0 && end <= MINUTES_PER_DAY
    ensures forall m: MinuteOfDay :: m in times <==> InSteps(first, end, step, m)
  {
    times := [];
    var m := first;
    while m < end
      invariant first <= m && (m - first) % step == 0
      invariant forall x: MinuteOfDay :: x in times <==> InSteps(first, end, step, x) && x < m
      decreases end - m
    {
      forall x: MinuteOfDay | m < x < m + step ensures !InSteps(first, end, step, x) {
        NoStepBetween(m - first, x - first, step);
      }
      NextStep(m - first, step);
      times := times + [m];
      m := m + step;
    }
  }

  lemma Multiples(k: int, step: int)
    requires step > 0
    ensures k >= 1 ==> k * step >= step
    ensures k <= 0 ==> k * step <= 0
    ensures k <= -1 ==> k * step <= -step
  {
  }

  lemma {:induction false} NoStepBetween(d: int, e: int, step: nat)
    requires step > 0 && d % step == 0 && d < e < d + step
    ensures e % step != 0
  {
    var k := e / step - d / step;
    assert e - d == k * step + e % step;
    Multiples(k, step);
  }

  lemma {:induction false} NextStep(d: int, step: nat)
    requires step > 0 && d % step == 0
    ensures (d + step) % step == 0
  {
    var k := (d + step) / step - d / step - 1;
    assert 0 == k * step + (d + step) % step;
    Multiples(k, step);
  }

  type Relation = (StaffId, MinuteOfDay) -> bool

  /** Who the table has at minute `m`; nobody where it has no entry. */
  function Entry(table: Table, m: MinuteOfDay): seq<StaffId> {
    if m in table then table[m] else []
  }

  /** `s` is offered at `m`, and nobody before it is. */
  ghost predicate IsFirst(offers: Relation, listed: seq<StaffId>, m: MinuteOfDay, s: StaffId) {
    exists i :: 0 <= i < |listed| && listed[i] == s && offers(s, m) && forall j :: 0 <= j < i ==> !offers(listed[j], m)
  }

  /** Exactly the listed staff members offered at `m`, the first of them in front. */
  ghost predicate IsEntry(offers: Relation, listed: seq<StaffId>, m: MinuteOfDay, entry: seq<StaffId>) {
    && (forall s :: s in entry <==> s in listed && offers(s, m))
    && (entry != [] ==> IsFirst(offers, listed, m, entry[0]))
  }

  ghost predicate Collected(offers: Relation, listed: seq<StaffId>, table: Table) {
    && (forall m <- table :: table[m] != [])
    && (forall m: MinuteOfDay :: IsEntry(offers, listed, m, Entry(table, m)))
  }

  /** `after` is `before` with `s` put at its end, once or more, exactly if `s` is offered then. */
  predicate Extends(offered: bool, s: StaffId, before: seq<StaffId>, after: seq<StaffId>) {
    && before <= after
    && (offered <==> before != after)
    && forall k :: |before| <= k < |after| ==> after[k] == s
  }

  /** One staff member's free times are added to the table. */
  method AddStaffMember(r: Request, s: StaffId, before: Table) returns (table: Table)
    requires forall m <- before :: before[m] != []
    ensures forall m <- table :: table[m] != []
    ensures forall m: MinuteOfDay :: Extends(r.Offers(s, m), s, Entry(before, m), Entry(table, m))
  {
    table := before;
    var availability := Availability(r.roster, s, r.day);
    if availability.None? {
      return;
    }
    var times := CandidateStartTimes(r, availability.value);
    for k := 0 to |times|
      invariant forall m <- table :: table[m] != []
      invariant forall m: MinuteOfDay ::
                  Extends(m in times[..k] && r.Offers(s, m), s, Entry(before, m), Entry(table, m))
    {
      var m := times[k];
      if r.Keeps(availability.value, s, m) {
        assert r.Offers(s, m);
        table := table[m := Entry(table, m) + [s]];
      }
    }
  }

  lemma OneMoreEntry(offers: Relation, listed: seq<StaffId>, s: StaffId, m: MinuteOfDay,
                     before: seq<StaffId>, after: seq<StaffId>)
    requires IsEntry(offers, listed, m, before) && Extends(offers(s, m), s, before, after)
    ensures IsEntry(offers, listed + [s], m, after)
  {
    var more := listed + [s];
    if before != [] {
      var i :| 0 <= i < |listed| && listed[i] == before[0] && offers(before[0], m)
               && forall j :: 0 <= j < i ==> !offers(listed[j], m);
      assert more[i] == after[0];
      assert forall j :: 0 <= j < i ==> more[j] == listed[j];
    } else if after != [] {
      assert forall j :: 0 <= j < |listed| ==> listed[j] in listed && more[j] == listed[j];
      assert more[|listed|] == after[0];
    }
    forall x ensures x in after <==> x in more && offers(x, m) {
      if x in after && x !in before {
        assert x == s;
      }
      if x == s && offers(s, m) {
        assert after[|before|] == s;
      }
      if x in before {
        var k :| 0 <= k < |before| && before[k] == x;
        assert after[k] == x;
      }
    }
  }

  method CollectFreeStaff(r: Request, listed: seq<StaffId>) returns (table: Table)
    ensures Collected(r.Offers, listed, table)
  {
    table := map[];
    for i := 0 to |listed|
      invariant Collected(r.Offers, listed[..i], table)
    {
      var before := table;
      table := AddStaffMember(r, listed[i], before);
      assert listed[..i + 1] == listed[..i] + [listed[i]];
      forall m: MinuteOfDay ensures IsEntry(r.Offers, listed[..i + 1], m, Entry(table, m)) {
        OneMoreEntry(r.Offers, listed[..i], listed[i], m, Entry(before, m), Entry(table, m));
      }
    }
    assert listed[..|listed|] == listed;
  }

  /** Entries in the order of their times. */
  predicate Ascending(slots: seq<Slot>) {
    forall i, j :: 0 <= i < j < |slots| ==> slots[i].minute < slots[j].minute
  }

  predicate HasEntry(slots: seq<Slot>, m: MinuteOfDay) {
    exists k :: 0 <= k < |slots| && slots[k].minute == m
  }

  ghost predicate Lists(slots: seq<Slot>, m: MinuteOfDay, s: StaffId) {
    exists k :: 0 <= k < |slots| && slots[k].minute == m && s in slots[k].available
  }

  function SlotAt(service: Service, m: MinuteOfDay, free: seq<StaffId>): Slot
    requires free != []
  {
    Slot(m, AddMinutes(MinutesToTime(m), service.duration), free[0], free)
  }

  predicate FromTable(service: Service, table: Table, slot: Slot) {
    slot.minute in table && table[slot.minute] != [] && slot == SlotAt(service, slot.minute, table[slot.minute])
  }

  /** "HH:MM", the key a time is collected under. */
  function Label(m: MinuteOfDay): seq<char> {
    [Digit(m / 60 / 10), Digit(m / 60 % 10), ':', Digit(m % 60 / 10), Digit(m % 60 % 10)]
  }

  function Digit(d: nat): char
    requires d < 10
  {
    '0' + d as char
  }

  /** Text order, on texts of one length. */
  predicate TextBefore(a: seq<char>, b: seq<char>)
    requires |a| == |b|
  {
    a != [] && (a[0] < b[0] || (a[0] == b[0] && TextBefore(a[1..], b[1..])))
  }

  /** Two digits, then more text: the number decides, and the rest only if the numbers are equal. */
  lemma TwoDigitsDecide(m: nat, n: nat, x: seq<char>, y: seq<char>)
    requires m < 100 && n < 100 && |x| == |y|
    ensures var a, b := [Digit(m / 10), Digit(m % 10)] + x, [Digit(n / 10), Digit(n % 10)] + y;
            TextBefore(a, b) <==> m < n || (m == n && TextBefore(x, y))
  {
    var a, b := [Digit(m / 10), Digit(m % 10)] + x, [Digit(n / 10), Digit(n % 10)] + y;
    assert a[1..][1..] == x && b[1..][1..] == y;
    assert TextBefore(a[1..], b[1..]) <==> m % 10 < n % 10 || (m % 10 == n % 10 && TextBefore(x, y));
  }

  /** Sorting the keys as texts sorts the times, and no two times share a key. */
  lemma LabelsSortAsTimes(a: MinuteOfDay, b: MinuteOfDay)
    ensures TextBefore(Label(a), Label(b)) <==> a < b
  {
    var x, y := Label(a)[3..], Label(b)[3..];
    assert Label(a) == [Digit(a / 60 / 10), Digit(a / 60 % 10)] + ([':'] + x);
    assert Label(b) == [Digit(b / 60 / 10), Digit(b / 60 % 10)] + ([':'] + y);
    TwoDigitsDecide(a / 60, b / 60, [':'] + x, [':'] + y);
    assert ([':'] + x)[1..] == x && ([':'] + y)[1..] == y;
    assert x == [Digit(a % 60 / 10), Digit(a % 60 % 10)] + [] && y == [Digit(b % 60 / 10), Digit(b % 60 % 10)] + [];
    TwoDigitsDecide(a % 60, b % 60, [], []);
  }

  /** The entries of a table, by time. */
  method InTimeOrder(service: Service, table: Table) returns (slots: seq<Slot>)
    requires forall m <- table :: table[m] != []
    ensures Ascending(slots)
    ensures forall k :: 0 <= k < |slots| ==> FromTable(service, table, slots[k])
    ensures forall m: MinuteOfDay :: m in table ==> HasEntry(slots, m)
  {
    slots := [];
    for m := 0 to MINUTES_PER_DAY
      invariant Ascending(slots)
      invariant forall k :: 0 <= k < |slots| ==> slots[k].minute < m && FromTable(service, table, slots[k])
      invariant forall x: MinuteOfDay :: x in table && x < m ==> HasEntry(slots, x)
    {
      if m in table {
        var before := slots;
        slots := before + [SlotAt(service, m, table[m])];
        assert slots[|before|].minute == m;
        forall x: MinuteOfDay | x in table && x < m ensures HasEntry(slots, x) {
          var k :| 0 <= k < |before| && before[k].minute == x;
          assert slots[k].minute == x;
        }
      }
    }
  }

  lemma OrderedTableLists(offers: Relation, listed: seq<StaffId>, table: Table, service: Service, slots: seq<Slot>)
    requires Collected(offers, listed, table)
    requires forall k :: 0 <= k < |slots| ==> FromTable(service, table, slots[k])
    requires forall m: MinuteOfDay :: m in table ==> HasEntry(slots, m)
    ensures forall m: MinuteOfDay, s :: Lists(slots, m, s) <==> s in listed && offers(s, m)
    ensures forall k :: 0 <= k < |slots| ==>
              slots[k].staff in slots[k].available && IsFirst(offers, listed, slots[k].minute, slots[k].staff)
  {
    forall k | 0 <= k < |slots|
      ensures slots[k].available == Entry(table, slots[k].minute) && slots[k].staff == slots[k].available[0]
      ensures IsEntry(offers, listed, slots[k].minute, slots[k].available)
    {
      assert FromTable(service, table, slots[k]);
    }
    forall m: MinuteOfDay, s | s in listed && offers(s, m) ensures Lists(slots, m, s) {
      assert IsEntry(offers, listed, m, Entry(table, m));
      assert HasEntry(slots, m);
    }
  }

  /** The slot list: strictly ascending, and exactly the staff members free at exactly the offered times. */
  method GenerateSlots(r: Request, staff: Option<StaffId>, inOrder: seq<StaffId>) returns (slots: seq<Slot>)
    ensures Ascending(slots)
    ensures forall m: MinuteOfDay, s :: Lists(slots, m, s) <==> s in r.Listed(staff, inOrder) && r.Offers(s, m)
    ensures forall k :: 0 <= k < |slots| ==>
              && slots[k].end == AddMinutes(MinutesToTime(slots[k].minute), r.service.duration)
              && slots[k].staff in slots[k].available
              && IsFirst(r.Offers, r.Listed(staff, inOrder), slots[k].minute, slots[k].staff)
  {
    var listed := r.Listed(staff, inOrder);
    var table := CollectFreeStaff(r, listed);
    slots := InTimeOrder(r.service, table);
    OrderedTableLists(r.Offers, listed, table, r.service, slots);
  }
}
