/** How much one staff member can be booked in one day. */
module DayLoad {
  import opened BookingStatus
  import opened Options
  import opened Clock
  import opened Staffing
  import opened BookingRun
  import opened BookingSafety

  /** The active bookings of a staff member on a day. */
  function BookedOn(bookings: Bookings, staff: StaffId, day: Day): set<BookingId> {
    set i <- bookings | IsActive(bookings[i].status) && bookings[i].staff == Some(staff) && bookings[i].day == day
  }

  function Length(catalog: Catalog, b: Booking): int {
    if b.service in catalog then catalog[b.service].Total() else 0
  }

  /** Service and buffer minutes of the bookings `ids`, added up. */
  ghost function Minutes(catalog: Catalog, bookings: Bookings, ids: set<BookingId>): int
    requires ids <= bookings.Keys
  {
    if ids == {} then 0
    else
      var i :| i in ids;
      Length(catalog, bookings[i]) + Minutes(catalog, bookings, ids - {i})
  }

  lemma {:induction false} MinutesWithout(catalog: Catalog, bookings: Bookings, ids: set<BookingId>, x: BookingId)
    requires ids <= bookings.Keys && x in ids
    ensures Minutes(catalog, bookings, ids) == Length(catalog, bookings[x]) + Minutes(catalog, bookings, ids - {x})
  {
    var i :| i in ids
             && Minutes(catalog, bookings, ids) == Length(catalog, bookings[i]) + Minutes(catalog, bookings, ids - {i});
    if i != x {
      MinutesWithout(catalog, bookings, ids - {i}, x);
      MinutesWithout(catalog, bookings, ids - {x}, i);
      assert ids - {i} - {x} == ids - {x} - {i};
    }
  }

  /** Every booking runs for its length, and no two share a moment. */
  ghost predicate AreApart(catalog: Catalog, bookings: Bookings, ids: set<BookingId>)
    requires ids <= bookings.Keys
  {
    && (forall i <- ids :: Length(catalog, bookings[i]) >= 0
                           && bookings[i].end == bookings[i].start + Length(catalog, bookings[i]) * MINUTE)
    && (forall i, j :: i in ids && j in ids && i != j ==>
                         bookings[i].end <= bookings[j].start || bookings[j].end <= bookings[i].start)
  }

  lemma {:induction false} LastToEnd(bookings: Bookings, ids: set<BookingId>) returns (last: BookingId)
    requires ids <= bookings.Keys && ids != {}
    ensures last in ids && forall i <- ids :: bookings[i].end <= bookings[last].end
  {
    last :| last in ids;
    if ids != {last} {
      var other := LastToEnd(bookings, ids - {last});
      if bookings[other].end > bookings[last].end {
        last := other;
      }
    }
  }

  /** Taking the last booking away, the others end before it starts. */
  lemma {:induction false} MinutesFit(catalog: Catalog, bookings: Bookings, ids: set<BookingId>, limit: nat)
    requires ids <= bookings.Keys && AreApart(catalog, bookings, ids)
    requires forall i <- ids :: bookings[i].end <= limit
    ensures Minutes(catalog, bookings, ids) * MINUTE <= limit
    decreases ids
  {
    if ids != {} {
      if x :| x in ids && Length(catalog, bookings[x]) == 0 {
        MinutesWithout(catalog, bookings, ids, x);
        MinutesFit(catalog, bookings, ids - {x}, limit);
      } else {
        var last := LastToEnd(bookings, ids);
        MinutesWithout(catalog, bookings, ids, last);
        MinutesFit(catalog, bookings, ids - {last}, bookings[last].start);
      }
    }
  }

  /** On every run, the active bookings of one staff member on one day take less than the day's 1440 minutes. */
  lemma DayIsNotOverbooked(catalog: Catalog, events: seq<Event>, staff: StaffId, day: Day)
    requires InIdOrder(catalog) && forall s <- catalog :: catalog[s].Total() >= 0
    ensures var bookings := Run(catalog, EMPTY, events).bookings;
            Minutes(catalog, bookings, BookedOn(bookings, staff, day)) < MINUTES_PER_DAY
  {
    RunIsSound(catalog, EMPTY, events);
    var bookings := Run(catalog, EMPTY, events).bookings;
    var ids := BookedOn(bookings, staff, day);
    forall i | i in ids ensures bookings[i].end == bookings[i].start + Length(catalog, bookings[i]) * MINUTE {
      StoredEndIsTheRealEnd(catalog, events, i);
    }
    forall i, j | i in ids && j in ids && i != j
      ensures bookings[i].end <= bookings[j].start || bookings[j].end <= bookings[i].start
    {
      assert !Clash(bookings[i], bookings[j]);
    }
    MinutesFit(catalog, bookings, ids, DAY - 1);
  }
}
