/** What customers get over whole runs of the reminder task, with bookings moved and confirmed in between. */
module ReminderRuns {
  import opened Options
  import opened Clock
  import opened Reminders

  /** One pass of the task over the booking that sent something, or tried to. `live`: its counter had not expired. */
  datatype Pass = Pass(kind: Kind, at: Instant, starts: Instant, move: nat, delivered: bool, saved: bool, live: bool)

  /** The booking, how often it was moved, and every pass made so far. */
  datatype Course = Course(visit: Visit, moves: nat, log: seq<Pass>)

  datatype Event =
    | Tick(now: Instant, settings: Settings, answer: Answer)
    | MoveTo(day: Day, start: TimeOfDay)
    | SetConfirmed(confirmed: bool)

  function PassMade(c: Course, now: Instant, kind: Kind, answer: Answer): Pass {
    var counter := c.visit.Tries(kind);
    Pass(kind, now, c.visit.Starts(), c.moves, answer.Delivered(), answer.saved,
         counter.Some? ==> now - counter.value.at < COUNTER_LIFE)
  }

  function Step(c: Course, e: Event): Course {
    match e
    case Tick(now, settings, answer) =>
      var due := DueReminder(c.visit, now, settings);
      Course(AfterTick(c.visit, now, settings, answer), c.moves,
             if due.Some? then c.log + [PassMade(c, now, due.value, answer)] else c.log)
    case MoveTo(day, start) =>
      Course(c.visit.(day := day, start := start, firstSent := false, secondSent := false), c.moves + 1, c.log)
    case SetConfirmed(confirmed) => c.(visit := c.visit.(confirmed := confirmed))
  }

  function Run(c: Course, events: seq<Event>): Course {
    if events == [] then c else Step(Run(c, events[..|events| - 1]), events[|events| - 1])
  }

  predicate IsNew(c: Course) {
    c.moves == 0 && c.log == [] && !c.visit.firstSent && !c.visit.secondSent
  }

  // -------------------------------------------------------------------------
  // Deliveries
  // -------------------------------------------------------------------------

  predicate Seals(p: Pass) {
    p.delivered && p.saved
  }

  /** The later pass does not repeat, or fall behind, a delivery that was saved. */
  predicate MayFollow(before: Pass, after: Pass) {
    before.move == after.move && Seals(before) ==> before.kind == First && after.kind == Second
  }

  ghost predicate InOrder(c: Course) {
    && (forall i :: 0 <= i < |c.log| ==>
          && c.log[i].move <= c.moves
          && (c.log[i].move == c.moves && Seals(c.log[i]) ==> c.visit.firstSent && c.visit.Sent(c.log[i].kind)))
    && (forall i, j :: 0 <= i < j < |c.log| ==> MayFollow(c.log[i], c.log[j]))
    && (c.visit.secondSent ==> c.visit.firstSent)
  }

  lemma StepKeepsOrder(c: Course, e: Event)
    requires InOrder(c)
    ensures InOrder(Step(c, e))
  {
    var after := Step(c, e);
    forall i, j | 0 <= i < j < |after.log| ensures MayFollow(after.log[i], after.log[j]) {
      if j < |c.log| {
        assert MayFollow(c.log[i], c.log[j]);
      }
    }
  }

  lemma {:induction false} RunKeepsOrder(c: Course, events: seq<Event>)
    requires InOrder(c)
    ensures InOrder(Run(c, events))
  {
    if events != [] {
      RunKeepsOrder(c, events[..|events| - 1]);
      StepKeepsOrder(Run(c, events[..|events| - 1]), events[|events| - 1]);
    }
  }

  /**
  For one date of the visit each reminder is delivered once, and no first after a second: a later pass of
  the same kind, or a first after a second, comes only where an earlier delivery could not be saved.
  */
  lemma RemindersAreNotRepeated(c: Course, events: seq<Event>, i: nat, j: nat)
    requires IsNew(c)
    ensures var log := Run(c, events).log;
            i < j < |log| && log[i].move == log[j].move && (log[i].kind == log[j].kind || log[i].kind == Second) ==>
              !log[i].delivered || !log[i].saved
  {
    RunKeepsOrder(c, events);
    var log := Run(c, events).log;
    if i < j < |log| {
      assert MayFollow(log[i], log[j]);
    }
  }

  lemma RunOneMore(c: Course, events: seq<Event>, e: Event)
    ensures Run(c, events + [e]) == Step(Run(c, events), e)
  {
    assert (events + [e])[..|events|] == events;
  }

  /** Confirmed, for 12:00 on the given day, with no reminder sent. */
  function VisitOn(day: Day): Course {
    Course(Visit(true, day, 12 * HOUR, None, false, false, None, None), 0, [])
  }

  /** A delivery that cannot be saved is repeated on the next run. */
  lemma UnsavedDeliveryIsRepeated()
    ensures var tick := Tick(At(3, 10 * HOUR), Settings(24, None), Answer(true, true, SmsSkipped, false));
            var log := Run(VisitOn(3), [tick, tick]).log;
            IsNew(VisitOn(3)) && |log| == 2 && log[0].delivered && log[1].delivered && log[0].kind == log[1].kind
  {
    var tick := Tick(At(3, 10 * HOUR), Settings(24, None), Answer(true, true, SmsSkipped, false));
    DayOfStart(3, 10 * HOUR);
    RunOneMore(VisitOn(3), [], tick);
    RunOneMore(VisitOn(3), [tick], tick);
    assert [] + [tick] == [tick] && [tick] + [tick] == [tick, tick];
    assert DueReminder(VisitOn(3).visit, tick.now, tick.settings) == Some(First);
  }

  // -------------------------------------------------------------------------
  // When they go out
  // -------------------------------------------------------------------------

  ghost predicate OnTime(p: Pass) {
    9 * HOUR <= TimeOf(p.at) < 21 * HOUR && p.at < p.starts
  }

  ghost predicate AllOnTime(log: seq<Pass>) {
    forall k :: 0 <= k < |log| ==> OnTime(log[k])
  }

  /** Reminders go out between 9:00 and 21:00 and before the visit starts, whatever happened before. */
  lemma {:induction false} RemindersGoOutOnTime(c: Course, events: seq<Event>)
    requires AllOnTime(c.log)
    ensures AllOnTime(Run(c, events).log)
  {
    if events != [] {
      RemindersGoOutOnTime(c, events[..|events| - 1]);
      var before, e := Run(c, events[..|events| - 1]), events[|events| - 1];
      assert Run(c, events) == Step(before, e);
    }
  }

  /**
  Each reminder has a span of its own: the second from its hours to the visit, the first from its hours to the
  second's.
  */
  predicate IsSpanOf(kind: Kind, v: Visit, now: Instant, settings: Settings) {
    var hours := if kind == Second then settings.secondHours.GetOr(0) else settings.firstHours;
    var until := if kind == Second then 0 else settings.secondHours.GetOr(0);
    v.Starts() - hours * HOUR <= now < v.Starts() - until * HOUR
      && (v.created.Some? ==> v.created.value <= v.Starts() - hours * HOUR)
  }

  /** With valid settings the spans do not meet, and in its span, by day, an unsent reminder is always due. */
  lemma DueExactlyInItsSpan(kind: Kind, v: Visit, now: Instant, settings: Settings)
    requires settings.IsValid()
    ensures DueReminder(v, now, settings) == Some(kind) <==>
              && v.confirmed && 9 * HOUR <= TimeOf(now) < 21 * HOUR
              && (if kind == First then !v.firstSent else !v.secondSent) && IsSpanOf(kind, v, now, settings)
    ensures IsSpanOf(First, v, now, settings) ==> !IsSpanOf(Second, v, now, settings)
  {
  }

  /** Hours of zero are no setting: a first reminder a day ahead, and no second one. */
  lemma ZeroHoursAreNoChoice(v: Visit, now: Instant, firstHours: int, second: Option<int>)
    ensures DueReminder(v, now, Settings(0, second)) == DueReminder(v, now, Settings(24, second))
    ensures DueReminder(v, now, Settings(firstHours, Some(0))) == DueReminder(v, now, Settings(firstHours, None))
    ensures IsFetched(v, now, Settings(0, second)) <==> IsFetched(v, now, Settings(24, second))
  {
  }

  /** Something was tried, and nothing got through. */
  predicate NothingGotThrough(answer: Answer) {
    && (answer.hasEmail || answer.sms == SmsFailed)
    && !(answer.hasEmail && answer.emailed) && answer.sms != SmsSent
  }

  /** Counted twice or more before, the last time less than two days ago. */
  predicate FailedTwice(counter: Option<Counter>, now: Instant) {
    counter.Some? && counter.value.count >= 2 && now < counter.value.at + 48 * HOUR
  }

  /**
  A pass settles its reminder exactly if that can be saved and it got through, had nothing to try, or failed a third
  time; a second settles the first with it. What fails is counted, and the visit itself stays as it is.
  */
  lemma PassSettlesIff(kind: Kind, v: Visit, now: Instant, settings: Settings, answer: Answer)
    requires settings.IsValid() && DueReminder(v, now, settings) == Some(kind)
    ensures var after := AfterTick(v, now, settings, answer);
            var failed := NothingGotThrough(answer);
            var settles := answer.saved && (failed ==> FailedTwice(v.Tries(kind), now));
            && after.firstSent == (v.firstSent || settles)
            && after.secondSent == (v.secondSent || (kind == Second && settles))
            && (!failed ==> after.firstTries == v.firstTries && after.secondTries == v.secondTries)
            && (failed ==> after.Tries(kind).Some? && after.Tries(kind).value.at == now
                           && (after.Tries(kind).value.count >= 3 <==> FailedTwice(v.Tries(kind), now)))
            && (kind == First ==> after.secondTries == v.secondTries)
            && (kind == Second ==> after.firstTries == v.firstTries)
            && after.confirmed == v.confirmed && after.day == v.day && after.start == v.start
            && after.created == v.created
  {
  }

  /** After a move both reminders are due in their spans before the new date, whatever was sent for the old one. */
  lemma MovingStartsOver(c: Course, day: Day, start: TimeOfDay, kind: Kind, now: Instant, settings: Settings)
    requires settings.IsValid()
    ensures var after := Step(c, MoveTo(day, start));
            && after.moves > c.moves && after.log == c.log
            && (DueReminder(after.visit, now, settings) == Some(kind) <==>
                  && c.visit.confirmed && 9 * HOUR <= TimeOf(now) < 21 * HOUR
                  && IsSpanOf(kind, c.visit.(day := day, start := start), now, settings))
  {
    DueExactlyInItsSpan(kind, Step(c, MoveTo(day, start)).visit, now, settings);
  }

  // -------------------------------------------------------------------------
  // Runs on which the settings stay as they are
  // -------------------------------------------------------------------------

  /** All ticks go by these settings and none is earlier than the one before it. */
  predicate IsSteady(events: seq<Event>, settings: Settings) {
    && (forall k :: 0 <= k < |events| && events[k].Tick? ==> events[k].settings == settings)
    && (forall k, l :: 0 <= k < l < |events| && events[k].Tick? && events[l].Tick? ==> events[k].now <= events[l].now)
  }

  /** The second is sent from its hours on, the first before that. */
  predicate IsOnItsSide(p: Pass, settings: Settings) {
    settings.secondHours.Some? ==> (p.kind == Second <==> p.at >= p.starts - settings.secondHours.value * HOUR)
  }

  /**
  Every pass so far was made on its side of the second's time, for the visit as it then was, and in order of time.
  */
  ghost predicate KeepsSides(c: Course, settings: Settings, until: Instant) {
    && (forall i :: 0 <= i < |c.log| ==>
          && IsOnItsSide(c.log[i], settings) && c.log[i].at <= until && c.log[i].move <= c.moves
          && (c.log[i].kind == Second ==> settings.secondHours.Some?)
          && (c.log[i].move == c.moves ==> c.log[i].starts == c.visit.Starts()))
    && (forall i, j :: 0 <= i < j < |c.log| ==>
          && c.log[i].at <= c.log[j].at
          && (c.log[i].move == c.log[j].move ==> c.log[i].starts == c.log[j].starts))
  }

  lemma StepKeepsSides(c: Course, e: Event, settings: Settings, until: Instant)
    requires settings.IsValid() && KeepsSides(c, settings, until)
    requires e.Tick? ==> e.settings == settings && e.now >= until
    ensures KeepsSides(Step(c, e), settings, if e.Tick? then e.now else until)
  {
    if e.Tick? {
      var due := DueReminder(c.visit, e.now, settings);
      if due.Some? {
        DueExactlyInItsSpan(due.value, c.visit, e.now, settings);
      }
    }
  }

  predicate TicksBy(events: seq<Event>, until: Instant) {
    forall k :: 0 <= k < |events| && events[k].Tick? ==> events[k].now <= until
  }

  lemma {:induction false} LatestTick(events: seq<Event>) returns (until: Instant)
    ensures TicksBy(events, until)
  {
    until := 0;
    if events != [] {
      until := LatestTick(events[..|events| - 1]);
      var last := events[|events| - 1];
      if last.Tick? && last.now > until {
        until := last.now;
      }
    }
  }

  lemma {:induction false} SteadyRunKeepsSides(c: Course, events: seq<Event>, settings: Settings, until: Instant)
    requires settings.IsValid() && IsNew(c) && IsSteady(events, settings) && TicksBy(events, until)
    ensures KeepsSides(Run(c, events), settings, until)
  {
    if events != [] {
      var before, last := events[..|events| - 1], events[|events| - 1];
      var now := if last.Tick? then last.now else until;
      SteadyRunKeepsSides(c, before, settings, now);
      StepKeepsSides(Run(c, before), last, settings, now);
    }
  }

  /**
  While valid settings stay as they are, no first reminder is sent, or tried, after a second for the same date, whatever
  could be delivered or saved: on every run, with moves and confirmations in between.
  */
  lemma NoFirstAfterSecond(c: Course, events: seq<Event>, settings: Settings, i: nat, j: nat)
    requires settings.IsValid() && IsNew(c) && IsSteady(events, settings)
    ensures var log := Run(c, events).log;
            i < j < |log| && log[i].kind == Second && log[i].move == log[j].move ==> log[j].kind == Second
  {
    var until := LatestTick(events);
    SteadyRunKeepsSides(c, events, settings, until);
    var log := Run(c, events).log;
    if i < j < |log| {
      assert IsOnItsSide(log[i], settings) && IsOnItsSide(log[j], settings) && log[i].at <= log[j].at;
    }
  }

  // -------------------------------------------------------------------------
  // Tries
  // -------------------------------------------------------------------------

  predicate IsTry(p: Pass, kind: Kind, move: nat) {
    p.kind == kind && p.move == move
  }

  function TriesIn(log: seq<Pass>, kind: Kind, move: nat): nat {
    if log == [] then 0
    else TriesIn(log[..|log| - 1], kind, move) + if IsTry(log[|log| - 1], kind, move) then 1 else 0
  }

  /** No save was lost among these tries, and each found the counter of the one before. */
  predicate Undisturbed(log: seq<Pass>, kind: Kind, move: nat) {
    forall k :: 0 <= k < |log| && IsTry(log[k], kind, move) ==> log[k].saved && log[k].live
  }

  ghost predicate Counted(c: Course, kind: Kind) {
    && (forall m: nat :: m > c.moves ==> TriesIn(c.log, kind, m) == 0)
    && (forall m: nat :: Undisturbed(c.log, kind, m) ==> TriesIn(c.log, kind, m) <= MAX_ATTEMPTS)
    && (Undisturbed(c.log, kind, c.moves) && !c.visit.Sent(kind) && TriesIn(c.log, kind, c.moves) > 0 ==>
          && TriesIn(c.log, kind, c.moves) < MAX_ATTEMPTS
          && c.visit.Tries(kind).Some? && c.visit.Tries(kind).value.count >= TriesIn(c.log, kind, c.moves))
  }

  lemma OnePassMore(log: seq<Pass>, p: Pass, kind: Kind, move: nat)
    ensures TriesIn(log + [p], kind, move) == TriesIn(log, kind, move) + if IsTry(p, kind, move) then 1 else 0
    ensures Undisturbed(log + [p], kind, move) <==>
              Undisturbed(log, kind, move) && (IsTry(p, kind, move) ==> p.saved && p.live)
  {
    var more := log + [p];
    assert more[..|more| - 1] == log;
    if Undisturbed(more, kind, move) {
      forall k | 0 <= k < |log| && IsTry(log[k], kind, move) ensures log[k].saved && log[k].live {
        assert more[k] == log[k];
      }
      assert more[|log|] == p;
    }
  }

  lemma TickKeepsCount(c: Course, now: Instant, settings: Settings, answer: Answer, kind: Kind)
    requires Counted(c, kind)
    ensures Counted(Step(c, Tick(now, settings, answer)), kind)
  {
    var due := DueReminder(c.visit, now, settings);
    if due.Some? {
      var p := PassMade(c, now, due.value, answer);
      forall m: nat
        ensures TriesIn(c.log + [p], kind, m) == TriesIn(c.log, kind, m) + if IsTry(p, kind, m) then 1 else 0
        ensures Undisturbed(c.log + [p], kind, m) <==>
                  Undisturbed(c.log, kind, m) && (IsTry(p, kind, m) ==> p.saved && p.live)
      {
        OnePassMore(c.log, p, kind, m);
      }
    }
  }

  lemma {:induction false} RunKeepsCount(c: Course, events: seq<Event>, kind: Kind)
    requires Counted(c, kind)
    ensures Counted(Run(c, events), kind)
  {
    if events != [] {
      var before := Run(c, events[..|events| - 1]);
      RunKeepsCount(c, events[..|events| - 1], kind);
      var e := events[|events| - 1];
      if e.Tick? {
        TickKeepsCount(before, e.now, e.settings, e.answer, kind);
      }
    }
  }

  /** For one date of the visit each reminder is tried at most three times, unless a save or a counter was lost. */
  lemma TriedAtMostThreeTimes(c: Course, events: seq<Event>, kind: Kind, move: nat)
    requires IsNew(c)
    ensures var log := Run(c, events).log;
            Undisturbed(log, kind, move) ==> TriesIn(log, kind, move) <= 3
  {
    RunKeepsCount(c, events, kind);
  }

  // -------------------------------------------------------------------------
  // When a reminder is tried again
  // -------------------------------------------------------------------------

  /** A pass leaves the reminder open: its flag could not be saved, or it failed and tries are left. */
  predicate LeavesOpen(v: Visit, kind: Kind, now: Instant, answer: Answer) {
    || !answer.saved
    || (!answer.Delivered() && answer.Failed() && LiveCount(v.Tries(kind), now) + 1 < MAX_ATTEMPTS)
  }

  /** After a pass the reminder is due again, at any moment of its span by day, exactly if the pass left it open. */
  lemma DueAgainIff(kind: Kind, v: Visit, now: Instant, now': Instant, settings: Settings, answer: Answer)
    requires settings.IsValid() && DueReminder(v, now, settings) == Some(kind)
    requires 9 * HOUR <= TimeOf(now') < 21 * HOUR && IsSpanOf(kind, v, now', settings)
    ensures DueReminder(AfterTick(v, now, settings, answer), now', settings) == Some(kind) <==>
              LeavesOpen(v, kind, now, answer)
  {
    DueExactlyInItsSpan(kind, v, now, settings);
    DueExactlyInItsSpan(kind, AfterTick(v, now, settings, answer), now', settings);
  }

  /** A pass for the same date, from entry `from` of the log on. */
  ghost predicate HasTry(log: seq<Pass>, from: nat, kind: Kind, move: nat) {
    exists j :: from <= j < |log| && IsTry(log[j], kind, move)
  }

  ghost predicate HasDelivery(log: seq<Pass>, from: nat, kind: Kind, move: nat) {
    exists j :: from <= j < |log| && IsTry(log[j], kind, move) && log[j].delivered
  }

  /** Once settled, a reminder is not tried again for that date, whatever runs, settings and answers follow. */
  lemma {:induction false} SettledIsOver(c: Course, events: seq<Event>, kind: Kind)
    requires c.visit.Sent(kind)
    ensures var r := Run(c, events);
            && |r.log| >= |c.log| && r.moves >= c.moves
            && (r.moves == c.moves ==> r.visit.Sent(kind))
            && !HasTry(r.log, |c.log|, kind, c.moves)
  {
    if events != [] {
      var before, e := Run(c, events[..|events| - 1]), events[|events| - 1];
      SettledIsOver(c, events[..|events| - 1], kind);
      var after := Step(before, e);
      forall j | |c.log| <= j < |after.log| ensures !IsTry(after.log[j], kind, c.moves) {
        if j < |before.log| {
          assert after.log[j] == before.log[j];
        }
      }
    }
  }

  /** A tick that delivers and is saved. */
  function Delivers(now: Instant, settings: Settings): Event {
    Tick(now, settings, Answer(true, true, SmsSkipped, true))
  }

  lemma DeliversWhatIsDue(c: Course, now: Instant, settings: Settings, kind: Kind)
    requires DueReminder(c.visit, now, settings) == Some(kind)
    ensures var r := Run(c, [Delivers(now, settings)]);
            HasDelivery(r.log, |c.log|, kind, c.moves) && HasTry(r.log, |c.log|, kind, c.moves)
  {
    var tick := Delivers(now, settings);
    assert [tick][..0] == [];
    assert Run(c, [tick]) == Step(c, tick);
    assert Step(c, tick).log[|c.log|] == PassMade(c, now, kind, tick.answer);
  }

  /**
  After a pass, some course of events delivers the same reminder for the same date exactly if the pass left
  it open; and some course tries it, exactly then. After a delivery that means: exactly if it was not saved.
  */
  lemma TriedAgainIff(c: Course, now: Instant, settings: Settings, answer: Answer, kind: Kind)
    requires settings.IsValid() && DueReminder(c.visit, now, settings) == Some(kind)
    ensures var next := Step(c, Tick(now, settings, answer));
            && ((exists more :: HasDelivery(Run(next, more).log, |next.log|, kind, c.moves)) <==>
                  LeavesOpen(c.visit, kind, now, answer))
            && ((exists more :: HasTry(Run(next, more).log, |next.log|, kind, c.moves)) <==>
                  LeavesOpen(c.visit, kind, now, answer))
            && (answer.Delivered() ==> (LeavesOpen(c.visit, kind, now, answer) <==> !answer.saved))
  {
    var next := Step(c, Tick(now, settings, answer));
    if LeavesOpen(c.visit, kind, now, answer) {
      DueExactlyInItsSpan(kind, c.visit, now, settings);
      DueAgainIff(kind, c.visit, now, now, settings, answer);
      DeliversWhatIsDue(next, now, settings, kind);
    } else {
      forall more ensures !HasTry(Run(next, more).log, |next.log|, kind, c.moves) {
        SettledIsOver(next, more, kind);
      }
    }
  }

  /**
  Where the settings may change, a first reminder can follow a second for the same date exactly if the second was left
  open and no first was settled: the second reminder is switched off in between.
  */
  lemma FirstFollowsSecondIff(c: Course, now: Instant, settings: Settings, answer: Answer)
    requires settings.IsValid() && DueReminder(c.visit, now, settings) == Some(Second)
    ensures var next := Step(c, Tick(now, settings, answer));
            (exists more :: HasDelivery(Run(next, more).log, |next.log|, First, c.moves)) <==>
              LeavesOpen(c.visit, Second, now, answer) && !c.visit.firstSent
  {
    var next := Step(c, Tick(now, settings, answer));
    if LeavesOpen(c.visit, Second, now, answer) && !c.visit.firstSent {
      var onlyFirst := Settings(settings.secondHours.value, None);
      assert DueReminder(next.visit, now, onlyFirst) == Some(First);
      DeliversWhatIsDue(next, now, onlyFirst, First);
    } else {
      forall more ensures !HasDelivery(Run(next, more).log, |next.log|, First, c.moves) {
        SettledIsOver(next, more, First);
      }
    }
  }

  lemma {:induction false} MoreTriesIff(log: seq<Pass>, longer: seq<Pass>, kind: Kind, move: nat)
    requires log <= longer
    ensures TriesIn(longer, kind, move) >= TriesIn(log, kind, move)
    ensures TriesIn(longer, kind, move) > TriesIn(log, kind, move) <==> HasTry(longer, |log|, kind, move)
  {
    if log == longer {
    } else {
      var n := |longer| - 1;
      var shorter := longer[..n];
      MoreTriesIff(log, shorter, kind, move);
      OnePassMore(shorter, longer[n], kind, move);
      assert longer == shorter + [longer[n]];
      forall j | |log| <= j < n ensures shorter[j] == longer[j] {
      }
      if HasTry(shorter, |log|, kind, move) {
        var j :| |log| <= j < |shorter| && IsTry(shorter[j], kind, move);
        assert IsTry(longer[j], kind, move);
      }
    }
  }

  lemma {:induction false} LogGrows(c: Course, events: seq<Event>)
    ensures c.log <= Run(c, events).log
  {
    if events != [] {
      LogGrows(c, events[..|events| - 1]);
    }
  }

  /**
  A fourth try for one date is possible exactly if the third left the reminder open: unsaved, or its counter was lost.
  */
  lemma FourthTryIff(c: Course, now: Instant, settings: Settings, answer: Answer, kind: Kind)
    requires settings.IsValid() && DueReminder(c.visit, now, settings) == Some(kind)
    requires TriesIn(c.log, kind, c.moves) == 2
    ensures var next := Step(c, Tick(now, settings, answer));
            && TriesIn(next.log, kind, c.moves) == 3
            && ((exists more :: TriesIn(Run(next, more).log, kind, c.moves) > 3) <==>
                  LeavesOpen(c.visit, kind, now, answer))
  {
    var next := Step(c, Tick(now, settings, answer));
    OnePassMore(c.log, PassMade(c, now, kind, answer), kind, c.moves);
    TriedAgainIff(c, now, settings, answer, kind);
    forall more
      ensures TriesIn(Run(next, more).log, kind, c.moves) > 3 <==>
                HasTry(Run(next, more).log, |next.log|, kind, c.moves)
    {
      LogGrows(next, more);
      MoreTriesIff(next.log, Run(next, more).log, kind, c.moves);
    }
    if LeavesOpen(c.visit, kind, now, answer) {
      var more :| HasTry(Run(next, more).log, |next.log|, kind, c.moves);
      assert TriesIn(Run(next, more).log, kind, c.moves) > 3;
    }
  }

  function FailingTick(day: Day): Event {
    Tick(At(day, 10 * HOUR), Settings(168, None), Answer(true, false, SmsSkipped, true))
  }

  lemma FailsAgain(c: Course, day: Day)
    requires 3 <= day <= 9 && c.moves == 0
    requires c.visit == VisitOn(9).visit.(firstTries := c.visit.firstTries)
    requires c.visit.firstTries.Some? ==> c.visit.firstTries.value.at == At(day - 2, 10 * HOUR)
    ensures var after := Step(c, FailingTick(day));
            && after.moves == 0 && TriesIn(after.log, First, 0) == TriesIn(c.log, First, 0) + 1
            && after.visit == c.visit.(firstTries := Some(Counter(1, At(day, 10 * HOUR))))
  {
    DayOfStart(day, 10 * HOUR);
    var tick := FailingTick(day);
    assert DueReminder(c.visit, tick.now, tick.settings) == Some(First);
    OnePassMore(c.log, PassMade(c, tick.now, First, tick.answer), First, 0);
  }

  /** Runs of the task two days apart find the counter gone: a reminder is tried a fourth time. */
  lemma ExpiredCounterAllowsAFourthTry()
    ensures IsNew(VisitOn(9))
    ensures var events := [FailingTick(3), FailingTick(5), FailingTick(7), FailingTick(9)];
            TriesIn(Run(VisitOn(9), events).log, First, 0) == 4
  {
    var events := [FailingTick(3), FailingTick(5), FailingTick(7), FailingTick(9)];
    assert events[..1] == [] + [events[0]] && events[..2] == events[..1] + [events[1]];
    assert events[..3] == events[..2] + [events[2]] && events == events[..3] + [events[3]];
    RunOneMore(VisitOn(9), [], events[0]);
    RunOneMore(VisitOn(9), events[..1], events[1]);
    RunOneMore(VisitOn(9), events[..2], events[2]);
    RunOneMore(VisitOn(9), events[..3], events[3]);
    FailsAgain(VisitOn(9), 3);
    FailsAgain(Run(VisitOn(9), events[..1]), 5);
    FailsAgain(Run(VisitOn(9), events[..2]), 7);
    FailsAgain(Run(VisitOn(9), events[..3]), 9);
  }
}
