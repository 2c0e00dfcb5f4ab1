/**
The numbers behind the missed-call verdict: the timing of an attempt, the legs that are looked at, and what two other
legs decide, in seconds and statuses.
*/
module MissedCallMeaning {
  import opened Clock
  import opened Options
  import opened Phones
  import opened CallLegs
  import opened MissedCalls
  import opened MissedCallFinality

  // -------------------------------------------------------------------------
  // Timing
  // -------------------------------------------------------------------------

  /** The agent of the leg is a member of the queue. */
  predicate IsAgentIn(d: Directory, leg: Leg, queue: QueueId) {
    leg.agent.Some? && leg.agent.value in d.memberships && queue in d.memberships[leg.agent.value]
  }

  /** A row of the queues table that is for one of the agent's queues. */
  predicate IsQueueOf(d: Directory, leg: Leg, row: QueueTiming) {
    row in d.queues && IsAgentIn(d, leg, row.id)
  }

  /** Null and negative settings count as nothing. */
  function Seconds(setting: Option<int>): nat {
    if setting.Some? && setting.value > 0 then setting.value else 0
  }

  lemma {:induction false} RowsAreTheQueues(queues: seq<QueueTiming>, ids: set<QueueId>)
    ensures forall row :: row in Rows(queues, ids) <==> row in queues && row.id in ids
  {
    if queues != [] {
      RowsAreTheQueues(queues[1..], ids);
    }
  }

  lemma {:induction false} LongestTimeoutIsReached(rows: seq<QueueTiming>)
    ensures forall row <- rows :: Seconds(row.timeout) <= LongestTimeout(rows)
    ensures rows != [] ==> exists row <- rows :: Seconds(row.timeout) == LongestTimeout(rows)
  {
    if rows != [] {
      LongestTimeoutIsReached(rows[1..]);
      assert rows[0] in rows;
    }
  }

  lemma {:induction false} LongestWaitIsReached(rows: seq<QueueTiming>)
    ensures forall row <- rows :: Seconds(row.maxWait) <= LongestWait(rows)
    ensures rows != [] ==> exists row <- rows :: Seconds(row.maxWait) == LongestWait(rows)
  {
    if rows != [] {
      LongestWaitIsReached(rows[1..]);
      assert rows[0] in rows;
    }
  }

  function GapOf(d: Directory, leg: Leg): int {
    AttemptGap(d, d.QueuesOf(leg.agent))
  }

  function SpanOf(d: Directory, leg: Leg): int {
    AttemptSpan(d, d.QueuesOf(leg.agent))
  }

  /** The gap is the longest ring timeout of the agent's queues and half a minute, or a minute without queues. */
  lemma GapIsTheLongest(d: Directory, leg: Leg)
    ensures (forall row :: !IsQueueOf(d, leg, row)) ==> GapOf(d, leg) == 60 * SECOND
    ensures forall row :: IsQueueOf(d, leg, row) ==> (Seconds(row.timeout) + 30) * SECOND <= GapOf(d, leg)
    ensures (exists row :: IsQueueOf(d, leg, row)) ==>
              exists row :: IsQueueOf(d, leg, row) && GapOf(d, leg) == (Seconds(row.timeout) + 30) * SECOND
  {
    var ids := d.QueuesOf(leg.agent);
    RowsAreTheQueues(d.queues, ids);
    var rows := Rows(d.queues, ids);
    assert forall row :: row in rows <==> IsQueueOf(d, leg, row);
    LongestTimeoutIsReached(rows);
    if row :| IsQueueOf(d, leg, row) {
      assert row in rows;
      var longest :| longest in rows && Seconds(longest.timeout) == LongestTimeout(rows);
      assert IsQueueOf(d, leg, longest);
    }
  }

  /** The span is one gap and the longest wait of the agent's queues, or five minutes where none is set. */
  lemma SpanIsTheLongest(d: Directory, leg: Leg)
    ensures var wait := SpanOf(d, leg) - GapOf(d, leg);
            && ((forall row :: IsQueueOf(d, leg, row) ==> Seconds(row.maxWait) == 0) ==> wait == 300 * SECOND)
            && ((exists row :: IsQueueOf(d, leg, row) && Seconds(row.maxWait) > 0) ==>
                  && (forall row :: IsQueueOf(d, leg, row) ==> Seconds(row.maxWait) * SECOND <= wait)
                  && exists row :: IsQueueOf(d, leg, row) && wait == Seconds(row.maxWait) * SECOND)
  {
    var ids := d.QueuesOf(leg.agent);
    RowsAreTheQueues(d.queues, ids);
    var rows := Rows(d.queues, ids);
    assert forall row :: row in rows <==> IsQueueOf(d, leg, row);
    LongestWaitIsReached(rows);
    if rows != [] {
      var longest :| longest in rows && Seconds(longest.maxWait) == LongestWait(rows);
      assert IsQueueOf(d, leg, longest);
    }
  }

  // -------------------------------------------------------------------------
  // The legs that are looked at
  // -------------------------------------------------------------------------

  /** The same last seven digits; numbers with fewer have to be equal. */
  predicate IsSameNumber(theirs: string, ours: string) {
    var digits := LastDigits(ours);
    if |digits| < 7 then theirs == ours else |theirs| >= 7 && theirs[|theirs| - 7..] == digits
  }

  /** Another inbound leg of the number, from two minutes before ours to the end of the span after it. */
  predicate IsInReach(d: Directory, own: Leg, now: Instant, leg: Leg) {
    var ownEnd := if own.ended.Some? then own.ended.value else now;
    && leg.inbound && leg.pk != own.pk && IsSameNumber(leg.caller, own.caller)
    && own.started - 120 * SECOND <= leg.started <= ownEnd + SpanOf(d, own)
  }

  /** Of all legs in reach the first two hundred are looked at: none is missed, and none comes before them. */
  lemma CandidatesAreInReach(d: Directory, table: seq<Leg>, own: Leg, now: Instant)
    requires Sorted(table)
    ensures var legs := Candidates(d, table, own, now);
            && |legs| <= 200 && Sorted(legs)
            && (forall leg <- legs :: leg in table && IsInReach(d, own, now, leg))
            && (forall leg <- table :: IsInReach(d, own, now, leg) && leg !in legs ==>
                  |legs| == 200 && forall other <- legs :: Before(other, leg))
  {
    var ownEnd := own.ended.GetOr(now);
    FetchedFromTable(table, own, ownEnd, SpanOf(d, own), MAX_CANDIDATES);
    FetchKeepsOrder(table, own, ownEnd, SpanOf(d, own), MAX_CANDIDATES);
    FetchTakesTheFirst(table, own, ownEnd, SpanOf(d, own), MAX_CANDIDATES);
    LastDigitsEndTheNumber(own.caller);
    forall leg ensures IsCandidate(leg, own, ownEnd, SpanOf(d, own)) <==> IsInReach(d, own, now, leg) {
    }
  }

  // -------------------------------------------------------------------------
  // What two other legs decide
  // -------------------------------------------------------------------------

  function EndOf(leg: Leg, now: Instant): Instant {
    if leg.ended.Some? then leg.ended.value else now
  }

  /** Both agents have queues, and no queue in common. */
  ghost predicate AreApart(d: Directory, a: Leg, b: Leg) {
    && (exists queue :: IsAgentIn(d, a, queue))
    && (exists queue :: IsAgentIn(d, b, queue))
    && forall queue :: !(IsAgentIn(d, a, queue) && IsAgentIn(d, b, queue))
  }

  /**
  Part of our attempt, which lasts until `until` so far: not answered over two seconds before ours rang, not over by
  five seconds before, not of other queues, and started before ours or within a gap.
  */
  ghost predicate Rings(d: Directory, own: Leg, leg: Leg, until: Instant, now: Instant) {
    && !(leg.answered.Some? && leg.answered.value < own.started - 2 * SECOND)
    && !(leg.started < own.started && EndOf(leg, now) < own.started - 5 * SECOND)
    && !AreApart(d, own, leg)
    && (leg.started < own.started || leg.started <= until + GapOf(d, own))
  }

  function Longer(a: Instant, b: Instant): Instant {
    if a > b then a else b
  }

  /** The leg has not ended, or a gap after its end has not passed. Its status makes no difference. */
  predicate IsOpen(d: Directory, own: Leg, leg: Leg, now: Instant) {
    leg.ended.None? || now < leg.ended.value + GapOf(d, own)
  }

  lemma EligibleIff(d: Directory, own: Leg, leg: Leg, until: Instant, now: Instant)
    ensures Rings(d, own, leg, until, now) <==>
              Ask(d, own, now).Eligible(leg) && (leg.started < own.started || leg.started <= until + GapOf(d, own))
  {
    var ours, theirs := d.QueuesOf(own.agent), d.QueuesOf(leg.agent);
    assert forall queue :: queue in ours <==> IsAgentIn(d, own, queue);
    assert forall queue :: queue in theirs <==> IsAgentIn(d, leg, queue);
    if ours != {} {
      var queue :| queue in ours;
    }
    if theirs != {} {
      var queue :| queue in theirs;
    }
  }

  lemma AttemptOfTwo(d: Directory, own: Leg, legs: seq<Leg>, now: Instant)
    requires |legs| == 2 && Sorted(legs)
    ensures var q, ownEnd := Ask(d, own, now), EndOf(own, now);
            var first := Rings(d, own, legs[0], ownEnd, now);
            var until := if first then Longer(ownEnd, EndOf(legs[0], now)) else ownEnd;
            && (InAttempt(q, legs, 0) <==> first)
            && (InAttempt(q, legs, 1) <==> Rings(d, own, legs[1], until, now))
  {
    var q, ownEnd := Ask(d, own, now), EndOf(own, now);
    var first := Rings(d, own, legs[0], ownEnd, now);
    var until := if first then Longer(ownEnd, EndOf(legs[0], now)) else ownEnd;
    var second := Rings(d, own, legs[1], until, now);
    EligibleIff(d, own, legs[0], ownEnd, now);
    EligibleIff(d, own, legs[1], until, now);
    if first {
      AttemptIsClosed(q, legs, 0, {});
    }
    if second {
      AttemptIsClosed(q, legs, 1, if first then {0} else {});
    }
    var members: set<nat> := (if first then {0} else {}) + (if second then {1} else {});
    assert Before(legs[0], legs[1]);
    assert Closed(q, legs, members);
  }

  /**
  The verdict on a leg that two others are looked at for: answered elsewhere by the first of them that is part of the
  attempt and was answered; else pending while ours or one of those lasts or may still be followed; else missed.
  */
  lemma TwoLegsDecide(d: Directory, table: seq<Leg>, own: Leg, a: Leg, b: Leg, now: Instant, v: Verdict)
    requires Sorted(table) && Candidates(d, table, own, now) == [a, b]
    requires LastDigits(own.caller) != "" && own.answered.None?
    requires VerdictFor(d, table, own, now, v)
    ensures var ownEnd := EndOf(own, now);
            var first := Rings(d, own, a, ownEnd, now);
            var second := Rings(d, own, b, if first then Longer(ownEnd, EndOf(a, now)) else ownEnd, now);
            v == if first && a.answered.Some? then AnsweredElsewhere(0)
                 else if second && b.answered.Some? then AnsweredElsewhere(1)
                 else if || now < ownEnd + GapOf(d, own)
                         || (first && IsOpen(d, own, a, now))
                         || (second && IsOpen(d, own, b, now)) then Pending
                 else MissedCall
  {
    var q, legs := Ask(d, own, now), [a, b];
    CandidatesAreInReach(d, table, own, now);
    AttemptOfTwo(d, own, legs, now);
    assert forall i: nat :: InAttempt(q, legs, i) ==> i == 0 || i == 1;
    assert Answers(q, legs, 0) <==> InAttempt(q, legs, 0) && a.answered.Some?;
    assert Answers(q, legs, 1) <==> InAttempt(q, legs, 1) && b.answered.Some?;
    StillOpenIff(d, own, a, now);
    StillOpenIff(d, own, b, now);
  }

  lemma StillOpenIff(d: Directory, own: Leg, leg: Leg, now: Instant)
    ensures var q := Ask(d, own, now);
            q.StillRinging(leg) || q.now < q.End(leg) + q.gap <==> IsOpen(d, own, leg, now)
  {
  }

  /** Without a caller's digits, or answered here, a leg is never anybody else's. */
  lemma NoOtherLegCounts(d: Directory, table: seq<Leg>, own: Leg, now: Instant, v: Verdict)
    requires Digits(own.caller) == "" || own.answered.Some?
    ensures VerdictFor(d, table, own, now, v) <==> v == MissedCall
  {
    LastDigitsEndTheNumber(own.caller);
  }
}
