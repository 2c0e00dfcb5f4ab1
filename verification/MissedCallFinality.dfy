/**
A leg classified against the whole call table, and the stability of the answer: once a leg is
missed it stays missed, and the delayed task reaches a decision within its bounded re-queues.
*/
module MissedCallFinality {
  import opened Clock
  import opened Options
  import opened Phones
  import opened CallLegs
  import opened MissedCalls

  const MAX_DEFERS: nat := 5
  const NOTIFY_DELAY := 15 * SECOND

  function Candidates(d: Directory, table: seq<Leg>, own: Leg, now: Instant): seq<Leg> {
    Fetch(table, own, own.ended.GetOr(now), AttemptSpan(d, d.QueuesOf(own.agent)), MAX_CANDIDATES)
  }

  /** Without a caller number, or once answered here, no other leg is looked at. */
  predicate Undecidable(own: Leg) {
    LastDigits(own.caller) == "" || own.answered.Some?
  }

  ghost predicate VerdictFor(d: Directory, table: seq<Leg>, own: Leg, now: Instant, v: Verdict) {
    if Undecidable(own) then v == MissedCall
    else IsVerdict(Ask(d, own, now), Candidates(d, table, own, now), v)
  }

  method MissedCallState(d: Directory, table: seq<Leg>, own: Leg, now: Instant)
    returns (v: Verdict, sibling: Option<Leg>)
    requires Sorted(table)
    ensures VerdictFor(d, table, own, now, v)
    ensures sibling.Some? <==> v.AnsweredElsewhere?
    ensures sibling.Some? ==>
              && v.sibling < |Candidates(d, table, own, now)|
              && sibling.value == Candidates(d, table, own, now)[v.sibling]
              && sibling.value in table && sibling.value.answered.Some? && sibling.value.pk != own.pk
  {
    if Undecidable(own) {
      return MissedCall, None;
    }
    var span := AttemptSpan(d, d.QueuesOf(own.agent));
    var legs := Fetch(table, own, own.ended.GetOr(now), span, MAX_CANDIDATES);
    FetchKeepsOrder(table, own, own.ended.GetOr(now), span, MAX_CANDIDATES);
    FetchedFromTable(table, own, own.ended.GetOr(now), span, MAX_CANDIDATES);
    v := Classify(Ask(d, own, now), legs);
    sibling := None;
    if v.AnsweredElsewhere? {
      sibling := Some(legs[v.sibling]);
    }
  }

  // -------------------------------------------------------------------------
  // "Missed" is final
  // -------------------------------------------------------------------------

  /** What may still happen to a leg: an unended one is answered or ends later, an ended one is done. */
  ghost predicate Later(before: Leg, after: Leg, now: Instant) {
    && after.pk == before.pk && after.caller == before.caller && after.inbound == before.inbound
    && after.started == before.started && after.agent == before.agent
    && (before.answered.Some? ==> after.answered == before.answered)
    && (before.answered.None? && after.answered.Some? ==> after.answered.value >= now)
    && (before.ended.None? && after.ended.Some? ==> after.ended.value >= now)
    && (before.ended.Some? ==> after.ended == before.ended && after.answered == before.answered)
  }

  /** The table after `now`: old rows evolve, new rows start strictly later. */
  ghost predicate Evolves(before: seq<Leg>, after: seq<Leg>, now: Instant) {
    && |before| <= |after|
    && (forall i :: 0 <= i < |before| ==> Later(before[i], after[i], now))
    && (forall i :: |before| <= i < |after| ==> after[i].started > now)
  }

  lemma TailsEvolve(before: seq<Leg>, after: seq<Leg>, now: Instant)
    requires Evolves(before, after, now) && before != []
    ensures Later(before[0], after[0], now) && Evolves(before[1..], after[1..], now)
  {
  }

  lemma HeadsEvolve(b: Leg, before: seq<Leg>, a: Leg, after: seq<Leg>, now: Instant)
    requires Later(b, a, now) && Evolves(before, after, now)
    ensures Evolves([b] + before, [a] + after, now)
  {
  }

  lemma NewLegsEvolve(after: seq<Leg>, now: Instant, own: Leg, ownEnd: Instant, span: int, limit: nat)
    requires Evolves([], after, now)
    ensures Evolves([], Fetch(after, own, ownEnd, span, limit), now)
  {
    var found := Fetch(after, own, ownEnd, span, limit);
    FetchedFromTable(after, own, ownEnd, span, limit);
    forall i | 0 <= i < |found| ensures found[i].started > now {
      assert found[i] in after;
    }
  }

  lemma {:induction false} FetchEvolves(before: seq<Leg>, after: seq<Leg>, now: Instant,
                                        own: Leg, ownEnd: Instant, span: int, limit: nat)
    requires Evolves(before, after, now)
    ensures Evolves(Fetch(before, own, ownEnd, span, limit), Fetch(after, own, ownEnd, span, limit), now)
    decreases |after|
  {
    if before == [] {
      NewLegsEvolve(after, now, own, ownEnd, span, limit);
    } else if limit > 0 {
      TailsEvolve(before, after, now);
      if IsCandidate(before[0], own, ownEnd, span) {
        FetchEvolves(before[1..], after[1..], now, own, ownEnd, span, limit - 1);
        HeadsEvolve(before[0], Fetch(before[1..], own, ownEnd, span, limit - 1),
                    after[0], Fetch(after[1..], own, ownEnd, span, limit - 1), now);
      } else {
        FetchEvolves(before[1..], after[1..], now, own, ownEnd, span, limit);
      }
    }
  }

  /** In a missed attempt every member has ended, and its gap has passed. */
  lemma MissedMembersAreOver(q: Query, legs: seq<Leg>, i: nat)
    requires q.gap > 0
    requires IsVerdict(q, legs, MissedCall) && InAttempt(q, legs, i)
    ensures legs[i].ended.Some? && legs[i].answered.None? && q.End(legs[i]) + q.gap <= q.now
  {
    assert !Answers(q, legs, i);
  }

  /** The members of a missed attempt stay exactly a closed set of the later table. */
  lemma MissedAttemptStaysClosed(q: Query, legs: seq<Leg>, q': Query, legs': seq<Leg>, members: set<nat>)
    requires q' == q.(now := q'.now) && q.now <= q'.now
    requires q.gap > 0 && q.own.started <= q.now && q.own.ended.Some?
    requires Evolves(legs, legs', q.now)
    requires IsVerdict(q, legs, MissedCall)
    requires members == set i: nat | i < |legs| && InAttempt(q, legs, i)
    ensures Closed(q', legs', members)
  {
    forall i: nat | i < |legs'| && q'.Eligible(legs'[i]) && Joins(q', legs', i, members) ensures i in members {
      forall p | p in members ensures q'.End(legs'[p]) == q.End(legs[p]) && q.End(legs[p]) + q.gap <= q.now {
        MissedMembersAreOver(q, legs, p);
        assert Later(legs[p], legs'[p], q.now);
      }
      assert q.OwnEnd() + q.gap <= q.now;
      assert legs'[i].started <= q.now;
      assert i < |legs|;
      assert Later(legs[i], legs'[i], q.now);
      assert Joins(q, legs, i, members);
      AttemptIsClosed(q, legs, i, members);
    }
  }

  lemma MissedStaysMissed(q: Query, legs: seq<Leg>, q': Query, legs': seq<Leg>, v: Verdict)
    requires q' == q.(now := q'.now) && q.now <= q'.now
    requires q.gap > 0 && q.own.started <= q.now && q.own.ended.Some?
    requires Evolves(legs, legs', q.now)
    requires IsVerdict(q, legs, MissedCall) && IsVerdict(q', legs', v)
    ensures v == MissedCall
  {
    var members := set i: nat | i < |legs| && InAttempt(q, legs, i);
    MissedAttemptStaysClosed(q, legs, q', legs', members);
    forall i: nat | InAttempt(q', legs', i)
      ensures i < |legs| && legs'[i].answered.None? && legs'[i].ended.Some? && q'.End(legs'[i]) + q'.gap <= q'.now
    {
      assert i in members;
      MissedMembersAreOver(q, legs, i);
      assert Later(legs[i], legs'[i], q.now);
    }
    assert !MayStillRing(q', legs');
  }

  /**
  Once a leg is missed at `now`, no later evaluation says anything else, whatever new legs start
  and however the unended ones go on.
  */
  lemma MissedIsFinal(d: Directory, table: seq<Leg>, now: Instant, table': seq<Leg>, now': Instant,
                      own: Leg, v: Verdict)
    requires own.started <= now <= now'
    requires Evolves(table, table', now)
    requires VerdictFor(d, table, own, now, MissedCall)
    requires VerdictFor(d, table', own, now', v)
    ensures v == MissedCall
  {
    if !Undecidable(own) {
      var q, q' := Ask(d, own, now), Ask(d, own, now');
      var legs, legs' := Candidates(d, table, own, now), Candidates(d, table', own, now');
      assert own.ended.Some?;
      FetchEvolves(table, table', now, own, own.ended.value, AttemptSpan(d, d.QueuesOf(own.agent)), MAX_CANDIDATES);
      MissedStaysMissed(q, legs, q', legs', v);
    }
  }

  // -------------------------------------------------------------------------
  // "Answered elsewhere" is final
  // -------------------------------------------------------------------------

  /** The attempt only grows: later ends reach at least as far. */
  lemma AttemptGrows(q: Query, legs: seq<Leg>, q': Query, legs': seq<Leg>, i: nat)
    requires q' == q.(now := q'.now) && q.own.started <= q.now <= q'.now
    requires Evolves(legs, legs', q.now)
    requires InAttempt(q, legs, i)
    ensures InAttempt(q', legs', i)
  {
    forall wider: set<nat> | Closed(q', legs', wider) ensures i in wider {
      var members := set j | j in wider && j < |legs|;
      forall j: nat | j < |legs| && q.Eligible(legs[j]) && Joins(q, legs, j, members) ensures j in members {
        assert Later(legs[j], legs'[j], q.now);
        assert forall p :: p in members ==> Later(legs[p], legs'[p], q.now) && q.End(legs[p]) <= q'.End(legs'[p]);
        assert Joins(q', legs', j, wider);
      }
      assert Closed(q, legs, members);
    }
  }

  /** Once a colleague has answered the attempt of an ended leg, every later evaluation agrees. */
  lemma AnsweredElsewhereIsFinal(d: Directory, table: seq<Leg>, now: Instant, table': seq<Leg>, now': Instant,
                                 own: Leg, v: Verdict, v': Verdict)
    requires own.started <= now <= now' && own.ended.Some?
    requires Evolves(table, table', now)
    requires VerdictFor(d, table, own, now, v) && v.AnsweredElsewhere?
    requires VerdictFor(d, table', own, now', v')
    ensures v'.AnsweredElsewhere? && v'.sibling <= v.sibling
  {
    var q, q' := Ask(d, own, now), Ask(d, own, now');
    var legs, legs' := Candidates(d, table, own, now), Candidates(d, table', own, now');
    FetchEvolves(table, table', now, own, own.ended.value, AttemptSpan(d, d.QueuesOf(own.agent)), MAX_CANDIDATES);
    AttemptGrows(q, legs, q', legs', v.sibling);
    assert Later(legs[v.sibling], legs'[v.sibling], now);
    assert Answers(q', legs', v.sibling);
  }

  // -------------------------------------------------------------------------
  // A pending leg is decided
  // -------------------------------------------------------------------------

  /** Every leg of the table has ended by now. */
  ghost predicate AllOver(table: seq<Leg>, now: Instant) {
    forall leg <- table :: leg.ended.Some? && leg.ended.value <= now
  }

  /** How long the delayed task waits before it looks again: a gap, which is always longer than the usual delay. */
  function RetryAfter(d: Directory, own: Leg): (wait: int)
    ensures wait == AttemptGap(d, d.QueuesOf(own.agent))
  {
    Max(NOTIFY_DELAY, AttemptGap(d, d.QueuesOf(own.agent)))
  }

  /** With all legs over, the attempt does not depend on the moment it is looked at. */
  lemma AttemptIsSettled(q: Query, legs: seq<Leg>, q': Query, i: nat)
    requires q' == q.(now := q'.now) && q.own.ended.Some?
    requires forall k: nat :: k < |legs| ==> legs[k].ended.Some?
    requires InAttempt(q', legs, i)
    ensures InAttempt(q, legs, i)
  {
    forall members: set<nat> | Closed(q, legs, members) ensures i in members {
      forall j: nat | j < |legs| && q'.Eligible(legs[j]) && Joins(q', legs, j, members) ensures j in members {
        assert q.Eligible(legs[j]) && Joins(q, legs, j, members);
      }
      assert Closed(q', legs, members);
    }
  }

  /** If nobody is rung meanwhile, one wait is enough: the next look finds a pending leg missed. */
  lemma NextLookDecides(d: Directory, table: seq<Leg>, own: Leg, now: Instant, now': Instant, v: Verdict, v': Verdict)
    requires own.ended.Some? && own.ended.value <= now && AllOver(table, now)
    requires now' >= now + RetryAfter(d, own)
    requires VerdictFor(d, table, own, now, v) && v.Pending?
    requires VerdictFor(d, table, own, now', v')
    ensures v'.MissedCall?
  {
    var q, q' := Ask(d, own, now), Ask(d, own, now');
    var legs := Candidates(d, table, own, now);
    assert legs == Candidates(d, table, own, now');
    FetchedFromTable(table, own, own.ended.value, AttemptSpan(d, d.QueuesOf(own.agent)), MAX_CANDIDATES);
    forall k: nat | k < |legs| ensures legs[k].ended.Some? && legs[k].ended.value <= now {
      assert legs[k] in legs;
    }
    forall j: nat | InAttempt(q', legs, j) ensures InAttempt(q, legs, j) {
      AttemptIsSettled(q, legs, q', j);
    }
    forall j: nat ensures !Answers(q', legs, j) {
      assert !Answers(q, legs, j);
    }
  }

  // -------------------------------------------------------------------------
  // The delayed task
  // -------------------------------------------------------------------------

  /** What one run of the task finds: the call table, the leg itself as it is by then, and the moment. */
  datatype Look = Look(table: seq<Leg>, own: Leg, now: Instant)

  /** The leg counts as missed, and its attempt may still ring a colleague. */
  ghost predicate MustWait(d: Directory, look: Look) {
    && look.own.inbound && look.own.status in {Missed, NoAnswer}
    && VerdictFor(d, look.table, look.own, look.now, Pending)
  }

  /** How long to wait before looking again, or None to decide now. */
  method MissedCallRetry(d: Directory, look: Look) returns (wait: Option<int>)
    requires Sorted(look.table)
    ensures wait.Some? <==> MustWait(d, look)
    ensures wait.Some? ==> wait.value == RetryAfter(d, look.own)
  {
    if !look.own.inbound || !IsMissed(look.own.status) {
      return None;
    }
    var v, _ := MissedCallState(d, look.table, look.own, look.now);
    OneVerdict(d, look, v);
    if v != Pending {
      return None;
    }
    return Some(Max(NOTIFY_DELAY, AttemptGap(d, d.QueuesOf(look.own.agent))));
  }

  lemma OneVerdict(d: Directory, look: Look, v: Verdict)
    requires VerdictFor(d, look.table, look.own, look.now, v)
    ensures VerdictFor(d, look.table, look.own, look.now, Pending) <==> v == Pending
  {
  }

  /**
  The task classifies the leg on the table of its current run and re-queues itself while the attempt may still
  ring, at most MAX_DEFERS times. `looks[k]` is what its k-th run finds.
  */
  method NotifyMissedCall(d: Directory, looks: seq<Look>, attempt: nat) returns (decidedAt: nat)
    requires attempt <= MAX_DEFERS < |looks|
    requires forall k :: 0 <= k < |looks| ==> Sorted(looks[k].table)
    ensures attempt <= decidedAt <= 5
    ensures forall k :: attempt <= k < decidedAt ==> MustWait(d, looks[k])
    ensures MustWait(d, looks[decidedAt]) ==> decidedAt == 5
    decreases MAX_DEFERS - attempt
  {
    decidedAt := attempt;
    if attempt < MAX_DEFERS {
      var wait := MissedCallRetry(d, looks[attempt]);
      if wait.Some? {
        decidedAt := NotifyMissedCall(d, looks, attempt + 1);
      }
    }
  }
}
