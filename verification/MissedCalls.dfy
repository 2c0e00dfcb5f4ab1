/**
Classification of an unanswered inbound leg. The code makes one pass over the candidates in
start order, carrying the latest end of the chain and leaving the loop early. Here the queue
attempt is defined without any order, as the least set of candidates closed under "rang with
us, or within one gap of a member", and the pass is proved to compute exactly that.
*/
module MissedCalls {
  import opened Clock
  import opened CallLegs

  datatype Query = Query(own: Leg, now: Instant, gap: int, directory: Directory) {

    /** A leg that has not ended yet counts as lasting until now. */
    function End(leg: Leg): Instant {
      leg.ended.GetOr(now)
    }

    function OwnEnd(): Instant {
      End(own)
    }

    /** Answered before our leg rang: somebody else's call, e.g. one then transferred to us. */
    predicate TakenBefore(leg: Leg) {
      leg.answered.Some? && leg.answered.value < own.started - RING_START_TOLERANCE
    }

    /** Both agents' queues are known and disjoint: the number is calling another queue. */
    predicate OtherQueue(leg: Leg) {
      var ours, theirs := directory.QueuesOf(own.agent), directory.QueuesOf(leg.agent);
      ours != {} && theirs != {} && ours !! theirs
    }

    /** Could be a leg of our attempt at all, whatever the other legs are. */
    predicate Eligible(leg: Leg) {
      && !TakenBefore(leg)
      && !OtherQueue(leg)
      && (leg.started < own.started ==> End(leg) >= own.started - SIBLING_SLACK)
    }

    predicate StillRinging(leg: Leg) {
      leg.ended.None? && !IsFinal(leg.status)
    }
  }

  function Ask(directory: Directory, own: Leg, now: Instant): Query {
    Query(own, now, AttemptGap(directory, directory.QueuesOf(own.agent)), directory)
  }

  // -------------------------------------------------------------------------
  // The queue attempt, without any order. A set of legs is a set of indices.
  // -------------------------------------------------------------------------

  /** Leg `i` rang with us, or starts within one gap of our end or of the end of a member. */
  ghost predicate Joins(q: Query, legs: seq<Leg>, i: nat, members: set<nat>)
    requires i < |legs|
  {
    || legs[i].started < q.own.started
    || legs[i].started <= q.OwnEnd() + q.gap
    || exists p :: p in members && p < |legs| && legs[i].started <= q.End(legs[p]) + q.gap
  }

  ghost predicate Closed(q: Query, legs: seq<Leg>, members: set<nat>) {
    forall i: nat :: i < |legs| && q.Eligible(legs[i]) && Joins(q, legs, i, members) ==> i in members
  }

  /** Leg `i` is in the least closed set, that is, in every closed set. */
  ghost predicate InAttempt(q: Query, legs: seq<Leg>, i: nat) {
    i < |legs| && forall members: set<nat> :: Closed(q, legs, members) ==> i in members
  }

  ghost predicate Answers(q: Query, legs: seq<Leg>, i: nat) {
    InAttempt(q, legs, i) && legs[i].answered.Some?
  }

  /** Some leg of the attempt still rings, or the next agent's leg may still start. */
  ghost predicate MayStillRing(q: Query, legs: seq<Leg>) {
    || q.now < q.OwnEnd() + q.gap
    || exists i: nat :: InAttempt(q, legs, i) && (q.StillRinging(legs[i]) || q.now < q.End(legs[i]) + q.gap)
  }

  datatype Verdict = AnsweredElsewhere(sibling: nat) | Pending | MissedCall

  /** What the verdict means; `sibling` is the index of the first leg that answers. */
  ghost predicate IsVerdict(q: Query, legs: seq<Leg>, v: Verdict) {
    match v
    case AnsweredElsewhere(i) =>
      Answers(q, legs, i) && forall j: nat :: Answers(q, legs, j) ==> i <= j
    case Pending =>
      (forall j: nat :: !Answers(q, legs, j)) && MayStillRing(q, legs)
    case MissedCall =>
      (forall j: nat :: !Answers(q, legs, j)) && !MayStillRing(q, legs)
  }

  /** Members are eligible: the set of all eligible legs is closed. */
  lemma MembersAreEligible(q: Query, legs: seq<Leg>, i: nat)
    requires InAttempt(q, legs, i)
    ensures q.Eligible(legs[i])
  {
    assert Closed(q, legs, set j: nat | j < |legs| && q.Eligible(legs[j]));
  }

  /** The attempt is itself closed, so it is the least closed set. */
  lemma AttemptIsClosed(q: Query, legs: seq<Leg>, i: nat, members: set<nat>)
    requires i < |legs| && q.Eligible(legs[i]) && Joins(q, legs, i, members)
    requires forall p :: p in members ==> InAttempt(q, legs, p)
    ensures InAttempt(q, legs, i)
  {
    forall other: set<nat> | Closed(q, legs, other) ensures i in other {
      assert Joins(q, legs, i, other);
    }
  }

  /** The pass: running chain end, skips, early return and early exit. */
  method Classify(q: Query, legs: seq<Leg>) returns (v: Verdict)
    requires Sorted(legs)
    ensures IsVerdict(q, legs, v)
  {
    var chainEnd := q.OwnEnd();
    var stillRinging := false;
    ghost var chain: set<nat> := {};
    var i := 0;
    while i < |legs|
      invariant 0 <= i <= |legs|
      invariant forall p :: p in chain ==> p < i && InAttempt(q, legs, p) && legs[p].answered.None?
      invariant forall p :: p in chain ==> q.End(legs[p]) <= chainEnd
      invariant q.OwnEnd() <= chainEnd
      invariant chainEnd == q.OwnEnd() || exists p :: p in chain && q.End(legs[p]) == chainEnd
      invariant stillRinging <==> exists p :: p in chain && q.StillRinging(legs[p])
      invariant forall p: nat :: p < i && q.Eligible(legs[p]) ==> p in chain
    {
      var leg := legs[i];
      if q.TakenBefore(leg) {
        i := i + 1;
        continue;
      }
      if leg.started < q.own.started {
        if q.End(leg) < q.own.started - SIBLING_SLACK {
          i := i + 1;
          continue;
        }
      } else if leg.started > chainEnd + q.gap {
        break;
      }
      if q.OtherQueue(leg) {
        i := i + 1;
        continue;
      }
      assert Joins(q, legs, i, chain);
      AttemptIsClosed(q, legs, i, chain);
      if leg.answered.Some? {
        forall j: nat | Answers(q, legs, j) ensures i <= j {
          MembersAreEligible(q, legs, j);
        }
        return AnsweredElsewhere(i);
      }
      chain := chain + {i};
      chainEnd := Max(chainEnd, q.End(leg));
      if q.StillRinging(leg) {
        stillRinging := true;
      }
      i := i + 1;
    }
    ChainIsTheAttempt(q, legs, i, chain, chainEnd);
    if stillRinging || q.now < chainEnd + q.gap {
      return Pending;
    }
    return MissedCall;
  }

  /** Where the pass stops, what it collected is closed: leaving early loses no leg. */
  lemma ChainIsTheAttempt(q: Query, legs: seq<Leg>, stop: nat, chain: set<nat>, chainEnd: Instant)
    requires Sorted(legs) && stop <= |legs|
    requires forall p :: p in chain ==> p < |legs| && q.End(legs[p]) <= chainEnd
    requires q.OwnEnd() <= chainEnd
    requires forall p: nat :: p < stop && q.Eligible(legs[p]) ==> p in chain
    requires stop < |legs| ==> legs[stop].started >= q.own.started && legs[stop].started > chainEnd + q.gap
    ensures forall i: nat :: InAttempt(q, legs, i) ==> i in chain
  {
    assert forall i: nat :: stop < i < |legs| ==> Before(legs[stop], legs[i]);
    assert Closed(q, legs, chain);
  }
}
