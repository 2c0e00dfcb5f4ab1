/**
Re-labelling the legs that were answered elsewhere. One pass re-reads the table for every leg
it visits, after having changed earlier rows; the result is nevertheless the same for every
visiting order, because a re-label never changes how another leg is classified.
*/
module Relabelling {
  import opened Clock
  import opened Phones
  import opened CallLegs
  import opened MissedCalls
  import opened MissedCallFinality
  import opened MissedCallMeaning

  /** Another leg of the same queue attempt answered. */
  ghost predicate HasAnsweredSibling(d: Directory, table: seq<Leg>, own: Leg, now: Instant) {
    && !Undecidable(own)
    && exists i: nat :: Answers(Ask(d, own, now), Candidates(d, table, own, now), i)
  }

  lemma VerdictDecides(d: Directory, table: seq<Leg>, own: Leg, now: Instant, v: Verdict)
    requires VerdictFor(d, table, own, now, v)
    ensures v.AnsweredElsewhere? <==> HasAnsweredSibling(d, table, own, now)
  {
    if v.AnsweredElsewhere? {
      assert Answers(Ask(d, own, now), Candidates(d, table, own, now), v.sibling);
    }
  }

  function Relabel(leg: Leg): Leg {
    leg.(status := Cancelled)
  }

  /** All picked rows with an answered sibling are re-labelled at once, and no others. */
  ghost function Relabelled(d: Directory, table: seq<Leg>, picked: set<nat>, now: Instant): (after: seq<Leg>)
    ensures |after| == |table|
  {
    seq(|table|, i requires 0 <= i < |table| =>
      if i in picked && HasAnsweredSibling(d, table, table[i], now) then Relabel(table[i]) else table[i])
  }

  lemma RelabelledAreCancelled(d: Directory, table: seq<Leg>, picked: set<nat>, now: Instant, i: nat)
    requires i < |table|
    ensures Relabelled(d, table, picked, now)[i] ==
            if i in picked && HasAnsweredSibling(d, table, table[i], now)
            then table[i].(status := Cancelled) else table[i]
  {
  }

  /** One visit, judged on the table as it is by then. */
  ghost function RelabelOne(d: Directory, table: seq<Leg>, i: nat, now: Instant): seq<Leg>
    requires i < |table|
  {
    if HasAnsweredSibling(d, table, table[i], now) then table[i := Relabel(table[i])] else table
  }

  predicate IndicesOf(order: seq<nat>, n: nat) {
    forall k :: 0 <= k < |order| ==> order[k] < n
  }

  ghost function RelabelInOrder(d: Directory, table: seq<Leg>, order: seq<nat>, now: Instant): (after: seq<Leg>)
    requires IndicesOf(order, |table|)
    ensures |after| == |table|
  {
    if order == [] then table
    else
      var last := |order| - 1;
      RelabelOne(d, RelabelInOrder(d, table, order[..last], now), order[last], now)
  }

  // -------------------------------------------------------------------------
  // A re-label changes no classification
  // -------------------------------------------------------------------------

  ghost predicate SameButStatus(a: Leg, b: Leg) {
    a.(status := b.status) == b
  }

  ghost predicate SameButStatuses(a: seq<Leg>, b: seq<Leg>) {
    |a| == |b| && forall i :: 0 <= i < |a| ==> SameButStatus(a[i], b[i])
  }

  lemma {:induction false} FetchIgnoresStatus(a: seq<Leg>, b: seq<Leg>, own: Leg, own': Leg,
                                              ownEnd: Instant, span: int, limit: nat)
    requires SameButStatuses(a, b) && SameButStatus(own, own')
    ensures SameButStatuses(Fetch(a, own, ownEnd, span, limit), Fetch(b, own', ownEnd, span, limit))
  {
    if a != [] && limit > 0 {
      assert SameButStatus(a[0], b[0]);
      var rest := if IsCandidate(a[0], own, ownEnd, span) then limit - 1 else limit;
      FetchIgnoresStatus(a[1..], b[1..], own, own', ownEnd, span, rest);
    }
  }

  lemma MemberIgnoresStatus(q: Query, a: seq<Leg>, q': Query, b: seq<Leg>, i: nat)
    requires SameButStatuses(a, b) && q' == q.(own := q'.own) && SameButStatus(q.own, q'.own)
    requires InAttempt(q, a, i)
    ensures InAttempt(q', b, i)
  {
    forall members: set<nat> | Closed(q', b, members) ensures i in members {
      forall j: nat | j < |a| && q.Eligible(a[j]) && Joins(q, a, j, members) ensures j in members {
        assert SameButStatus(a[j], b[j]);
        assert forall p: nat :: p < |a| ==> SameButStatus(a[p], b[p]) && q.End(a[p]) == q'.End(b[p]);
        assert Joins(q', b, j, members);
      }
      assert Closed(q, a, members);
    }
  }

  lemma AttemptIgnoresStatus(q: Query, a: seq<Leg>, q': Query, b: seq<Leg>, i: nat)
    requires SameButStatuses(a, b) && q' == q.(own := q'.own) && SameButStatus(q.own, q'.own)
    requires Answers(q, a, i)
    ensures Answers(q', b, i)
  {
    MemberIgnoresStatus(q, a, q', b, i);
    assert SameButStatus(a[i], b[i]);
  }

  lemma SiblingIgnoresStatus(d: Directory, a: seq<Leg>, b: seq<Leg>, own: Leg, own': Leg, now: Instant)
    requires SameButStatuses(a, b) && SameButStatus(own, own')
    requires HasAnsweredSibling(d, a, own, now)
    ensures HasAnsweredSibling(d, b, own', now)
  {
    var q, q' := Ask(d, own, now), Ask(d, own', now);
    var legs, legs' := Candidates(d, a, own, now), Candidates(d, b, own', now);
    FetchIgnoresStatus(a, b, own, own', own.ended.GetOr(now), AttemptSpan(d, d.QueuesOf(own.agent)), MAX_CANDIDATES);
    var i: nat :| Answers(q, legs, i);
    AttemptIgnoresStatus(q, legs, q', legs', i);
  }

  lemma SameSiblings(d: Directory, a: seq<Leg>, b: seq<Leg>, i: nat, now: Instant)
    requires SameButStatuses(a, b) && i < |a|
    ensures HasAnsweredSibling(d, a, a[i], now) <==> HasAnsweredSibling(d, b, b[i], now)
  {
    assert SameButStatus(a[i], b[i]) && SameButStatus(b[i], a[i]);
    if HasAnsweredSibling(d, a, a[i], now) {
      SiblingIgnoresStatus(d, a, b, a[i], b[i], now);
    }
    if HasAnsweredSibling(d, b, b[i], now) {
      assert forall j :: 0 <= j < |a| ==> SameButStatus(a[j], b[j]);
      SiblingIgnoresStatus(d, b, a, b[i], a[i], now);
    }
  }

  /** A leg without an end lasts until now, so its gap is still running: its status does not matter. */
  lemma MayRingIgnoresStatus(q: Query, a: seq<Leg>, q': Query, b: seq<Leg>)
    requires SameButStatuses(a, b) && q' == q.(own := q'.own) && SameButStatus(q.own, q'.own)
    requires q.gap > 0 && MayStillRing(q, a)
    ensures MayStillRing(q', b)
  {
    if q.now >= q.OwnEnd() + q.gap {
      var i: nat :| InAttempt(q, a, i) && (q.StillRinging(a[i]) || q.now < q.End(a[i]) + q.gap);
      MemberIgnoresStatus(q, a, q', b, i);
      assert SameButStatus(a[i], b[i]);
    }
  }

  lemma VerdictIgnoresStatus(q: Query, a: seq<Leg>, q': Query, b: seq<Leg>, v: Verdict)
    requires SameButStatuses(a, b) && q' == q.(own := q'.own) && SameButStatus(q.own, q'.own)
    requires q.gap > 0 && IsVerdict(q, a, v)
    ensures IsVerdict(q', b, v)
  {
    assert SameButStatuses(b, a) && SameButStatus(q'.own, q.own) by {
      assert forall i :: 0 <= i < |a| ==> SameButStatus(a[i], b[i]);
    }
    forall i: nat ensures Answers(q, a, i) <==> Answers(q', b, i) {
      if Answers(q, a, i) {
        AttemptIgnoresStatus(q, a, q', b, i);
      }
      if Answers(q', b, i) {
        AttemptIgnoresStatus(q', b, q, a, i);
      }
    }
    if MayStillRing(q, a) {
      MayRingIgnoresStatus(q, a, q', b);
    }
    if MayStillRing(q', b) {
      MayRingIgnoresStatus(q', b, q, a);
    }
  }

  /** Every verdict is the same on both tables: answered elsewhere with the same sibling, pending or missed. */
  lemma SameVerdicts(d: Directory, a: seq<Leg>, b: seq<Leg>, own: Leg, own': Leg, now: Instant, v: Verdict)
    requires SameButStatuses(a, b) && SameButStatus(own, own')
    requires VerdictFor(d, a, own, now, v)
    ensures VerdictFor(d, b, own', now, v)
  {
    if !Undecidable(own) {
      FetchIgnoresStatus(a, b, own, own', own.ended.GetOr(now), AttemptSpan(d, d.QueuesOf(own.agent)), MAX_CANDIDATES);
      VerdictIgnoresStatus(Ask(d, own, now), Candidates(d, a, own, now), Ask(d, own', now),
                             Candidates(d, b, own', now), v);
    }
  }

  /** Re-labelling changes no leg's verdict, whichever legs are picked. */
  lemma RelabellingKeepsVerdicts(d: Directory, table: seq<Leg>, picked: set<nat>, now: Instant, i: nat, v: Verdict)
    requires i < |table|
    ensures var after := Relabelled(d, table, picked, now);
            VerdictFor(d, table, table[i], now, v) <==> VerdictFor(d, after, after[i], now, v)
  {
    var after := Relabelled(d, table, picked, now);
    assert SameButStatuses(table, after) && SameButStatuses(after, table);
    assert SameButStatus(table[i], after[i]) && SameButStatus(after[i], table[i]);
    if VerdictFor(d, table, table[i], now, v) {
      SameVerdicts(d, table, after, table[i], after[i], now, v);
    }
    if VerdictFor(d, after, after[i], now, v) {
      SameVerdicts(d, after, table, after[i], table[i], now, v);
    }
  }

  /** Visiting one more leg, after the others of `picked`, is as good as picking it with them. */
  lemma RelabelOneMore(d: Directory, table: seq<Leg>, picked: set<nat>, i: nat, now: Instant)
    requires i < |table|
    ensures SameButStatuses(table, Relabelled(d, table, picked, now))
    ensures var prior := Relabelled(d, table, picked, now);
            HasAnsweredSibling(d, prior, prior[i], now) == HasAnsweredSibling(d, table, table[i], now)
    ensures RelabelOne(d, Relabelled(d, table, picked, now), i, now) == Relabelled(d, table, picked + {i}, now)
  {
    var prior := Relabelled(d, table, picked, now);
    SameSiblings(d, table, prior, i, now);
    assert i in picked && HasAnsweredSibling(d, table, table[i], now) ==> prior[i] == Relabel(prior[i]);
  }

  ghost function Elements(order: seq<nat>): set<nat> {
    set i | i in order
  }

  lemma ElementsOfPrefix(order: seq<nat>, k: nat)
    requires k < |order|
    ensures Elements(order[..k + 1]) == Elements(order[..k]) + {order[k]}
  {
    assert order[..k + 1] == order[..k] + [order[k]];
  }

  /** The order of visits, and visiting a leg twice, make no difference. */
  lemma {:induction false} RelabellingIsConfluent(d: Directory, table: seq<Leg>, order: seq<nat>, now: Instant)
    requires IndicesOf(order, |table|)
    ensures RelabelInOrder(d, table, order, now) == Relabelled(d, table, Elements(order), now)
  {
    if order != [] {
      var last := |order| - 1;
      RelabellingIsConfluent(d, table, order[..last], now);
      RelabelOneMore(d, table, Elements(order[..last]), order[last], now);
      ElementsOfPrefix(order, last);
      assert order[..last + 1] == order;
    }
  }

  // -------------------------------------------------------------------------
  // The pass after a leg is answered
  // -------------------------------------------------------------------------

  /** Unanswered legs of the same caller that already went missed around the answered leg. */
  predicate InWindow(leg: Leg, answered: Leg, span: int)
    requires answered.answered.Some?
  {
    && leg.inbound && leg.answered.None? && IsMissed(leg.status)
    && answered.started - span <= leg.started <= answered.answered.value + RING_START_TOLERANCE
    && SameCaller(leg, answered)
    && leg.pk != answered.pk
  }

  function Picks(table: seq<Leg>, from: nat, answered: Leg, span: int, limit: nat): (picks: seq<nat>)
    requires answered.answered.Some? && from <= |table|
    ensures |picks| <= limit
    ensures IndicesOf(picks, |table|)
    ensures forall k :: 0 <= k < |picks| ==> from <= picks[k] && InWindow(table[picks[k]], answered, span)
    ensures forall k, l :: 0 <= k < l < |picks| ==> picks[k] < picks[l]
    ensures |picks| < limit ==>
              forall i :: from <= i < |table| && InWindow(table[i], answered, span) ==> i in picks
    decreases |table| - from
  {
    if from == |table| || limit == 0 then []
    else if InWindow(table[from], answered, span) then
      [from] + Picks(table, from + 1, answered, span, limit - 1)
    else Picks(table, from + 1, answered, span, limit)
  }

  predicate AllBelow(picks: seq<nat>, i: int) {
    forall k :: 0 <= k < |picks| ==> picks[k] < i
  }

  /** What is not picked, because the limit is reached, comes after all that is. */
  lemma {:induction false} PicksTakeTheFirst(table: seq<Leg>, from: nat, answered: Leg, span: int, limit: nat, i: nat)
    requires answered.answered.Some? && from <= i < |table| && InWindow(table[i], answered, span)
    requires i !in Picks(table, from, answered, span, limit)
    ensures |Picks(table, from, answered, span, limit)| == limit
    ensures AllBelow(Picks(table, from, answered, span, limit), i)
    decreases |table| - from
  {
    if limit > 0 {
      var picks := Picks(table, from, answered, span, limit);
      if InWindow(table[from], answered, span) {
        var more := Picks(table, from + 1, answered, span, limit - 1);
        assert picks == [from] + more && picks[0] == from;
        assert forall k :: 0 <= k < |more| ==> picks[k + 1] == more[k];
        PicksTakeTheFirst(table, from + 1, answered, span, limit - 1, i);
      } else {
        PicksTakeTheFirst(table, from + 1, answered, span, limit, i);
      }
    }
  }

  /** A missed leg of the number, from a span before the answered one to two seconds after the answer. */
  predicate IsMissedAround(d: Directory, answered: Leg, leg: Leg)
    requires answered.answered.Some?
  {
    && leg.inbound && leg.answered.None? && leg.status in {Missed, NoAnswer}
    && leg.pk != answered.pk && IsSameNumber(leg.caller, answered.caller)
    && answered.started - SpanOf(d, answered) <= leg.started <= answered.answered.value + 2 * SECOND
  }

  /** Of all such legs the first two hundred are picked. */
  lemma SelectionIsTheMissed(d: Directory, table: seq<Leg>, answered: Leg)
    requires answered.answered.Some?
    ensures var picks := Selection(d, table, answered);
            && |picks| <= 200
            && (forall i <- picks :: i < |table| && IsMissedAround(d, answered, table[i]))
            && (forall i: nat :: i < |table| && IsMissedAround(d, answered, table[i]) && i !in picks ==>
                  |picks| == 200 && AllBelow(picks, i))
  {
    var picks := Selection(d, table, answered);
    forall i: nat | i < |table| && InWindow(table[i], answered, SpanOf(d, answered)) && i !in picks
      ensures |picks| == 200 && AllBelow(picks, i)
    {
      PicksTakeTheFirst(table, 0, answered, SpanOf(d, answered), MAX_CANDIDATES, i);
    }
    LastDigitsEndTheNumber(answered.caller);
    forall leg ensures InWindow(leg, answered, SpanOf(d, answered)) <==> IsMissedAround(d, answered, leg) {
    }
  }

  /** The answered leg can have made others "answered elsewhere" at all. */
  predicate Triggers(answered: Leg) {
    answered.inbound && LastDigits(answered.caller) != "" && answered.answered.Some?
  }

  function Selection(d: Directory, table: seq<Leg>, answered: Leg): seq<nat>
    requires answered.answered.Some?
  {
    Picks(table, 0, answered, AttemptSpan(d, d.QueuesOf(answered.agent)), MAX_CANDIDATES)
  }

  /** The picked legs that have an answered sibling. */
  ghost function Hits(d: Directory, table: seq<Leg>, picked: set<nat>, now: Instant): set<nat> {
    set i | i in picked && i < |table| && HasAnsweredSibling(d, table, table[i], now)
  }

  class CallTable {
    var rows: seq<Leg>

    constructor (rows: seq<Leg>)
      ensures this.rows == rows
    {
      this.rows := rows;
    }

    /**
    Looks for an answered sibling of one leg and re-labels the leg if there is one; reports whether a row changed.
    */
    method MarkIfAnsweredElsewhere(d: Directory, i: nat, now: Instant) returns (marked: bool)
      requires Sorted(rows) && i < |rows|
      modifies this
      ensures rows == RelabelOne(d, old(rows), i, now)
      ensures marked <==> HasAnsweredSibling(d, old(rows), old(rows)[i], now) && old(rows)[i].status != Cancelled
    {
      var v, sibling := MissedCallState(d, rows, rows[i], now);
      VerdictDecides(d, rows, rows[i], now, v);
      marked := sibling.Some? && rows[i].answered.None? && rows[i].status != Cancelled;
      if marked {
        rows := rows[i := Relabel(rows[i])];
      }
    }

    /** Visits the picked legs one after the other, each on the table as it is by then. */
    method RelabelPicked(d: Directory, picks: seq<nat>, now: Instant) returns (count: nat)
      requires Sorted(rows) && AreMissed(rows, picks)
      modifies this
      ensures Sorted(rows)
      ensures rows == Relabelled(d, old(rows), Elements(picks), now)
      ensures count == |Hits(d, old(rows), Elements(picks), now)|
    {
      count := 0;
      ghost var table := rows;
      for k := 0 to |picks|
        invariant IsAfterPicks(d, table, picks, k, now, rows, count)
      {
        BeforeNextPick(d, table, picks, k, now, rows, count);
        AfterNextPick(d, table, picks, k, now, rows, count);
        var marked := MarkIfAnsweredElsewhere(d, picks[k], now);
        if marked {
          count := count + 1;
        }
      }
      assert picks[..|picks|] == picks;
      RelabelledIsSorted(d, table, Elements(picks), now);
    }

    /** Returns how many legs were re-labelled. */
    method RelabelLegsAnsweredElsewhere(d: Directory, answered: Leg, now: Instant) returns (count: nat)
      requires Sorted(rows)
      modifies this
      ensures Sorted(rows)
      ensures !answered.inbound || Digits(answered.caller) == "" || answered.answered.None? ==>
                rows == old(rows) && count == 0
      ensures answered.inbound && Digits(answered.caller) != "" && answered.answered.Some? ==>
                var picked := Elements(Selection(d, old(rows), answered));
                rows == Relabelled(d, old(rows), picked, now) && count == |Hits(d, old(rows), picked, now)|
    {
      LastDigitsEndTheNumber(answered.caller);
      if !Triggers(answered) {
        return 0;
      }
      count := RelabelPicked(d, Selection(d, rows, answered), now);
    }
  }

  /** Different legs of the table, each of them missed. */
  predicate AreMissed(table: seq<Leg>, picks: seq<nat>) {
    && IndicesOf(picks, |table|)
    && (forall k :: 0 <= k < |picks| ==> IsMissed(table[picks[k]].status))
    && forall k, l :: 0 <= k < l < |picks| ==> picks[k] < picks[l]
  }

  lemma RelabelledIsSorted(d: Directory, table: seq<Leg>, picked: set<nat>, now: Instant)
    requires Sorted(table)
    ensures Sorted(Relabelled(d, table, picked, now))
  {
    assert SameButStatuses(table, Relabelled(d, table, picked, now));
    SortedIgnoresStatus(table, Relabelled(d, table, picked, now));
  }

  /** The table and the count after the first `k` picks. */
  ghost predicate IsAfterPicks(d: Directory, table: seq<Leg>, picks: seq<nat>, k: nat, now: Instant, rows: seq<Leg>,
                               count: nat)
    requires k <= |picks|
  {
    rows == Relabelled(d, table, Elements(picks[..k]), now) && count == |Hits(d, table, Elements(picks[..k]), now)|
  }

  lemma BeforeNextPick(d: Directory, table: seq<Leg>, picks: seq<nat>, k: nat, now: Instant, rows: seq<Leg>, count: nat)
    requires Sorted(table) && k < |picks| && AreMissed(table, picks)
    requires IsAfterPicks(d, table, picks, k, now, rows, count)
    ensures Sorted(rows) && picks[k] < |rows| && rows[picks[k]].status != Cancelled
  {
    assert picks[k] !in Elements(picks[..k]);
    RelabelledIsSorted(d, table, Elements(picks[..k]), now);
  }

  /** What visiting the next picked leg does to the table and to the count. */
  lemma AfterNextPick(d: Directory, table: seq<Leg>, picks: seq<nat>, k: nat, now: Instant, rows: seq<Leg>, count: nat)
    requires Sorted(table) && k < |picks| && AreMissed(table, picks)
    requires IsAfterPicks(d, table, picks, k, now, rows, count) && picks[k] < |rows|
    ensures var hit := HasAnsweredSibling(d, rows, rows[picks[k]], now);
            IsAfterPicks(d, table, picks, k + 1, now, RelabelOne(d, rows, picks[k], now),
                         if hit then count + 1 else count)
  {
    var i, before := picks[k], Elements(picks[..k]);
    assert i !in before;
    RelabelOneMore(d, table, before, i, now);
    ElementsOfPrefix(picks, k);
    HitOneMore(d, table, before, i, now);
  }

  lemma HitOneMore(d: Directory, table: seq<Leg>, picked: set<nat>, i: nat, now: Instant)
    requires i < |table| && i !in picked
    ensures var more := if HasAnsweredSibling(d, table, table[i], now) then 1 else 0;
            |Hits(d, table, picked + {i}, now)| == |Hits(d, table, picked, now)| + more
  {
    var hits, hits' := Hits(d, table, picked, now), Hits(d, table, picked + {i}, now);
    assert hits' == if HasAnsweredSibling(d, table, table[i], now) then hits + {i} else hits;
  }

  lemma SortedIgnoresStatus(a: seq<Leg>, b: seq<Leg>)
    requires Sorted(a) && SameButStatuses(a, b)
    ensures Sorted(b)
  {
    forall i, j | 0 <= i < j < |b| ensures Before(b[i], b[j]) {
      assert SameButStatus(a[i], b[i]) && SameButStatus(a[j], b[j]) && Before(a[i], a[j]);
    }
  }
}
