/**
The rows the missed-call classifier reads: one call leg per agent whose phone rang, the
queue memberships of the agents, and the query that fetches the other legs of the same
caller.
*/
module CallLegs {
  import opened Clock
  import opened Options
  import opened Phones

  const SIBLING_WINDOW := 120 * SECOND
  const SIBLING_SLACK := 5 * SECOND
  const RING_START_TOLERANCE := 2 * SECOND
  const QUEUE_RETRY := 5 * SECOND
  const QUEUE_RING_SLACK := 25 * SECOND
  const DEFAULT_ATTEMPT_GAP := 60 * SECOND
  const DEFAULT_MAX_WAIT := 300 * SECOND
  const MAX_CANDIDATES: nat := 200

  type UserId = nat
  type QueueId = nat

  datatype Status =
    | Initiated | Ringing | Answered | Missed | Busy | NoAnswer | Failed
    | Cancelled | Transferred | Ended | Recording | OnHold

  predicate IsFinal(s: Status) {
    s in {Ended, Missed, Failed, Cancelled, NoAnswer, Busy, Transferred}
  }

  predicate IsMissed(s: Status) {
    s == Missed || s == NoAnswer
  }

  datatype Leg = Leg(
    pk: nat,
    caller: string,
    inbound: bool,
    started: Instant,
    answered: Option<Instant>,
    ended: Option<Instant>,
    status: Status,
    agent: Option<UserId>)

  /** A queue's ring timeout and the longest wait, in seconds; the columns may be null. */
  datatype QueueTiming = QueueTiming(id: QueueId, timeout: Option<int>, maxWait: Option<int>)

  /** Active memberships of the agents, and the timing of every queue. */
  datatype Directory = Directory(memberships: map<UserId, set<QueueId>>, queues: seq<QueueTiming>) {

    function QueuesOf(agent: Option<UserId>): set<QueueId> {
      if agent.Some? && agent.value in memberships then memberships[agent.value] else {}
    }
  }

  predicate EndsWith(text: string, suffix: string) {
    |suffix| <= |text| && text[|text| - |suffix|..] == suffix
  }

  predicate SameCaller(other: Leg, own: Leg) {
    var digits := LastDigits(own.caller);
    if |digits| >= 7 then EndsWith(other.caller, digits) else other.caller == own.caller
  }

  // -------------------------------------------------------------------------
  // Attempt timing
  // -------------------------------------------------------------------------

  function Max(a: int, b: int): int {
    if a < b then b else a
  }

  function Rows(queues: seq<QueueTiming>, ids: set<QueueId>): seq<QueueTiming> {
    if queues == [] then []
    else if queues[0].id in ids then [queues[0]] + Rows(queues[1..], ids)
    else Rows(queues[1..], ids)
  }

  function LongestTimeout(rows: seq<QueueTiming>): nat {
    if rows == [] then 0
    else Max(Max(rows[0].timeout.GetOr(0), 0), LongestTimeout(rows[1..]))
  }

  function LongestWait(rows: seq<QueueTiming>): nat {
    if rows == [] then 0
    else Max(Max(rows[0].maxWait.GetOr(0), 0), LongestWait(rows[1..]))
  }

  /** The attempt gap: how long after one leg ends the next agent's leg may start. */
  function AttemptGap(d: Directory, ids: set<QueueId>): (gap: int)
    ensures gap >= 30 * SECOND
  {
    var rows := Rows(d.queues, ids);
    if rows == [] then DEFAULT_ATTEMPT_GAP
    else LongestTimeout(rows) * SECOND + QUEUE_RETRY + QUEUE_RING_SLACK
  }

  /** The longest one queue attempt may last, including one gap. */
  function AttemptSpan(d: Directory, ids: set<QueueId>): (span: int)
    ensures span >= AttemptGap(d, ids)
  {
    var rows := Rows(d.queues, ids);
    if rows == [] then DEFAULT_MAX_WAIT + DEFAULT_ATTEMPT_GAP
    else
      (if LongestWait(rows) > 0 then LongestWait(rows) * SECOND else DEFAULT_MAX_WAIT)
      + AttemptGap(d, ids)
  }

  // -------------------------------------------------------------------------
  // The candidate query
  // -------------------------------------------------------------------------

  /** Order of the candidate query: start, then primary key. */
  predicate Before(a: Leg, b: Leg) {
    a.started < b.started || (a.started == b.started && a.pk < b.pk)
  }

  ghost predicate Sorted(legs: seq<Leg>) {
    forall i, j :: 0 <= i < j < |legs| ==> Before(legs[i], legs[j])
  }

  predicate IsCandidate(leg: Leg, own: Leg, ownEnd: Instant, span: int) {
    && leg.inbound
    && own.started - SIBLING_WINDOW <= leg.started <= ownEnd + span
    && SameCaller(leg, own)
    && leg.pk != own.pk
  }

  /** The first `limit` candidates of a table kept in query order. */
  function Fetch(table: seq<Leg>, own: Leg, ownEnd: Instant, span: int, limit: nat): (found: seq<Leg>)
    ensures |found| <= limit
  {
    if table == [] || limit == 0 then []
    else if IsCandidate(table[0], own, ownEnd, span) then
      [table[0]] + Fetch(table[1..], own, ownEnd, span, limit - 1)
    else Fetch(table[1..], own, ownEnd, span, limit)
  }

  lemma {:induction false} FetchedFromTable(table: seq<Leg>, own: Leg, ownEnd: Instant, span: int, limit: nat)
    ensures forall leg <- Fetch(table, own, ownEnd, span, limit) ::
              leg in table && IsCandidate(leg, own, ownEnd, span)
  {
    if table != [] && limit > 0 {
      var rest := if IsCandidate(table[0], own, ownEnd, span) then limit - 1 else limit;
      FetchedFromTable(table[1..], own, ownEnd, span, rest);
    }
  }

  lemma {:induction false} FetchKeepsOrder(table: seq<Leg>, own: Leg, ownEnd: Instant, span: int, limit: nat)
    requires Sorted(table)
    ensures Sorted(Fetch(table, own, ownEnd, span, limit))
  {
    if table != [] && limit > 0 {
      var rest := if IsCandidate(table[0], own, ownEnd, span) then limit - 1 else limit;
      assert Sorted(table[1..]);
      FetchKeepsOrder(table[1..], own, ownEnd, span, rest);
      FetchedFromTable(table[1..], own, ownEnd, span, rest);
      var found := Fetch(table[1..], own, ownEnd, span, rest);
      forall k | 0 <= k < |found| ensures Before(table[0], found[k]) {
        assert found[k] in table[1..];
      }
    }
  }

  /** Nothing is left out before the limit is reached: everything behind the found legs is no candidate. */
  lemma {:induction false} FetchMissesNothing(table: seq<Leg>, own: Leg, ownEnd: Instant, span: int, limit: nat)
    ensures var found := Fetch(table, own, ownEnd, span, limit);
            |found| < limit ==> forall leg <- table :: IsCandidate(leg, own, ownEnd, span) ==> leg in found
  {
    if table != [] && limit > 0 {
      var rest := if IsCandidate(table[0], own, ownEnd, span) then limit - 1 else limit;
      FetchMissesNothing(table[1..], own, ownEnd, span, rest);
      assert forall leg :: leg in table <==> leg == table[0] || leg in table[1..];
    }
  }

  /** What is left out, because the limit is reached, comes after everything found. */
  lemma {:induction false} FetchTakesTheFirst(table: seq<Leg>, own: Leg, ownEnd: Instant, span: int, limit: nat)
    requires Sorted(table)
    ensures var found := Fetch(table, own, ownEnd, span, limit);
            forall leg <- table :: IsCandidate(leg, own, ownEnd, span) && leg !in found ==>
              |found| == limit && forall f <- found :: Before(f, leg)
  {
    if table != [] && limit > 0 {
      var rest := if IsCandidate(table[0], own, ownEnd, span) then limit - 1 else limit;
      assert Sorted(table[1..]);
      FetchTakesTheFirst(table[1..], own, ownEnd, span, rest);
      forall leg | leg in table && leg != table[0] ensures leg in table[1..] && Before(table[0], leg) {
        var k :| 0 <= k < |table| && table[k] == leg;
        assert table[1..][k - 1] == leg;
      }
    }
  }
}
