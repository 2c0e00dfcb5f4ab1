/**
Refunds over whole runs: when one is tried a second time, what the note about late money says, and
what a cancellation gives back, for every duty and every answer of the provider.
*/
module RefundAttempts {
  import opened BookingStatus
  import opened Options
  import opened Refunds
  import opened Ledger
  import opened LedgerInvariants

  // -------------------------------------------------------------------------
  // A second try
  // -------------------------------------------------------------------------

  /**
  The refund a customer's cancellation left behind is made although one was already refused: only a
  refund that was accepted keeps the service from trying again.
  */
  predicate TriesAgain(b: Book, e: Event, policy: Policy) {
    && b.duty.CustomerDuty? && b.row.note.ManualRequired?
    && e.SettleRefund? && e.provider != Unavailable
    && ApplyRefundPolicy(OnlinePaid(b.row), policy) > 0
  }

  lemma ReceiptIsTriedOnce(b: Book, answer: Answer, provider: Provider, settings: Settings)
    requires Sound(b)
    ensures var after := AfterWebhook(b, answer, provider, settings);
            after.totals.attempts == b.totals.attempts || (b.totals.attempts == 0 && after.totals.attempts == 1)
  {
  }

  lemma SettleTriesAgainIff(b: Book, provider: Provider, policy: Policy)
    requires Sound(b)
    ensures var after := AfterSettle(b, provider, policy);
            && (after.totals.attempts == 2 <==> b.totals.attempts == 2 || TriesAgain(b, SettleRefund(provider), policy))
  {
    ClampsNeverFire(b);
  }

  /** One event makes the second try exactly if it settles a customer's cancellation over a refused refund. */
  lemma {:induction false} StepTriesAgainIff(b: Book, e: Event, settings: Settings)
    requires Sound(b)
    ensures Step(b, e, settings).totals.attempts == 2 <==> b.totals.attempts == 2 || TriesAgain(b, e, settings.policy)
  {
    match e
    case Webhook(answer, provider) => ReceiptIsTriedOnce(b, answer, provider, settings);
    case Sweep(answer, provider) => ReceiptIsTriedOnce(b, answer, provider, settings);
    case SettleRefund(provider) => SettleTriesAgainIff(b, provider, settings.policy);
    case _ =>
  }

  ghost predicate TriesAgainAt(b: Book, events: seq<Timed>, k: nat)
    requires k < |events|
  {
    TriesAgain(Run(b, events[..k]), events[k].event, events[k].settings.policy)
  }

  ghost predicate NeverTriesAgain(b: Book, events: seq<Timed>) {
    forall k: nat :: k < |events| ==> !TriesAgainAt(b, events, k)
  }

  lemma LastMayTryAgain(b: Book, events: seq<Timed>, n: nat)
    requires |events| == n + 1
    ensures NeverTriesAgain(b, events) <==> NeverTriesAgain(b, events[..n]) && !TriesAgainAt(b, events, n)
  {
    forall k: nat | k < n ensures TriesAgainAt(b, events, k) == TriesAgainAt(b, events[..n], k) {
      assert events[..n][..k] == events[..k];
    }
  }

  /** On every run: at most one refund is tried if and only if no event of the run tries again. */
  lemma {:induction false} TriedOnceIff(b: Book, events: seq<Timed>)
    requires IsPlaced(b)
    ensures Run(b, events).totals.attempts <= 1 <==> NeverTriesAgain(b, events)
  {
    if events != [] {
      var n := |events| - 1;
      TriedOnceIff(b, events[..n]);
      LastMayTryAgain(b, events, n);
      LastTryCounts(b, events, n);
    }
  }

  lemma {:induction false} LastTryCounts(b: Book, events: seq<Timed>, n: nat)
    requires IsPlaced(b) && |events| == n + 1
    ensures Run(b, events).totals.attempts <= 1 <==>
              Run(b, events[..n]).totals.attempts <= 1 && !TriesAgainAt(b, events, n)
  {
    RefundsAreBounded(b, events);
    RefundsAreBounded(b, events[..n]);
    RunIsSound(b, events[..n]);
    StepTriesAgainIff(Run(b, events[..n]), events[n].event, events[n].settings);
  }

  /** No receipt is recorded between a customer's cancellation and its refund. */
  ghost predicate Calm(b: Book, events: seq<Timed>) {
    forall k :: 0 <= k < |events| ==> Quiet(Run(b, events[..k]), events[k].event)
  }

  predicate Quiet(b: Book, e: Event) {
    !(b.duty.CustomerDuty? && e.Webhook? && e.answer.Paid?)
  }

  /** In a calm run a customer's refund that is still to be made has not been tried. */
  lemma {:induction false} CalmDutyIsUntried(b: Book, events: seq<Timed>)
    requires IsPlaced(b) && Calm(b, events)
    ensures Run(b, events).duty.CustomerDuty? ==> Run(b, events).totals.attempts == 0
  {
    if events != [] {
      var n := |events| - 1;
      CalmPrefix(b, events, n);
      CalmDutyIsUntried(b, events[..n]);
      RunIsSound(b, events[..n]);
      QuietStepLeavesDutyUntried(Run(b, events[..n]), events[n].event, events[n].settings);
    }
  }

  lemma QuietStepLeavesDutyUntried(b: Book, e: Event, settings: Settings)
    requires Sound(b) && Quiet(b, e) && (b.duty.CustomerDuty? ==> b.totals.attempts == 0)
    ensures var after := Step(b, e, settings); after.duty.CustomerDuty? ==> after.totals.attempts == 0
  {
  }

  lemma CalmPrefix(b: Book, events: seq<Timed>, n: nat)
    requires Calm(b, events) && n < |events|
    ensures Calm(b, events[..n]) && Quiet(Run(b, events[..n]), events[n].event)
  {
    forall k | 0 <= k < n ensures Quiet(Run(b, events[..n][..k]), events[..n][k].event) {
      assert events[..n][..k] == events[..k];
      assert Quiet(Run(b, events[..k]), events[k].event);
    }
  }

  /** So a calm run tries at most one refund. */
  lemma {:induction false} CalmRunTriesOnce(b: Book, events: seq<Timed>)
    requires IsPlaced(b) && Calm(b, events)
    ensures Run(b, events).totals.attempts <= 1
  {
    forall k: nat | k < |events| ensures !TriesAgainAt(b, events, k) {
      CalmPrefix(b, events, k);
      CalmDutyIsUntried(b, events[..k]);
      RunIsSound(b, events[..k]);
    }
    TriedOnceIff(b, events);
  }

  /** A receipt recorded in that gap, whose refund is refused, is tried a second time. */
  lemma ReceiptInTheGapIsTriedTwice(settings: Settings)
    requires settings.policy == Full
    ensures var row := Row(Pending, Unpaid, 100, 100, 0, [], true, true, NoNote, None);
            var b := Book(row, NoDuty, Totals(0, 0, 0, 0, 0));
            var events := [Timed(CancelByCustomer(true), settings), Timed(Webhook(Paid(100), Rejects), settings),
                           Timed(SettleRefund(Accepts), settings)];
            IsPlaced(b) && Run(b, events).totals.attempts == 2 && Run(b, events).totals.accepted == 1
  {
    var row := Row(Pending, Unpaid, 100, 100, 0, [], true, true, NoNote, None);
    var b := Book(row, NoDuty, Totals(0, 0, 0, 0, 0));
    var events := [Timed(CancelByCustomer(true), settings), Timed(Webhook(Paid(100), Rejects), settings),
                   Timed(SettleRefund(Accepts), settings)];
    assert events[..2][..1] == events[..1] && events[..1][..0] == [];
    assert Run(b, events[..1]) == Step(b, events[0].event, settings);
    assert Run(b, events[..2]) == Step(Run(b, events[..1]), events[1].event, settings);
    assert Run(b, events) == Step(Run(b, events[..2]), events[2].event, settings);
  }

  // -------------------------------------------------------------------------
  // What the note says about late money
  // -------------------------------------------------------------------------

  function NoteAmount(note: RefundNote): int {
    match note
    case NoNote => 0
    case Requested(amount) => amount
    case ManualRequired(amount) => amount
  }

  /** The late receipt is all that ever came in; until a second try, the note asks for all of it back. */
  ghost predicate LateMoneyIsAll(b: Book) {
    && (b.totals.late > 0 ==> b.totals.receipts == b.totals.late)
    && (b.duty.CustomerDuty? && b.totals.attempts > 0 ==> b.totals.receipts == b.totals.late)
    && (b.totals.late > 0 && b.totals.attempts == 1 ==> NoteAmount(b.row.note) == b.totals.late)
  }

  predicate NotedInFull(b: Book) {
    b.totals.late > 0 ==> NoteAmount(b.row.note) == b.totals.late
  }

  /** The second try goes by the cancellation policy, and the policy keeps a part. */
  predicate Shortens(b: Book, e: Event, policy: Policy) {
    TriesAgain(b, e, policy) && ApplyRefundPolicy(OnlinePaid(b.row), policy) < OnlinePaid(b.row)
  }

  lemma WebhookNotesAll(b: Book, answer: Answer, provider: Provider, settings: Settings)
    requires Sound(b) && LateMoneyIsAll(b)
    ensures var after := AfterWebhook(b, answer, provider, settings);
            LateMoneyIsAll(after) && (NotedInFull(after) <==> NotedInFull(b))
  {
  }

  lemma SettleNotesAllUnlessShort(b: Book, provider: Provider, policy: Policy)
    requires Sound(b) && LateMoneyIsAll(b)
    ensures var after := AfterSettle(b, provider, policy);
            && LateMoneyIsAll(after)
            && (NotedInFull(after) <==> NotedInFull(b) && !Shortens(b, SettleRefund(provider), policy))
  {
    ClampsNeverFire(b);
    RefundWithinAmount(OnlinePaid(b.row), policy);
  }

  lemma {:induction false} StepNotesAllUnlessShort(b: Book, e: Event, settings: Settings)
    requires Sound(b) && LateMoneyIsAll(b)
    ensures var after := Step(b, e, settings);
            LateMoneyIsAll(after) && (NotedInFull(after) <==> NotedInFull(b) && !Shortens(b, e, settings.policy))
  {
    match e
    case Webhook(answer, provider) => WebhookNotesAll(b, answer, provider, settings);
    case Sweep(answer, provider) => WebhookNotesAll(b, answer, provider, settings);
    case SettleRefund(provider) => SettleNotesAllUnlessShort(b, provider, settings.policy);
    case _ =>
  }

  ghost predicate ShortensAt(b: Book, events: seq<Timed>, k: nat)
    requires k < |events|
  {
    Shortens(Run(b, events[..k]), events[k].event, events[k].settings.policy)
  }

  ghost predicate NeverShortens(b: Book, events: seq<Timed>) {
    forall k: nat :: k < |events| ==> !ShortensAt(b, events, k)
  }

  lemma LastMayShorten(b: Book, events: seq<Timed>, n: nat)
    requires |events| == n + 1
    ensures NeverShortens(b, events) <==> NeverShortens(b, events[..n]) && !ShortensAt(b, events, n)
  {
    forall k: nat | k < n ensures ShortensAt(b, events, k) == ShortensAt(b, events[..n], k) {
      assert events[..n][..k] == events[..k];
    }
  }

  /**
  On every run: the note asks for all of the late money if and only if no second try went by a policy that keeps some.
  */
  lemma {:induction false} LateMoneyIsNotedInFullIff(b: Book, events: seq<Timed>)
    requires IsPlaced(b)
    ensures LateMoneyIsAll(Run(b, events))
    ensures NotedInFull(Run(b, events)) <==> NeverShortens(b, events)
  {
    if events != [] {
      var n := |events| - 1;
      LateMoneyIsNotedInFullIff(b, events[..n]);
      LastMayShorten(b, events, n);
      RunIsSound(b, events[..n]);
      StepNotesAllUnlessShort(Run(b, events[..n]), events[n].event, events[n].settings);
    }
  }

  /** Late money of 100, refused once and then refunded by half: the note asks for 50, and 50 stay. */
  lemma LateMoneyCanBeKeptInPart(settings: Settings)
    requires settings.policy == Partial50
    ensures var row := Row(Pending, Unpaid, 100, 100, 0, [], true, true, NoNote, None);
            var b := Book(row, NoDuty, Totals(0, 0, 0, 0, 0));
            var events := [Timed(CancelByCustomer(true), settings), Timed(Webhook(Paid(100), Rejects), settings),
                           Timed(SettleRefund(Accepts), settings)];
            var r := Run(b, events);
            IsPlaced(b) && r.totals.late == 100 && r.row.note == Requested(50) && r.row.paid == 50
  {
    var row := Row(Pending, Unpaid, 100, 100, 0, [], true, true, NoNote, None);
    var b := Book(row, NoDuty, Totals(0, 0, 0, 0, 0));
    var events := [Timed(CancelByCustomer(true), settings), Timed(Webhook(Paid(100), Rejects), settings),
                   Timed(SettleRefund(Accepts), settings)];
    assert events[..2][..1] == events[..1] && events[..1][..0] == [];
    assert Run(b, events[..1]) == Step(b, events[0].event, settings);
    assert Run(b, events[..2]) == Step(Run(b, events[..1]), events[1].event, settings);
    assert Run(b, events) == Step(Run(b, events[..2]), events[2].event, settings);
  }

  // -------------------------------------------------------------------------
  // What a cancellation gives back
  // -------------------------------------------------------------------------

  /** The provider's refund is the policy's share of the online money, whoever cancelled; hand payments stay. */
  lemma RefundTakesOnlinePart(b: Book, seen: Row, provider: Provider, policy: Policy)
    requires Sound(b) && SameMoney(seen, b.row) && !seen.note.Requested?
    ensures var after := InitiateRefund(b, seen, provider, policy);
            var online := ApplyRefundPolicy(OnlinePaid(b.row), policy);
            var sent := if provider == Accepts then online else 0;
            && after.totals.refunded == b.totals.refunded + sent
            && after.row.paid == b.row.paid - sent
            && after.totals.attempts == b.totals.attempts + (if online == 0 || provider == Unavailable then 0 else 1)
            && after.row.payStatus == (if sent > 0 then Refunded else b.row.payStatus)
            && after.row.status == b.row.status && after.row.total == b.row.total
            && after.row.manual == b.row.manual && after.row.manualRefund == b.row.manualRefund
            && after.row.note == (if online == 0 || provider == Unavailable then b.row.note
                                  else if provider == Accepts then Requested(online)
                                  else ManualRequired(online))
  {
    ClampsNeverFire(b);
    RefundWithinAmount(OnlinePaid(b.row), policy);
    assert OnlinePaid(seen) == OnlinePaid(b.row);
  }

  lemma CashIsFlagged(r: Row, policy: Policy)
    requires 0 <= ManualPaid(r) <= r.paid && r.manualRefund.None?
    ensures var cash := ApplyRefundPolicy(ManualPaid(r), policy);
            FlagManualRefund(r, policy) == r.(manualRefund := if cash > 0 then Some(cash) else None)
  {
  }

  /**
  A cancellation by staff or by the customer gives back the policy's share of each part: the online one
  through the provider or, refused, in a note for staff; the hand-recorded one by a flag in any case.
  */
  lemma CancelReturnsBothParts(b: Book, provider: Provider, policy: Policy)
    requires Sound(b) && b.duty != NoDuty && !b.row.note.Requested?
    ensures var after := AfterSettle(b, provider, policy);
            var online := ApplyRefundPolicy(OnlinePaid(b.row), policy);
            var cash := ApplyRefundPolicy(ManualPaid(b.row), policy);
            var sent := if provider == Accepts then online else 0;
            && after.totals.refunded == b.totals.refunded + sent
            && after.totals.attempts == b.totals.attempts + (if online == 0 || provider == Unavailable then 0 else 1)
            && after.row.paid == b.row.paid - sent
            && after.row.payStatus == (if sent > 0 then Refunded else b.row.payStatus)
            && after.row.note == (if online == 0 || provider == Unavailable then b.row.note
                                  else if provider == Accepts then Requested(online)
                                  else ManualRequired(online))
            && after.row.manualRefund == (if cash > 0 then Some(cash) else None)
            && after.row.status == Cancelled && after.row.total == b.row.total && after.row.manual == b.row.manual
            && after.duty == NoDuty
  {
    ClampsNeverFire(b);
    if b.duty.StaffDuty? || b.row.paid > 0 {
      var seen := if b.duty.StaffDuty? then b.duty.seen else b.row;
      RefundWithinAmount(OnlinePaid(b.row), policy);
      RefundTakesOnlinePart(b, seen, provider, policy);
      CashIsFlagged(InitiateRefund(b, seen, provider, policy).row, policy);
    }
  }
}
