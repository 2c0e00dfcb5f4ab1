/** What every run of ledger events keeps: conservation, refund bounds, status agreement, finality. */
module LedgerInvariants {
  import opened BookingStatus
  import opened Options
  import opened Refunds
  import opened Ledger

  predicate Untouched(p: PayStatus) {
    p == Unpaid || p == Failed
  }

  /** Money in the row is money received online, less what went back, plus what staff recorded. */
  ghost predicate Conserved(b: Book) {
    && b.row.paid == b.totals.receipts - b.totals.refunded + ManualPaid(b.row)
    && 0 <= b.totals.refunded <= b.totals.receipts
    && (b.totals.receipts > 0 ==> b.row.hasOrder)
    && forall k :: 0 <= k < |b.row.manual| ==> b.row.manual[k] > 0
  }

  /** A booking the webhook may still record a receipt for has no money at all. */
  ghost predicate UntouchedIsEmpty(b: Book) {
    Untouched(b.row.payStatus) ==>
      && b.row.paid == 0 && b.row.manual == []
      && b.totals.receipts == 0 && b.totals.attempts == 0 && b.row.note == NoNote
  }

  /** At most one refund goes through; it is what the note and the status say. */
  ghost predicate RefundedOnce(b: Book) {
    && b.totals.accepted <= 1 && b.totals.accepted <= b.totals.attempts <= 2
    && (b.totals.accepted == 1 <==> b.row.payStatus == Refunded)
    && (b.totals.accepted == 1 <==> b.row.note.Requested?)
    && (b.totals.attempts > 0 <==> b.row.note != NoNote)
    && (b.totals.accepted == 0 ==> b.totals.refunded == 0)
    && (b.totals.attempts > 0 ==> b.row.status == Cancelled)
  }

  /** Money that arrived after a cancellation is on its way back, or flagged for staff. */
  ghost predicate LateMoneyNoted(b: Book) {
    0 <= b.totals.late && (b.totals.late > 0 ==> b.row.note.Requested? || b.row.note.ManualRequired?)
  }

  ghost predicate SameMoney(a: Row, r: Row) {
    && a.paid == r.paid && a.manual == r.manual && a.hasOrder == r.hasOrder
    && a.note == r.note && a.manualRefund == r.manualRefund
  }

  /** Nobody changes the money between a staff cancellation and its refund. */
  ghost predicate DutyCurrent(b: Book) {
    (b.row.manualRefund.Some? ==> b.row.status == Cancelled && b.duty == NoDuty) &&
    match b.duty
    case NoDuty => true
    case StaffDuty(seen) =>
      b.row.status == Cancelled && IsPaid(b.row.payStatus) && b.totals.attempts == 0
      && seen.paid > 0 && SameMoney(seen, b.row)
    case CustomerDuty => b.row.status == Cancelled && b.totals.attempts <= 1
  }

  ghost predicate Sound(b: Book) {
    && Conserved(b) && UntouchedIsEmpty(b) && RefundedOnce(b) && LateMoneyNoted(b) && DutyCurrent(b)
    && b.row.total >= 0 && b.row.deposit >= 0
  }

  lemma ReceiptKeepsSound(b: Book, amount: int, provider: Provider, settings: Settings)
    requires Sound(b) && Untouched(b.row.payStatus) && b.row.hasOrder
    ensures Sound(AfterReceipt(b, amount, provider, settings))
  {
  }

  lemma WebhookKeepsSound(b: Book, answer: Answer, provider: Provider, settings: Settings)
    requires Sound(b)
    ensures Sound(AfterWebhook(b, answer, provider, settings))
  {
    if answer.Paid? && Untouched(b.row.payStatus) && b.row.hasOrder {
      ReceiptKeepsSound(b, answer.amount, provider, settings);
    }
  }

  lemma SweepKeepsSound(b: Book, answer: Answer, provider: Provider, settings: Settings)
    requires Sound(b)
    ensures Sound(AfterSweep(b, answer, provider, settings))
  {
    WebhookKeepsSound(b, answer, provider, settings);
  }

  /** In a sound ledger neither of the two clamps ever changes anything. */
  lemma ClampsNeverFire(b: Book)
    requires Conserved(b)
    ensures 0 <= ManualPaid(b.row) <= b.row.paid
    ensures OnlinePaid(b.row) == b.row.paid - ManualPaid(b.row) == b.totals.receipts - b.totals.refunded
  {
    TotalOfPositive(b.row.manual);
  }

  lemma RefundKeepsSound(b: Book, seen: Row, provider: Provider, policy: Policy)
    requires Sound(b) && SameMoney(seen, b.row)
    requires b.row.status == Cancelled && b.totals.attempts <= 1
    requires seen.paid > 0
    ensures Sound(InitiateRefund(b, seen, provider, policy).(duty := NoDuty))
  {
    ClampsNeverFire(b);
    RefundWithinAmount(OnlinePaid(seen), policy);
    var amount := ApplyRefundPolicy(OnlinePaid(seen), policy);
    if amount > 0 {
      assert OnlinePaid(seen) == b.totals.receipts - b.totals.refunded;
      assert seen.paid - amount >= 0;
    }
  }

  lemma FlagKeepsSound(b: Book, policy: Policy)
    requires Sound(b) && b.duty == NoDuty && b.row.status == Cancelled
    ensures Sound(b.(row := FlagManualRefund(b.row, policy)))
  {
  }

  lemma {:induction false} SettleKeepsSound(b: Book, provider: Provider, policy: Policy)
    requires Sound(b)
    ensures Sound(AfterSettle(b, provider, policy))
  {
    if b.duty.StaffDuty? || (b.duty.CustomerDuty? && b.row.paid > 0) {
      var seen := if b.duty.StaffDuty? then b.duty.seen else b.row;
      RefundKeepsSound(b, seen, provider, policy);
      FlagKeepsSound(InitiateRefund(b, seen, provider, policy).(duty := NoDuty), policy);
    }
  }

  lemma PaymentKeepsSound(b: Book, amount: int)
    requires Sound(b)
    ensures Sound(AfterPayment(b, amount))
  {
    assert (b.row.manual + [amount])[..|b.row.manual|] == b.row.manual;
  }

  /** An edit of the row as it stands. */
  lemma EditKeepsSound(b: Book, value: Option<int>)
    requires Sound(b)
    ensures Sound(AfterEdit(b, b.row, value))
  {
  }

  lemma {:induction false} StepKeepsSound(b: Book, e: Event, settings: Settings)
    requires Sound(b)
    ensures Sound(Step(b, e, settings))
  {
    match e
    case Webhook(answer, provider) => WebhookKeepsSound(b, answer, provider, settings);
    case Sweep(answer, provider) => SweepKeepsSound(b, answer, provider, settings);
    case RecordPayment(amount) => PaymentKeepsSound(b, amount);
    case EditPrice(value) => EditKeepsSound(b, Some(value));
    case SettleRefund(provider) => SettleKeepsSound(b, provider, settings.policy);
    case _ =>
  }

  /** Every reachable ledger is sound. */
  lemma {:induction false} RunIsSound(b: Book, events: seq<Timed>)
    requires IsPlaced(b)
    ensures Sound(Run(b, events))
  {
    if events != [] {
      var last := events[|events| - 1];
      RunIsSound(b, events[..|events| - 1]);
      StepKeepsSound(Run(b, events[..|events| - 1]), last.event, last.settings);
    }
  }

  // -------------------------------------------------------------------------
  // Conservation
  // -------------------------------------------------------------------------

  /** The paid amount of every reachable booking is its recorded receipts, less refunds, plus its hand payments. */
  lemma {:induction false} MoneyIsConserved(b: Book, events: seq<Timed>)
    requires IsPlaced(b)
    ensures var r := Run(b, events);
            && r.row.paid == r.totals.receipts - r.totals.refunded + ManualPaid(r.row)
            && OnlinePaid(r.row) == r.totals.receipts - r.totals.refunded == r.row.paid - ManualPaid(r.row)
            && 0 <= ManualPaid(r.row) <= r.row.paid
            && 0 <= r.totals.refunded <= r.totals.receipts
  {
    RunIsSound(b, events);
    ClampsNeverFire(Run(b, events));
  }

  /** A receipt is only ever written over an amount of zero, so no hand payment is lost by it. */
  lemma {:induction false} ReceiptOverwritesNothing(b: Book, events: seq<Timed>, answer: Answer, provider: Provider,
                                                    settings: Settings)
    requires IsPlaced(b)
    requires AfterWebhook(Run(b, events), answer, provider, settings).totals.receipts != Run(b, events).totals.receipts
    ensures Run(b, events).row.paid == 0 && Run(b, events).row.manual == []
  {
    RunIsSound(b, events);
  }

  /** The two parts together are within a cent of the policy's share of everything paid. */
  lemma BothPartsWithinACent(b: Book, policy: Policy)
    requires Conserved(b)
    ensures -1 <= ApplyRefundPolicy(OnlinePaid(b.row), policy) + ApplyRefundPolicy(ManualPaid(b.row), policy)
                  - ApplyRefundPolicy(b.row.paid, policy) <= 1
  {
    ClampsNeverFire(b);
    var online, manual := OnlinePaid(b.row), ManualPaid(b.row);
    assert online + manual == b.row.paid;
    SplitRefundWithinACent(online, manual, policy);
  }

  // -------------------------------------------------------------------------
  // Refund attempts
  // -------------------------------------------------------------------------

  /** At most one refund is accepted by the provider and at most two are tried, never for more than came in. */
  lemma {:induction false} RefundsAreBounded(b: Book, events: seq<Timed>)
    requires IsPlaced(b)
    ensures var r := Run(b, events);
            r.totals.accepted <= 1 && r.totals.attempts <= 2 && 0 <= r.totals.refunded <= r.totals.receipts
  {
    RunIsSound(b, events);
  }

  // -------------------------------------------------------------------------
  // Late money, the sweeper, final states
  // -------------------------------------------------------------------------

  /** A receipt recorded after the cancellation leaves a note: requested, or to be made by hand. */
  lemma {:induction false} NoSilentLateMoney(b: Book, events: seq<Timed>)
    requires IsPlaced(b) && Run(b, events).totals.late > 0
    ensures Run(b, events).row.status == Cancelled
    ensures Run(b, events).row.note.Requested? || Run(b, events).row.note.ManualRequired?
  {
    RunIsSound(b, events);
  }

  /**
  The sweeper cancels only bookings with no money, after an open or declined answer, a failed payment or no order.
  */
  lemma {:induction false} SweeperCancelsOnlyUnpaid(b: Book, events: seq<Timed>, answer: Answer, provider: Provider,
                                                    settings: Settings)
    requires IsPlaced(b)
    requires Run(b, events).row.status != Cancelled
    requires AfterSweep(Run(b, events), answer, provider, settings).row.status == Cancelled
    ensures AfterSweep(Run(b, events), answer, provider, settings).row.paid == 0
    ensures AfterSweep(Run(b, events), answer, provider, settings).totals == Run(b, events).totals
    ensures var row := Run(b, events).row;
            answer == Open || answer == Declined || row.payStatus == Failed || !row.hasOrder
  {
    RunIsSound(b, events);
  }

  /** Past its grace time a booking is given up exactly if it waits unpaid for a card payment that is not under way. */
  lemma SweeperCancelsIff(b: Book, answer: Answer, provider: Provider, settings: Settings)
    requires b.row.status != Cancelled
    ensures AfterSweep(b, answer, provider, settings).row.status == Cancelled <==>
              && b.row.status == Pending && b.row.byCard && Untouched(b.row.payStatus)
              && (b.row.hasOrder && b.row.payStatus == Unpaid ==> answer == Open || answer == Declined)
  {
  }

  /** A recorded receipt confirms a pending booking exactly as set up for what it covers, and moves no other status. */
  lemma ReceiptConfirmsIff(b: Book, amount: int, provider: Provider, settings: Settings)
    requires Sound(b) && b.row.hasOrder && Untouched(b.row.payStatus)
    ensures var after := AfterWebhook(b, Paid(amount), provider, settings);
            && after.totals.receipts == b.totals.receipts + (if amount > 0 then amount else Charge(b.row))
            && (after.row.status != b.row.status <==>
                  && b.row.status == Pending
                  && if after.totals.receipts >= b.row.total then settings.confirmOnFull else settings.confirmOnDeposit)
            && (after.row.status != b.row.status ==> after.row.status == Confirmed)
            && (b.row.status != Cancelled ==> after.row.paid == after.totals.receipts)
  {
  }

  lemma StepKeepsFinal(b: Book, e: Event, settings: Settings)
    requires IsFinal(b.row.status)
    ensures Step(b, e, settings).row.status == b.row.status
  {
  }

  /** Completed, cancelled and no-show are never left. */
  lemma {:induction false} FinalStatusesAreFinal(b: Book, events: seq<Timed>, more: seq<Timed>)
    requires IsFinal(Run(b, events).row.status)
    ensures Run(b, events + more).row.status == Run(b, events).row.status
  {
    if more == [] {
      assert events + more == events;
    } else {
      var n := |more| - 1;
      FinalStatusesAreFinal(b, events, more[..n]);
      assert (events + more)[..|events + more| - 1] == events + more[..n];
      StepKeepsFinal(Run(b, events + more[..n]), more[n].event, more[n].settings);
    }
  }

  // -------------------------------------------------------------------------
  // Payment status
  // -------------------------------------------------------------------------

  predicate StatusAgrees(r: Row) {
    match r.payStatus
    case Unpaid => r.paid == 0 && r.manual == []
    case Failed => r.paid == 0 && r.manual == []
    case DepositPaid => 0 < r.paid < r.total
    case FullyPaid => r.paid >= r.total
    case Refunded => r.status == Cancelled
  }

  /** An order charges the booking's deposit amount, which no price edit changes. */
  predicate ChargedUpFront(r: Row) {
    r.hasOrder ==> r.deposit > 0
  }

  predicate PaidIsPositive(r: Row) {
    IsPaid(r.payStatus) ==> r.paid > 0
  }

  predicate Agrees(r: Row) {
    ChargedUpFront(r) && StatusAgrees(r) && PaidIsPositive(r)
  }

  lemma ReceiptKeepsAgreement(b: Book, amount: int, provider: Provider, settings: Settings)
    requires Sound(b) && Agrees(b.row) && b.row.hasOrder
    ensures Agrees(AfterReceipt(b, amount, provider, settings).row)
  {
  }

  lemma WebhookKeepsAgreement(b: Book, answer: Answer, provider: Provider, settings: Settings)
    requires Sound(b) && Agrees(b.row)
    ensures Agrees(AfterWebhook(b, answer, provider, settings).row)
  {
    if b.row.hasOrder && answer.Paid? {
      ReceiptKeepsAgreement(b, answer.amount, provider, settings);
    }
  }

  lemma RefundKeepsAgreement(b: Book, seen: Row, provider: Provider, policy: Policy)
    requires Sound(b) && Agrees(b.row) && b.row.status == Cancelled
    ensures Agrees(InitiateRefund(b, seen, provider, policy).row)
  {
  }

  lemma {:induction false} SettleKeepsAgreement(b: Book, provider: Provider, policy: Policy)
    requires Sound(b) && Agrees(b.row)
    ensures Agrees(AfterSettle(b, provider, policy).row)
  {
    match b.duty
    case NoDuty =>
    case StaffDuty(seen) => RefundKeepsAgreement(b, seen, provider, policy);
    case CustomerDuty => RefundKeepsAgreement(b, b.row, provider, policy);
  }

  lemma {:induction false} StepKeepsAgreement(b: Book, e: Event, settings: Settings)
    requires Sound(b) && Agrees(b.row)
    ensures Agrees(Step(b, e, settings).row)
  {
    match e
    case Webhook(answer, provider) => WebhookKeepsAgreement(b, answer, provider, settings);
    case Sweep(answer, provider) => WebhookKeepsAgreement(b, answer, provider, settings);
    case SettleRefund(provider) => SettleKeepsAgreement(b, provider, settings.policy);
    case _ =>
  }

  lemma {:induction false} RunKeepsAgreement(b: Book, events: seq<Timed>)
    requires IsPlaced(b) && ChargedUpFront(b.row)
    ensures Agrees(Run(b, events).row)
  {
    if events != [] {
      var last := events[|events| - 1];
      RunKeepsAgreement(b, events[..|events| - 1]);
      RunIsSound(b, events[..|events| - 1]);
      StepKeepsAgreement(Run(b, events[..|events| - 1]), last.event, last.settings);
    }
  }

  /** With nothing charged up front: price to zero, a receipt without an amount, price up again. */
  lemma {:induction false} ZeroChargeBreaksAgreement(b: Book, settings: Settings) returns (events: seq<Timed>)
    requires IsPlaced(b) && !ChargedUpFront(b.row)
    ensures !StatusAgrees(Run(b, events).row)
  {
    events := [Timed(EditPrice(0), settings), Timed(Webhook(Paid(0), Rejects), settings),
               Timed(EditPrice(1), settings)];
    assert events[..2][..1] == events[..1] && events[..1][..0] == [];
    assert Run(b, events[..1]) == Step(b, EditPrice(0), settings);
    assert Run(b, events[..2]) == Step(Run(b, events[..1]), events[1].event, settings);
    assert Run(b, events) == Step(Run(b, events[..2]), EditPrice(1), settings);
  }

  /** The payment status agrees with the amounts in every run exactly when an order has a positive amount of its own. */
  lemma StatusAgreesIffChargedUpFront(b: Book, settings: Settings)
    requires IsPlaced(b)
    ensures (forall events :: StatusAgrees(Run(b, events).row)) <==> ChargedUpFront(b.row)
  {
    if ChargedUpFront(b.row) {
      forall events ensures StatusAgrees(Run(b, events).row) {
        RunKeepsAgreement(b, events);
      }
    } else {
      var events := ZeroChargeBreaksAgreement(b, settings);
    }
  }
}
