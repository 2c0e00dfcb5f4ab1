/** What each event of the ledger does to the booking's row and its money, on the columns, and when it does nothing. */
module LedgerMeaning {
  import opened BookingStatus
  import opened Options
  import opened Refunds
  import opened Ledger

  /** What an amount comes to against a price. */
  predicate IsStatusFor(status: PayStatus, paid: int, price: int) {
    status == FullyPaid <==> paid >= price
  }

  // -------------------------------------------------------------------------
  // The bank
  // -------------------------------------------------------------------------

  /** The bank is asked about an order as long as nothing was paid or refunded. */
  predicate Listens(r: Row) {
    r.hasOrder && r.payStatus in {Unpaid, Failed}
  }

  /** The receipt's amount; without one the deposit that was asked for, or else the price. */
  function Received(r: Row, amount: int): int {
    if amount > 0 then amount else if r.deposit > 0 then r.deposit else r.total
  }

  /** Anything but a receipt moves no money; a declined order fails, and a pending booking is cancelled with it. */
  lemma OnlyReceiptsMoveMoney(b: Book, answer: Answer, provider: Provider, settings: Settings)
    requires !answer.Paid? || !Listens(b.row)
    ensures var after := Step(b, Webhook(answer, provider), settings);
            if Listens(b.row) && answer == Declined then
              after == b.(row := b.row.(payStatus := Failed,
                                        status := if b.row.status == Pending then Cancelled else b.row.status))
            else after == b
  {
  }

  /** A receipt on a booking that is not cancelled is its paid amount, and confirms a pending one if set up so. */
  lemma ReceiptIsRecorded(b: Book, amount: int, provider: Provider, settings: Settings)
    requires Listens(b.row) && b.row.status != Cancelled
    ensures var after, received := Step(b, Webhook(Paid(amount), provider), settings), Received(b.row, amount);
            var full := received >= b.row.total;
            var setUp := if full then settings.confirmOnFull else settings.confirmOnDeposit;
            && after.row == b.row.(paid := received, payStatus := if full then FullyPaid else DepositPaid,
                                   status := if b.row.status == Pending && setUp then Confirmed else b.row.status,
                                   note := NoNote, manualRefund := None)
            && after.totals == b.totals.(receipts := b.totals.receipts + received)
            && after.duty == b.duty
  {
  }

  /** A receipt on a cancelled booking goes back at once, all of it, or is noted in full for staff. */
  lemma LateReceiptGoesBack(b: Book, amount: int, provider: Provider, settings: Settings)
    requires Listens(b.row) && b.row.status == Cancelled
    ensures var after, received := Step(b, Webhook(Paid(amount), provider), settings), Received(b.row, amount);
            && after.row.status == Cancelled && after.duty == b.duty
            && after.totals.receipts == b.totals.receipts + received
            && after.totals.late == b.totals.late + received
            && after.totals.attempts == b.totals.attempts + 1
            && if provider == Accepts then
                 && after.row.paid == 0 && after.row.payStatus == Refunded && after.row.note == Requested(received)
                 && after.totals.refunded == b.totals.refunded + received
                 && after.totals.accepted == b.totals.accepted + 1
               else
                 && after.row.paid == received && IsStatusFor(after.row.payStatus, received, b.row.total)
                 && after.row.note == ManualRequired(received)
                 && after.totals.refunded == b.totals.refunded && after.totals.accepted == b.totals.accepted
  {
  }

  /** The sweeper asks about an order never paid, and gives up what is open, declined, failed or not ordered. */
  lemma SweepIs(b: Book, answer: Answer, provider: Provider, settings: Settings)
    ensures var after := Step(b, Sweep(answer, provider), settings);
            var waits := b.row.status == Pending && b.row.byCard && b.row.payStatus in {Unpaid, Failed};
            var asks := b.row.hasOrder && b.row.payStatus == Unpaid;
            if !waits then after == b
            else if asks && answer != Open && answer != Declined then
              after == Step(b, Webhook(answer, provider), settings)
            else
              after == b.(row := b.row.(status := Cancelled,
                                        payStatus := if asks && answer == Declined then Failed else b.row.payStatus))
  {
  }

  // -------------------------------------------------------------------------
  // The desk
  // -------------------------------------------------------------------------

  /** A payment by hand is taken if it is no more than is owed: on top of what was paid, and of the hand payments. */
  lemma PaymentIsTakenIff(b: Book, amount: int, settings: Settings)
    ensures var after := Step(b, RecordPayment(amount), settings);
            if amount >= 1 && b.row.status != Cancelled && b.row.paid + amount <= b.row.total then
              && after.row.paid == b.row.paid + amount && Total(after.row.manual) == Total(b.row.manual) + amount
              && |after.row.manual| == |b.row.manual| + 1 && b.row.manual <= after.row.manual
              && after.row.payStatus == (if after.row.paid == b.row.total then FullyPaid else DepositPaid)
              && after == b.(row := b.row.(paid := after.row.paid, manual := after.row.manual,
                                           payStatus := after.row.payStatus))
            else after == b
  {
    assert (b.row.manual + [amount])[..|b.row.manual|] == b.row.manual;
  }

  /** A price is taken if it covers what was paid; where money came in, it decides what the payment comes to. */
  lemma PriceIsTakenIff(b: Book, price: int, settings: Settings)
    ensures var after := Step(b, EditPrice(price), settings);
            if price >= 0 && price >= b.row.paid then
              && after == b.(row := b.row.(total := price, payStatus := after.row.payStatus))
              && (if b.row.paid > 0 && b.row.payStatus !in {Failed, Refunded} then
                    after.row.payStatus == if b.row.paid == price then FullyPaid else DepositPaid
                  else after.row.payStatus == b.row.payStatus)
            else after == b
  {
  }

  /** A pending booking that still waits for its card payment is confirmed, or checked in, only by force. */
  lemma DeskMovesIff(b: Book, force: bool, settings: Settings)
    ensures var status := b.row.status;
            var waits := b.row.byCard && b.row.payStatus in {Unpaid, Failed, Refunded};
            && Step(b, Event.Confirm(force), settings) ==
               (if status == Pending && (force || !waits) then b.(row := b.row.(status := Confirmed)) else b)
            && Step(b, Event.CheckIn(force), settings) ==
               (if status == Confirmed || (status == Pending && (force || !waits))
                then b.(row := b.row.(status := InProgress)) else b)
            && Step(b, Event.Complete, settings) ==
               (if status in {Confirmed, InProgress} then b.(row := b.row.(status := Completed)) else b)
            && Step(b, Event.MarkNoShow, settings) ==
               (if status in {Pending, Confirmed} then b.(row := b.row.(status := NoShow)) else b)
  {
  }

  /** Who cancels decides what is refunded from: staff from the row they saw, if paid; the customer from a new look. */
  lemma CancellationLeaves(b: Book, flag: bool, settings: Settings)
    ensures var cancelled := b.row.(status := Cancelled);
            var live := b.row.status in {Pending, Confirmed, InProgress};
            && Step(b, CancelByStaff(flag), settings) ==
               (if !live then b
                else Book(cancelled, if flag && b.row.paid > 0 then StaffDuty(cancelled) else NoDuty, b.totals))
            && Step(b, CancelByCustomer(flag), settings) ==
               (if live && flag then Book(cancelled, CustomerDuty, b.totals) else b)
  {
  }
}
