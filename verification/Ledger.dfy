/**
The money of one booking. Amounts are cents. Every event is one transaction of the code; a
cancellation commits first and leaves its refund to be made afterwards, so a webhook can come in
between. `Totals` counts, beside the row, what really moved through the payment provider.
*/
module Ledger {
  import opened BookingStatus
  import opened Options
  import opened Refunds

  datatype PayStatus = Unpaid | DepositPaid | FullyPaid | Failed | Refunded

  /** payment_metadata['refund'] */
  datatype RefundNote = NoNote | Requested(amount: int) | ManualRequired(amount: int)

  datatype Row = Row(
    status: Status,
    payStatus: PayStatus,
    total: int,
    deposit: int,
    paid: int,
    manual: seq<int>,
    byCard: bool,
    hasOrder: bool,
    note: RefundNote,
    manualRefund: Option<int>)

  /** The refund a cancellation still has to make: staff's with the row they saw, the customer's by re-reading it. */
  datatype Duty = NoDuty | StaffDuty(seen: Row) | CustomerDuty

  /** Online receipts recorded, those recorded after cancellation, money refunded, refund calls made and accepted. */
  datatype Totals = Totals(receipts: int, late: int, refunded: int, attempts: nat, accepted: nat)

  datatype Book = Book(row: Row, duty: Duty, totals: Totals)

  /** What the bank says about an order; a paid receipt may carry no amount (zero or less). */
  datatype Answer = Paid(amount: int) | Declined | Open | Unclear

  /** What happens to a refund call. */
  datatype Provider = Accepts | Rejects | Unavailable

  datatype Settings = Settings(policy: Policy, confirmOnDeposit: bool, confirmOnFull: bool)

  datatype Event =
    | Webhook(answer: Answer, provider: Provider)
    | Sweep(answer: Answer, provider: Provider)
    | RecordPayment(amount: int)
    | EditPrice(value: int)
    | Confirm(force: bool)
    | CheckIn(force: bool)
    | Complete
    | MarkNoShow
    | CancelByStaff(refund: bool)
    | CancelByCustomer(inNotice: bool)
    | SettleRefund(provider: Provider)

  predicate IsPaid(p: PayStatus) {
    p == DepositPaid || p == FullyPaid
  }

  // -------------------------------------------------------------------------
  // Amounts
  // -------------------------------------------------------------------------

  function Charge(r: Row): int {
    if r.deposit > 0 then r.deposit else r.total
  }

  function ManualPaid(r: Row): int {
    Total(r.manual)
  }

  function OnlinePaid(r: Row): int {
    if r.paid - ManualPaid(r) > 0 then r.paid - ManualPaid(r) else 0
  }

  function PaidStatus(paid: int, total: int): PayStatus {
    if paid >= total then FullyPaid else DepositPaid
  }

  // -------------------------------------------------------------------------
  // The events
  // -------------------------------------------------------------------------

  function AfterReceipt(b: Book, amount: int, provider: Provider, settings: Settings): Book {
    var paid := if amount > 0 then amount else Charge(b.row);
    var row := b.row.(paid := paid, payStatus := PaidStatus(paid, b.row.total), note := NoNote, manualRefund := None);
    var totals := b.totals.(receipts := b.totals.receipts + paid);
    if row.status == Cancelled then
      var late := totals.(late := totals.late + paid, attempts := totals.attempts + 1);
      if provider == Accepts then
        b.(row := row.(note := Requested(paid), payStatus := Refunded, paid := 0),
           totals := late.(refunded := late.refunded + paid, accepted := late.accepted + 1))
      else
        b.(row := row.(note := ManualRequired(paid)), totals := late)
    else
      var confirms := row.status == Pending
        && (if row.payStatus == FullyPaid then settings.confirmOnFull else settings.confirmOnDeposit);
      b.(row := if confirms then row.(status := Confirmed) else row, totals := totals)
  }

  /** A webhook, or a status check made for the customer's page: the callback only says where to look. */
  function AfterWebhook(b: Book, answer: Answer, provider: Provider, settings: Settings): Book {
    if !b.row.hasOrder || IsPaid(b.row.payStatus) || b.row.payStatus == Refunded then b
    else
      match answer
      case Paid(amount) => AfterReceipt(b, amount, provider, settings)
      case Declined =>
        b.(row := b.row.(payStatus := Failed, status := if b.row.status == Pending then Cancelled else b.row.status))
      case Open => b
      case Unclear => b
  }

  /** Staff record a payment taken by hand: never on a cancelled booking, never more than is owed. */
  function AfterPayment(b: Book, amount: int): Book {
    if amount < 1 || b.row.status == Cancelled || amount > b.row.total - b.row.paid then b
    else
      var paid := b.row.paid + amount;
      b.(row := b.row.(paid := paid, payStatus := PaidStatus(paid, b.row.total), manual := b.row.manual + [amount]))
  }

  /** The row an edit of notes or price saves: all of it as it was read, the price and the status that follows new. */
  function Edited(seen: Row, value: Option<int>): Row {
    match value
    case None => seen
    case Some(price) =>
      var rederive := seen.paid > 0 && (seen.payStatus == Unpaid || IsPaid(seen.payStatus));
      seen.(total := price, payStatus := if rederive then PaidStatus(seen.paid, price) else seen.payStatus)
  }

  /** A price is not taken below what the row, as it was read, says was paid. */
  predicate IsEdit(seen: Row, value: Option<int>) {
    value.Some? ==> value.value >= 0 && value.value >= seen.paid
  }

  function AfterEdit(b: Book, seen: Row, value: Option<int>): Book {
    if IsEdit(seen, value) then b.(row := Edited(seen, value)) else b
  }

  /** The unpaid sweeper on one booking that is past the grace time. */
  function AfterSweep(b: Book, answer: Answer, provider: Provider, settings: Settings): Book {
    if !(b.row.status == Pending && b.row.byCard && (b.row.payStatus == Unpaid || b.row.payStatus == Failed)) then b
    else if b.row.hasOrder && b.row.payStatus == Unpaid then
      var asked := AfterWebhook(b, answer, provider, settings);
      if answer != Open && answer != Declined then asked
      else if asked.row.status != Pending || IsPaid(asked.row.payStatus) then asked
      else asked.(row := asked.row.(status := Cancelled))
    else b.(row := b.row.(status := Cancelled))
  }

  predicate AwaitsOnlinePayment(r: Row) {
    r.byCard && !IsPaid(r.payStatus)
  }

  /** The online part of a refund, worked out on the row `seen` and saved on the row `row`. */
  function InitiateRefund(b: Book, seen: Row, provider: Provider, policy: Policy): Book {
    var amount := ApplyRefundPolicy(OnlinePaid(seen), policy);
    if provider == Unavailable || !seen.hasOrder || OnlinePaid(seen) <= 0 || seen.note.Requested? || amount <= 0 then b
    else
      var tried := b.totals.(attempts := b.totals.attempts + 1);
      if provider == Accepts then
        Book(b.row.(payStatus := Refunded, note := Requested(amount), manualRefund := seen.manualRefund,
                    paid := if seen.paid - amount > 0 then seen.paid - amount else 0),
             b.duty, tried.(refunded := tried.refunded + amount, accepted := tried.accepted + 1))
      else
        b.(row := b.row.(note := ManualRequired(amount), manualRefund := seen.manualRefund), totals := tried)
  }

  function ManualRefundDue(r: Row, policy: Policy): int {
    ApplyRefundPolicy(if ManualPaid(r) < r.paid then ManualPaid(r) else r.paid, policy)
  }

  /** Cash recorded at the desk is flagged for returning by hand, once. */
  function FlagManualRefund(r: Row, policy: Policy): Row {
    var due := ManualRefundDue(r, policy);
    if due > 0 && r.manualRefund.None? then r.(manualRefund := Some(due)) else r
  }

  function AfterSettle(b: Book, provider: Provider, policy: Policy): Book {
    match b.duty
    case NoDuty => b
    case StaffDuty(seen) =>
      var after := InitiateRefund(b, seen, provider, policy);
      after.(duty := NoDuty, row := FlagManualRefund(after.row, policy))
    case CustomerDuty =>
      if b.row.paid <= 0 then b.(duty := NoDuty)
      else
        var after := InitiateRefund(b, b.row, provider, policy);
        after.(duty := NoDuty, row := FlagManualRefund(after.row, policy))
  }

  function Step(b: Book, e: Event, settings: Settings): Book {
    var row := b.row;
    match e
    case Webhook(answer, provider) => AfterWebhook(b, answer, provider, settings)
    case Sweep(answer, provider) => AfterSweep(b, answer, provider, settings)
    case RecordPayment(amount) => AfterPayment(b, amount)
    case EditPrice(value) => AfterEdit(b, row, Some(value))
    case Confirm(force) =>
      if row.status != Pending || (!force && AwaitsOnlinePayment(row)) then b
      else b.(row := row.(status := Confirmed))
    case CheckIn(force) =>
      if row.status != Pending && row.status != Confirmed then b
      else if row.status == Pending && !force && AwaitsOnlinePayment(row) then b
      else b.(row := row.(status := InProgress))
    case Complete =>
      if row.status != Confirmed && row.status != InProgress then b else b.(row := row.(status := Completed))
    case MarkNoShow =>
      if row.status != Pending && row.status != Confirmed then b else b.(row := row.(status := NoShow))
    case CancelByStaff(refund) =>
      if IsFinal(row.status) then b
      else
        var cancelled := row.(status := Cancelled);
        b.(row := cancelled, duty := if refund && row.paid > 0 then StaffDuty(cancelled) else NoDuty)
    case CancelByCustomer(inNotice) =>
      if IsFinal(row.status) || !inNotice then b else b.(row := row.(status := Cancelled), duty := CustomerDuty)
    case SettleRefund(provider) => AfterSettle(b, provider, settings.policy)
  }

  datatype Timed = Timed(event: Event, settings: Settings)

  function Run(b: Book, events: seq<Timed>): Book {
    if events == [] then b
    else
      var last := events[|events| - 1];
      Step(Run(b, events[..|events| - 1]), last.event, last.settings)
  }

  /** A booking as it is made: nothing paid yet, an order only when paying by card. */
  ghost predicate IsPlaced(b: Book) {
    && b.row.total >= 0 && b.row.deposit >= 0
    && b.row.paid == 0 && b.row.manual == [] && b.row.payStatus == Unpaid
    && b.row.note == NoNote && b.row.manualRefund == None
    && (b.row.hasOrder ==> b.row.byCard)
    && b.duty == NoDuty && b.totals == Totals(0, 0, 0, 0, 0)
  }
}
