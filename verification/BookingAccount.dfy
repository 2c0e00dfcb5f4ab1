/** The booking row whose money fields the payment handlers update in place. */
module BookingAccounts {
  import opened BookingStatus
  import opened Options
  import opened Refunds
  import opened Ledger
  import opened LedgerInvariants

  class BookingAccount {
    var status: Status
    var payStatus: PayStatus
    var total: int
    var paid: int
    var manual: seq<int>
    var note: RefundNote
    var manualRefund: Option<int>
    var duty: Duty
    const deposit: int
    const byCard: bool
    const hasOrder: bool
    ghost var totals: Totals

    ghost function View(): Book
      reads this
    {
      Book(Snapshot(), duty, totals)
    }

    function Snapshot(): Row
      reads this
    {
      Row(status, payStatus, total, deposit, paid, manual, byCard, hasOrder, note, manualRefund)
    }

    /** Money conserved, refunds bounded, late money noted: what every handler relies on and keeps. */
    ghost predicate Valid()
      reads this
      ensures Valid() ==> paid == totals.receipts - totals.refunded + Total(manual)
    {
      Sound(View())
    }

    constructor (status: Status, total: int, deposit: int, byCard: bool, hasOrder: bool)
      requires total >= 0 && deposit >= 0 && (hasOrder ==> byCard)
      ensures IsPlaced(View()) && Valid()
      ensures Snapshot() == Row(status, Unpaid, total, deposit, 0, [], byCard, hasOrder, NoNote, None)
    {
      this.status, this.total, this.deposit, this.byCard, this.hasOrder := status, total, deposit, byCard, hasOrder;
      payStatus, paid, manual, note, manualRefund, duty := Unpaid, 0, [], NoNote, None, NoDuty;
      totals := Totals(0, 0, 0, 0, 0);
    }

    /** Sum of the payments staff recorded by hand. */
    method ManualPaidAmount(payments: seq<int>) returns (sum: int)
      ensures sum == Total(payments)
    {
      sum := 0;
      for k := 0 to |payments|
        invariant sum == Total(payments[..k])
      {
        sum := sum + payments[k];
        assert payments[..k + 1][..k] == payments[..k];
      }
      assert payments[..|payments|] == payments;
    }

    /** The bank confirmed the order: write the receipt down, send late money back, confirm if set up so. */
    method RecordReceipt(amount: int, provider: Provider, settings: Settings)
      modifies this
      ensures View() == AfterReceipt(old(View()), amount, provider, settings)
    {
      WriteReceipt(amount);
      if status == Cancelled {
        RefundLateReceipt(provider);
      } else {
        AutoConfirm(settings);
      }
    }

    method WriteReceipt(amount: int)
      modifies this`paid, this`payStatus, this`note, this`manualRefund, this`totals
      ensures var received := if amount > 0 then amount else Charge(old(Snapshot()));
              && Snapshot() == old(Snapshot()).(paid := received, payStatus := PaidStatus(received, total),
                                                note := NoNote, manualRefund := None)
              && totals == old(totals).(receipts := old(totals).receipts + received)
    {
      paid := amount;
      if paid <= 0 {
        paid := if deposit > 0 then deposit else total;
      }
      payStatus := if paid >= total then FullyPaid else DepositPaid;
      note, manualRefund := NoNote, None;
      totals := totals.(receipts := totals.receipts + paid);
    }

    method RefundLateReceipt(provider: Provider)
      modifies this`paid, this`payStatus, this`note, this`totals
      ensures Snapshot() ==
              if provider == Accepts
              then old(Snapshot()).(note := Requested(old(paid)), payStatus := Refunded, paid := 0)
              else old(Snapshot()).(note := ManualRequired(old(paid)))
      ensures var late := old(totals).(late := old(totals).late + old(paid), attempts := old(totals).attempts + 1);
              totals == if provider != Accepts then late
                        else late.(refunded := late.refunded + old(paid), accepted := late.accepted + 1)
    {
      totals := totals.(late := totals.late + paid, attempts := totals.attempts + 1);
      if provider == Accepts {
        totals := totals.(refunded := totals.refunded + paid, accepted := totals.accepted + 1);
        note := Requested(paid);
        payStatus := Refunded;
        paid := 0;
      } else {
        note := ManualRequired(paid);
      }
    }

    method AutoConfirm(settings: Settings)
      requires IsPaid(payStatus)
      modifies this`status
      ensures var confirms := if payStatus == FullyPaid then settings.confirmOnFull else settings.confirmOnDeposit;
              status == if old(status) == Pending && confirms then Confirmed else old(status)
    {
      if status == Pending {
        if payStatus == FullyPaid && settings.confirmOnFull {
          status := Confirmed;
        } else if payStatus == DepositPaid && settings.confirmOnDeposit {
          status := Confirmed;
        }
      }
    }

    /** Returns what the bank was found to say, or None when it was not asked. */
    method ProcessWebhook(answer: Answer, provider: Provider, settings: Settings) returns (lastState: Option<Answer>)
      requires Valid()
      modifies this
      ensures Valid()
      ensures View() == AfterWebhook(old(View()), answer, provider, settings)
      ensures lastState ==
              if hasOrder && !IsPaid(old(payStatus)) && old(payStatus) != Refunded then Some(answer) else None
    {
      WebhookKeepsSound(View(), answer, provider, settings);
      if !hasOrder || payStatus == DepositPaid || payStatus == FullyPaid || payStatus == Refunded {
        return None;
      }
      if answer.Paid? {
        RecordReceipt(answer.amount, provider, settings);
      } else if answer == Declined {
        payStatus := Failed;
        if status == Pending {
          status := Cancelled;
        }
      }
      return Some(answer);
    }

    /** One booking in the unpaid sweeper. Returns whether the sweeper itself cancelled it. */
    method CancelIfUnpaid(answer: Answer, provider: Provider, settings: Settings) returns (cancelled: bool)
      requires Valid()
      modifies this
      ensures Valid()
      ensures View() == AfterSweep(old(View()), answer, provider, settings)
      ensures cancelled ==> old(status) == Pending && status == Cancelled
    {
      SweepKeepsSound(View(), answer, provider, settings);
      if status != Pending || !byCard || (payStatus != Unpaid && payStatus != Failed) {
        return false;
      }
      if hasOrder && payStatus == Unpaid {
        var lastState := ProcessWebhook(answer, provider, settings);
        if lastState != Some(Open) && lastState != Some(Declined) {
          return false;
        }
        if status != Pending || payStatus == DepositPaid || payStatus == FullyPaid {
          return false;
        }
      }
      status := Cancelled;
      return true;
    }

    /** Staff take a payment by hand. */
    method RecordPayment(amount: int) returns (ok: bool)
      requires Valid()
      modifies this
      ensures Valid()
      ensures View() == AfterPayment(old(View()), amount)
      ensures ok <==> amount >= 1 && old(status) != Cancelled && amount <= old(total) - old(paid)
    {
      PaymentKeepsSound(View(), amount);
      ok := TakePayment(amount);
    }

    method TakePayment(amount: int) returns (ok: bool)
      modifies this`paid, this`payStatus, this`manual
      ensures View() == AfterPayment(old(View()), amount)
      ensures ok <==> amount >= 1 && status != Cancelled && amount <= total - old(paid)
    {
      if amount < 1 || status == Cancelled || amount > total - paid {
        return false;
      }
      paid := paid + amount;
      payStatus := if paid >= total then FullyPaid else DepositPaid;
      manual := manual + [amount];
      return true;
    }

    /** Saves the whole row as it was read, with the new price; harmless if nothing was written since. */
    method UpdateTotal(seen: Row, value: Option<int>) returns (ok: bool)
      requires Valid() && seen.deposit == deposit && seen.byCard == byCard && seen.hasOrder == hasOrder
      modifies this
      ensures View() == AfterEdit(old(View()), seen, value)
      ensures seen == old(Snapshot()) ==> Valid()
      ensures ok <==> IsEdit(seen, value)
    {
      if seen == Snapshot() {
        EditKeepsSound(View(), value);
      }
      if value.Some? && (value.value < 0 || value.value < seen.paid) {
        return false;
      }
      var row := seen;
      if value.Some? {
        row := row.(total := value.value);
        if row.paid > 0 && (row.payStatus == Unpaid || row.payStatus == DepositPaid || row.payStatus == FullyPaid) {
          row := row.(payStatus := if row.paid >= row.total then FullyPaid else DepositPaid);
        }
      }
      Save(row);
      return true;
    }

    /** All columns at once. */
    method Save(row: Row)
      requires row.deposit == deposit && row.byCard == byCard && row.hasOrder == hasOrder
      modifies this`status, this`payStatus, this`total, this`paid, this`manual, this`note, this`manualRefund
      ensures Snapshot() == row
    {
      status, payStatus, total, paid, manual := row.status, row.payStatus, row.total, row.paid, row.manual;
      note, manualRefund := row.note, row.manualRefund;
    }

    method CancelByStaff(refund: bool, settings: Settings) returns (ok: bool)
      requires Valid()
      modifies this
      ensures Valid()
      ensures View() == Step(old(View()), Ledger.CancelByStaff(refund), settings)
      ensures ok <==> !IsFinal(old(status))
    {
      StepKeepsSound(View(), Ledger.CancelByStaff(refund), settings);
      if IsFinal(status) {
        return false;
      }
      status := Cancelled;
      duty := NoDuty;
      if refund && paid > 0 {
        duty := StaffDuty(Snapshot());
      }
      return true;
    }

    method CancelByCustomer(inNotice: bool, settings: Settings) returns (ok: bool)
      requires Valid()
      modifies this
      ensures Valid()
      ensures View() == Step(old(View()), Ledger.CancelByCustomer(inNotice), settings)
      ensures ok <==> inNotice && !IsFinal(old(status))
    {
      StepKeepsSound(View(), Ledger.CancelByCustomer(inNotice), settings);
      if IsFinal(status) || !inNotice {
        return false;
      }
      status, duty := Cancelled, CustomerDuty;
      return true;
    }

    method InitiateRefund(seen: Row, provider: Provider, policy: Policy)
      modifies this
      ensures View() == Ledger.InitiateRefund(old(View()), seen, provider, policy)
    {
      var byHand := ManualPaidAmount(seen.manual);
      var online := if seen.paid - byHand > 0 then seen.paid - byHand else 0;
      if provider == Unavailable || !seen.hasOrder || online <= 0 || seen.note.Requested? {
        return;
      }
      var amount := ApplyRefundPolicy(online, policy);
      if amount <= 0 {
        return;
      }
      totals := totals.(attempts := totals.attempts + 1);
      manualRefund := seen.manualRefund;
      if provider == Accepts {
        note := Requested(amount);
        payStatus := Refunded;
        paid := if seen.paid - amount > 0 then seen.paid - amount else 0;
        totals := totals.(refunded := totals.refunded + amount, accepted := totals.accepted + 1);
      } else {
        note := ManualRequired(amount);
      }
    }

    method FlagManualRefund(policy: Policy)
      modifies this`manualRefund
      ensures Snapshot() == Ledger.FlagManualRefund(old(Snapshot()), policy)
    {
      var byHand := ManualPaidAmount(manual);
      var due := ApplyRefundPolicy(if byHand < paid then byHand else paid, policy);
      if due > 0 && manualRefund.None? {
        manualRefund := Some(due);
      }
    }

    /** The refund work that follows a committed cancellation. */
    method SettleRefund(provider: Provider, policy: Policy)
      requires Valid()
      modifies this
      ensures Valid()
      ensures View() == AfterSettle(old(View()), provider, policy)
    {
      SettleKeepsSound(View(), provider, policy);
      if duty.StaffDuty? {
        InitiateRefund(duty.seen, provider, policy);
        FlagManualRefund(policy);
      } else if duty.CustomerDuty? && paid > 0 {
        InitiateRefund(Snapshot(), provider, policy);
        FlagManualRefund(policy);
      }
      duty := NoDuty;
    }
  }
}
