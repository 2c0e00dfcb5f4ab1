/**
An edit of notes or price saves the whole row as it was read. What that does to the money when something was
written in between: exactly when the books still balance, and inputs on which they do not.
*/
module LateEdits {
  import opened BookingStatus
  import opened Options
  import opened Ledger
  import opened LedgerInvariants

  /** What a row says was paid online and not returned. */
  function OnlineNet(r: Row): int {
    r.paid - ManualPaid(r)
  }

  /** The books balance after the edit exactly if the row read and the row it replaces agree on the online money. */
  lemma EditConservesIff(b: Book, seen: Row, value: Option<int>)
    requires Conserved(b) && IsEdit(seen, value)
    requires seen.hasOrder == b.row.hasOrder && forall k :: 0 <= k < |seen.manual| ==> seen.manual[k] > 0
    ensures Conserved(AfterEdit(b, seen, value)) <==> OnlineNet(seen) == OnlineNet(b.row)
  {
  }

  lemma StepKeepsOrder(b: Book, e: Event, settings: Settings)
    requires Sound(b)
    ensures Step(b, e, settings).row.hasOrder == b.row.hasOrder
  {
    match e
    case SettleRefund(provider) =>
    case _ =>
  }

  lemma {:induction false} RunKeepsOrder(b: Book, events: seq<Timed>)
    requires IsPlaced(b)
    ensures Run(b, events).row.hasOrder == b.row.hasOrder
  {
    if events != [] {
      var n := |events| - 1;
      RunKeepsOrder(b, events[..n]);
      RunIsSound(b, events[..n]);
      StepKeepsOrder(Run(b, events[..n]), events[n].event, events[n].settings);
    }
  }

  /**
  For every run, a row read at any point of it and an edit saved at its end: the books balance if and only if no
  online money came or went on balance in between, that is, if the two rows agree on it.
  */
  lemma {:induction false} LateEditKeepsMoneyIff(b: Book, events: seq<Timed>, more: seq<Timed>, value: Option<int>)
    requires IsPlaced(b) && IsEdit(Run(b, events).row, value)
    ensures var read, now := Run(b, events), Run(b, events + more);
            && (Conserved(AfterEdit(now, read.row, value)) <==> OnlineNet(read.row) == OnlineNet(now.row))
            && (OnlineNet(read.row) == OnlineNet(now.row) <==>
                  read.totals.receipts - read.totals.refunded == now.totals.receipts - now.totals.refunded)
  {
    RunIsSound(b, events);
    RunIsSound(b, events + more);
    RunKeepsOrder(b, events);
    RunKeepsOrder(b, events + more);
    EditConservesIff(Run(b, events + more), Run(b, events).row, value);
  }

  // -------------------------------------------------------------------------
  // Inputs
  // -------------------------------------------------------------------------

  /** A booking of 100 by card, charged in full, with its order. */
  function ByCard(): Book {
    Book(Row(Pending, Unpaid, 100, 100, 0, [], true, true, NoNote, None), NoDuty, Totals(0, 0, 0, 0, 0))
  }

  lemma RunOne(b: Book, e: Timed)
    ensures Run(b, [e]) == Step(b, e.event, e.settings)
  {
    assert [e][..0] == [];
  }

  /** A receipt of 100 recorded while the row was open for editing is gone from the row. */
  lemma LateEditLosesAReceipt(settings: Settings)
    ensures var now := Run(ByCard(), [Timed(Webhook(Paid(100), Accepts), settings)]);
            var after := AfterEdit(now, ByCard().row, Some(120));
            && IsPlaced(ByCard()) && now.row.paid == 100
            && after.row.paid == 0 && after.row.payStatus == Unpaid && after.totals.receipts == 100 && !Conserved(after)
  {
    RunOne(ByCard(), Timed(Webhook(Paid(100), Accepts), settings));
  }

  /** A payment by hand recorded meanwhile is gone too, and the books still balance. */
  lemma LateEditLosesAHandPayment(settings: Settings)
    ensures var now := Run(ByCard(), [Timed(RecordPayment(40), settings)]);
            var after := AfterEdit(now, ByCard().row, None);
            now.row.manual == [40] && after.row.manual == [] && after.row.paid == 0 && Conserved(after)
  {
    RunOne(ByCard(), Timed(RecordPayment(40), settings));
    assert ([] + [40])[..0] == [];
  }

  /** A booking cancelled meanwhile is pending again, though a final status is otherwise never left. */
  lemma LateEditReopensABooking(settings: Settings)
    ensures var now := Run(ByCard(), [Timed(CancelByStaff(true), settings)]);
            now.row.status == Cancelled && AfterEdit(now, ByCard().row, None).row.status == Pending
  {
    RunOne(ByCard(), Timed(CancelByStaff(true), settings));
  }
}
