/**
How a customer's booking is placed: the payment options offered, the deposit stored, and when an order is charged.
*/
module Placement {
  import opened BookingStatus
  import opened Options
  import opened Refunds
  import opened Ledger
  import opened LedgerInvariants

  datatype Choice = Cash | Deposit | FullPrice

  /** The business's settings, where there are any. */
  datatype Shop = Shop(allowCard: bool, hasCredentials: bool, allowCash: bool, requireDeposit: bool)

  predicate TakesCards(shop: Option<Shop>) {
    shop.Some? && shop.value.allowCard && shop.value.hasCredentials
  }

  predicate TakesCash(shop: Option<Shop>) {
    shop.Some? ==> shop.value.allowCash && !(shop.value.requireDeposit && TakesCards(shop))
  }

  /** What a customer may choose from, for a price in cents and a deposit in percent. */
  function Offered(shop: Option<Shop>, price: nat, percent: int): (choices: seq<Choice>)
    ensures choices != []
    ensures forall c :: c in choices && c != Cash ==> price > 0 && TakesCards(shop)
    ensures Deposit in choices ==> 0 < percent < 100
  {
    if price == 0 then [Cash]
    else
      var choices := (if TakesCash(shop) then [Cash] else [])
                     + (if TakesCards(shop) && 0 < percent < 100 then [Deposit] else [])
                     + (if TakesCards(shop) then [FullPrice] else []);
      if choices == [] then [Cash] else choices
  }

  /** The deposit as it is stored, in whole cents. */
  function StoredDeposit(choice: Choice, price: nat, percent: int): nat {
    match choice
    case Cash => 0
    case Deposit => if price * percent > 0 then HalfEven(price * percent, 100) else 0
    case FullPrice => price
  }

  /** A choice is offered exactly if the price, the settings and the deposit allow it; cash where nothing else is. */
  lemma OfferedIff(shop: Option<Shop>, price: nat, percent: int)
    ensures var cards := shop.Some? && shop.value.allowCard && shop.value.hasCredentials;
            var choices := Offered(shop, price, percent);
            && (FullPrice in choices <==> price > 0 && cards)
            && (Deposit in choices <==> price > 0 && cards && 0 < percent < 100)
            && (Cash in choices <==> price == 0 || !cards || (shop.value.allowCash && !shop.value.requireDeposit))
            && (Cash in choices ==> choices[0] == Cash)
            && (Cash !in choices && Deposit in choices ==> choices[0] == Deposit)
  {
  }

  /** What is stored as the deposit: nothing, all, or the percentage to the nearest cent. */
  lemma StoredDepositIs(price: nat, percent: nat)
    ensures StoredDeposit(Cash, price, percent) == 0
    ensures StoredDeposit(FullPrice, price, percent) == price
    ensures IsNearest(StoredDeposit(Deposit, price, percent), price * percent, 100)
  {
    assert price * percent >= 0;
    NearestOf(price * percent, 100);
  }

  /** The booking as it is placed; one paid by card has an order at the bank. */
  function Placed(choice: Choice, price: nat, percent: int): Book {
    var byCard := choice != Cash;
    Book(Row(Pending, Unpaid, price, StoredDeposit(choice, price, percent), 0, [], byCard, byCard, NoNote, None),
         NoDuty, Totals(0, 0, 0, 0, 0))
  }

  /** Half a cent is rounded down to none. */
  lemma HundredthsRoundUpIff(n: nat)
    ensures HalfEven(n, 100) > 0 <==> n > 50
  {
  }

  /** A card order that is offered has an amount of its own exactly if all is paid, or the share is over half a cent. */
  lemma OfferedOrderIsChargedIff(shop: Option<Shop>, choice: Choice, price: nat, percent: int)
    requires choice in Offered(shop, price, percent) && choice != Cash
    ensures StoredDeposit(choice, price, percent) > 0 <==> choice == FullPrice || price * percent > 50
  {
    if choice == Deposit {
      if price * percent > 0 {
        HundredthsRoundUpIff(price * percent);
      }
    }
  }

  /**
  For every booking a customer can place: payment status and amounts agree on every run if and only if it is paid
  at the venue, in full, or by a deposit of more than half a cent.
  */
  lemma PlacedBookingAgreesIff(shop: Option<Shop>, choice: Choice, price: nat, percent: int, settings: Settings)
    requires choice in Offered(shop, price, percent)
    ensures IsPlaced(Placed(choice, price, percent))
    ensures (forall events :: StatusAgrees(Run(Placed(choice, price, percent), events).row)) <==>
              choice == Cash || choice == FullPrice || price * percent > 50
  {
    StatusAgreesIffChargedUpFront(Placed(choice, price, percent), settings);
    if choice != Cash {
      OfferedOrderIsChargedIff(shop, choice, price, percent);
    }
  }

  /** So it fails for one percent of 0.50, which is offered, and stored as a deposit of nothing. */
  lemma DepositOfHalfACentBreaksAgreement(settings: Settings) returns (events: seq<Timed>)
    ensures Deposit in Offered(Some(Shop(true, true, true, false)), 50, 1) && StoredDeposit(Deposit, 50, 1) == 0
    ensures !StatusAgrees(Run(Placed(Deposit, 50, 1), events).row)
  {
    events := ZeroChargeBreaksAgreement(Placed(Deposit, 50, 1), settings);
  }
}
