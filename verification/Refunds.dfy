/** The refund policy on amounts in cents, rounded half to even. */
module Refunds {

  datatype Policy = Full | Partial50 | Partial25 | NoRefund

  /** n / d rounded to the nearest whole cent, ties to the even one. */
  function HalfEven(n: nat, d: nat): nat
    requires d > 0
  {
    var q, r := n / d, n % d;
    if 2 * r < d then q
    else if 2 * r > d then q + 1
    else q + q % 2
  }

  function ApplyRefundPolicy(amount: int, policy: Policy): nat {
    if amount <= 0 then 0
    else
      match policy
      case Full => amount
      case Partial50 => HalfEven(amount, 2)
      case Partial25 => HalfEven(amount, 4)
      case NoRefund => 0
  }

  function Total(payments: seq<int>): int {
    if payments == [] then 0 else Total(payments[..|payments| - 1]) + payments[|payments| - 1]
  }

  lemma {:induction false} TotalOfPositive(payments: seq<int>)
    requires forall k :: 0 <= k < |payments| ==> payments[k] > 0
    ensures Total(payments) >= |payments|
  {
    if payments != [] {
      TotalOfPositive(payments[..|payments| - 1]);
    }
  }

  function Distance(a: int, b: int): nat {
    if a >= b then a - b else b - a
  }

  /** The policies' rounding gives the nearest cent, and the even one of two nearest. */
  lemma HalfEvenIsNearest(n: nat, d: nat, x: int)
    requires d == 2 || d == 4
    ensures Distance(d * HalfEven(n, d), n) <= Distance(d * x, n)
    ensures Distance(d * HalfEven(n, d), n) == Distance(d * x, n) && x != HalfEven(n, d) ==> HalfEven(n, d) % 2 == 0
  {
    if d == 2 {
      assert n == 2 * (n / 2) + n % 2;
    } else {
      assert n == 4 * (n / 4) + n % 4;
    }
  }

  /** So does the rounding of a percentage. */
  lemma HundredthIsNearest(n: nat, x: int)
    ensures Distance(100 * HalfEven(n, 100), n) <= Distance(100 * x, n)
    ensures Distance(100 * HalfEven(n, 100), n) == Distance(100 * x, n) && x != HalfEven(n, 100) ==>
              HalfEven(n, 100) % 2 == 0
  {
    assert n == 100 * (n / 100) + n % 100;
  }

  /** Of the whole cents `share` is nearest to n / d and, of two that are nearest, the even one. */
  ghost predicate IsNearest(share: nat, n: nat, d: nat) {
    && (forall x: int :: Distance(d * share, n) <= Distance(d * x, n))
    && forall x: int :: Distance(d * share, n) == Distance(d * x, n) && x != share ==> share % 2 == 0
  }

  lemma NearestOf(amount: nat, d: nat)
    requires d == 2 || d == 4 || d == 100
    ensures IsNearest(HalfEven(amount, d), amount, d)
  {
    forall x: int
      ensures Distance(d * HalfEven(amount, d), amount) <= Distance(d * x, amount)
      ensures Distance(d * HalfEven(amount, d), amount) == Distance(d * x, amount) && x != HalfEven(amount, d) ==>
                HalfEven(amount, d) % 2 == 0
    {
      if d == 100 {
        HundredthIsNearest(amount, x);
      } else {
        HalfEvenIsNearest(amount, d, x);
      }
    }
  }

  /** All, half, a quarter or nothing of what is there, to the nearest cent. */
  lemma PolicyGivesItsShare(amount: int)
    ensures var there := if amount > 0 then amount else 0;
            && ApplyRefundPolicy(amount, Full) == there
            && IsNearest(ApplyRefundPolicy(amount, Partial50), there, 2)
            && IsNearest(ApplyRefundPolicy(amount, Partial25), there, 4)
            && ApplyRefundPolicy(amount, NoRefund) == 0
  {
    var there := if amount > 0 then amount else 0;
    NearestOf(there, 2);
    NearestOf(there, 4);
  }

  /** Never more than the amount itself. */
  lemma RefundWithinAmount(amount: nat, policy: Policy)
    ensures ApplyRefundPolicy(amount, policy) <= amount
  {
    match policy
    case Full =>
    case Partial50 => assert HalfEven(amount, 2) <= amount;
    case Partial25 => assert HalfEven(amount, 4) <= amount;
    case NoRefund =>
  }

  /** Refunding the online and the hand-recorded part separately is off by at most one cent. */
  lemma SplitRefundWithinACent(online: nat, manual: nat, policy: Policy)
    ensures -1 <= ApplyRefundPolicy(online, policy) + ApplyRefundPolicy(manual, policy)
                  - ApplyRefundPolicy(online + manual, policy) <= 1
  {
    match policy
    case Full =>
    case Partial50 => HalfEvenError(online, 2); HalfEvenError(manual, 2); HalfEvenError(online + manual, 2);
    case Partial25 => HalfEvenError(online, 4); HalfEvenError(manual, 4); HalfEvenError(online + manual, 4);
    case NoRefund =>
  }

  /** Rounding is off by at most half a cent. */
  lemma HalfEvenError(n: nat, d: nat)
    requires d == 2 || d == 4
    ensures 2 * Distance(d * HalfEven(n, d), n) <= d
  {
    HalfEvenIsNearest(n, d, n / d);
    HalfEvenIsNearest(n, d, n / d + 1);
  }

  /** The bound is reached: two payments of one cent halved give nothing, together one cent. */
  lemma SplitRefundCanLoseACent()
    ensures ApplyRefundPolicy(1, Partial50) + ApplyRefundPolicy(1, Partial50) == 0
    ensures ApplyRefundPolicy(2, Partial50) == 1
  {
  }
}
