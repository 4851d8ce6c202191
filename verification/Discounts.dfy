/** The split of an event's discount over its reservations (`booking/router.py`), in cents. */
module Discounts {
  import opened Common
  import opened Lists
  import opened Rounding

  /** What a reservation records of a discount. */
  datatype Applied = Applied(code: Id, amount: int)

  /** One equal weight for each of n reservations. */
  function Ones(n: nat): (w: seq<int>)
    ensures |w| == n && forall i {:trigger w[i]} | 0 <= i < n :: w[i] == 1
  {
    seq(n, _ => 1)
  }

  lemma {:induction false} SumOfOnes(n: nat)
    ensures Sum(Ones(n)) == n
  {
    if n > 0 {
      SumOfOnes(n - 1);
      assert Ones(n)[..n - 1] == Ones(n - 1);
    }
  }

  /** The part of each reservation but the last. */
  function PerReservation(discount: int, n: nat): int
    requires n > 0
  {
    RoundHalfEven(discount, n)
  }

  lemma SharesOfOnes(discount: int, n: nat)
    requires n > 0
    ensures Shares(discount, Ones(n))[n - 1] == discount - (n - 1) * PerReservation(discount, n)
    ensures forall i | 0 <= i < n - 1 :: Shares(discount, Ones(n))[i] == PerReservation(discount, n)
  {
    SumOfOnes(n);
    var parts := Parts(discount, Ones(n)[..n - 1], n);
    assert forall i | 0 <= i < n - 1 :: parts[i] == PerReservation(discount, n);
    SumOfEqual(parts, PerReservation(discount, n));
  }

  lemma {:induction false} SumOfEqual(s: seq<int>, v: int)
    requires forall i | 0 <= i < |s| :: s[i] == v
    ensures Sum(s) == |s| * v
    decreases |s|
  {
    if s != [] { SumOfEqual(s[..|s| - 1], v); }
  }

  lemma OneMore(idx: int, per: int)
    ensures (idx + 1) * per == idx * per + per
  {
  }

  /** The loop over the reservations of the event: all of them but the last get the rounded part, the last one
      what is left. */
  method SplitDiscount(applied: array<Option<Applied>>, code: Id, discount: int)
    modifies applied
    ensures forall i | 0 <= i < applied.Length ::
              applied[i] == Some(Applied(code, Shares(discount, Ones(applied.Length))[i]))
  {
    var n := applied.Length;
    if n == 0 {
      return;
    }
    var per := PerReservation(discount, n);
    SharesOfOnes(discount, n);
    ghost var shares := Shares(discount, Ones(n));
    var given := 0;
    for idx := 0 to n
      invariant idx < n ==> given == idx * per
      invariant forall i | 0 <= i < idx :: applied[i] == Some(Applied(code, shares[i]))
    {
      var amount := if idx < n - 1 then per else discount - given;
      OneMore(idx, per);
      assert amount == shares[idx];
      applied[idx] := Some(Applied(code, amount));
      given := given + amount;
    }
  }

  /** The parts of the discount add up to it, each but the last is within half a cent of an equal part, and the
      last of n within (n - 1) / 2 cents. */
  lemma SplitConservesDiscount(discount: int, n: nat, i: nat)
    requires i < n
    ensures Sum(Shares(discount, Ones(n))) == discount
    ensures 2 * Abs(Shares(discount, Ones(n))[i] * n - discount) <= if i < n - 1 then n else (n - 1) * n
  {
    SumOfOnes(n);
    SharesConserve(discount, Ones(n));
    SharesAreClose(discount, Ones(n), i);
  }

  /** Every reservation but the last gets the same, the nearest cents to an equal part, and the last one the rest. */
  lemma EqualPartsAndRest(discount: int, n: nat, i: nat)
    requires i < n
    ensures i < n - 1 ==> Nearest(Shares(discount, Ones(n))[i], discount, n)
    ensures exists per: int :: Nearest(per, discount, n) && Shares(discount, Ones(n))[n - 1] == discount - (n - 1) * per
  {
    SharesOfOnes(discount, n);
    RoundIsNearest(discount, n);
  }

  /** Whether every reservation's part is a discount and not a surcharge. */
  predicate NoSurcharge(discount: nat, n: nat)
    requires n > 0
  {
    forall i | 0 <= i < n :: Shares(discount, Ones(n))[i] >= 0
  }

  lemma LeftOver(q: int, r: int, n: nat, per: int)
    ensures per == q ==> q * n + r - (n - 1) * per == q + r
    ensures per == q + 1 ==> q * n + r - (n - 1) * per == q + r - (n - 1)
  {
    assert (n - 1) * q == q * n - q;
    assert (n - 1) * (q + 1) == q * n - q + n - 1;
  }

  lemma Division(discount: nat, n: nat)
    requires n > 0
    ensures discount == discount / n * n + discount % n
  {
  }

  lemma RoundedPart(discount: nat, n: nat)
    requires n > 0
    ensures PerReservation(discount, n) == discount / n || PerReservation(discount, n) == discount / n + 1
  {
  }

  /** The last part, from the quotient and remainder of the discount. */
  lemma LastPart(discount: nat, n: nat)
    requires n > 0
    ensures
      var q, r := discount / n, discount % n;
      Shares(discount, Ones(n))[n - 1] == if PerReservation(discount, n) == q then q + r else q + r - (n - 1)
  {
    var q, r, per := discount / n, discount % n, PerReservation(discount, n);
    SharesOfOnes(discount, n);
    Division(discount, n);
    RoundedPart(discount, n);
    LeftOver(q, r, n, per);
  }

  lemma NonNegativeQuotient(discount: nat, n: nat)
    requires n > 0
    ensures discount / n >= 0 && discount % n >= 0
  {
  }

  /** The equal part is rounded down: the remainder is less than half of n, or half of it over an even quotient. */
  predicate RoundsDown(discount: nat, n: nat)
    requires n > 0
  {
    2 * (discount % n) < n || (2 * (discount % n) == n && discount / n % 2 == 0)
  }

  lemma RoundsDownIff(discount: nat, n: nat)
    requires n > 0
    ensures RoundsDown(discount, n) <==> PerReservation(discount, n) == discount / n
  {
  }

  /** Every part of a discount is non-negative if and only if the equal part is rounded down, or quotient and
      remainder together reach n - 1. */
  lemma NoSurchargeIff(discount: nat, n: nat)
    requires n > 0
    ensures NoSurcharge(discount, n) <==> RoundsDown(discount, n) || discount / n + discount % n >= n - 1
  {
    NonNegativeQuotient(discount, n);
    LastPart(discount, n);
    SharesOfOnes(discount, n);
    RoundsDownIff(discount, n);
    if NoSurcharge(discount, n) {
      assert Shares(discount, Ones(n))[n - 1] >= 0;
    } else {
      var i :| 0 <= i < n && Shares(discount, Ones(n))[i] < 0;
      assert i == n - 1;
    }
  }

  /** Five cents over nine reservations: one cent each, and minus three for the last. */
  lemma FiveCentsOverNine()
    ensures !NoSurcharge(5, 9) && Shares(5, Ones(9))[8] == -3
  {
    SharesOfOnes(5, 9);
    Quotient(5, 9, 0, 5);
    assert PerReservation(5, 9) == 1;
  }
}
