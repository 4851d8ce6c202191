/** Rounding half to even, as Python's `round` and `Decimal.quantize` do it, and the allocation of a total in
    rounded shares whose last one absorbs the difference. */
module Rounding {
  import opened Lists

  /** The integer nearest to n/d, the even one of two. */
  function RoundHalfEven(n: int, d: int): int
    requires d > 0
  {
    var q, r := n / d, n % d;
    if 2 * r < d || (2 * r == d && q % 2 == 0) then q else q + 1
  }

  function Abs(x: int): nat {
    if x < 0 then -x else x
  }

  lemma RoundError(n: int, d: int)
    requires d > 0
    ensures 2 * Abs(RoundHalfEven(n, d) * d - n) <= d
  {
    var q := n / d;
    assert n == q * d + n % d;
    assert (q + 1) * d == q * d + d;
  }

  /** q is the integer nearest to n/d, and the even one when two are. */
  predicate Nearest(q: int, n: int, d: int) {
    2 * Abs(q * d - n) <= d && (2 * Abs(q * d - n) == d ==> q % 2 == 0)
  }

  lemma RoundIsNearest(n: int, d: int)
    requires d > 0
    ensures Nearest(RoundHalfEven(n, d), n, d)
  {
    var q := n / d;
    assert n == q * d + n % d;
    assert (q + 1) * d == q * d + d;
  }

  lemma NoTwoNearest(p: int, q: int, n: int, d: int)
    requires d > 0 && p > q
    ensures !(Nearest(p, n, d) && Nearest(q, n, d))
  {
    assert (p - q) * d == p * d - q * d;
    if p == q + 1 {
      assert p * d == q * d + d;
    } else {
      MultipleIsLarge(p - q - 1, d);
      assert (p - q - 1) * d == (p - q) * d - d;
    }
  }

  /** There is only one such integer. */
  lemma NearestIsUnique(p: int, q: int, n: int, d: int)
    requires d > 0 && Nearest(p, n, d) && Nearest(q, n, d)
    ensures p == q
  {
    if p > q {
      NoTwoNearest(p, q, n, d);
    } else if q > p {
      NoTwoNearest(q, p, n, d);
    }
  }

  /** RoundHalfEven gives the nearest integer, of two the even one. */
  lemma RoundsToNearestIff(q: int, n: int, d: int)
    requires d > 0
    ensures RoundHalfEven(n, d) == q <==> Nearest(q, n, d)
  {
    RoundIsNearest(n, d);
    if Nearest(q, n, d) { NearestIsUnique(q, RoundHalfEven(n, d), n, d); }
  }

  lemma MultipleIsLarge(x: int, d: int)
    requires x >= 1 && d > 0
    ensures x * d >= d
  {
    assert x * d == (x - 1) * d + d;
  }

  lemma Quotient(n: int, d: int, q: int, r: int)
    requires d > 0 && n == q * d + r && 0 <= r < d
    ensures n / d == q && n % d == r
  {
    var q', r' := n / d, n % d;
    assert n == q' * d + r';
    assert (q - q') * d == r' - r;
    assert (q' - q) * d == r - r';
    if q > q' {
      MultipleIsLarge(q - q', d);
    } else if q < q' {
      MultipleIsLarge(q' - q, d);
    }
  }

  /** A multiple of the unit is not rounded. */
  lemma RoundExact(k: int, d: int)
    requires d > 0
    ensures RoundHalfEven(k * d, d) == k
  {
    Quotient(k * d, d, k, 0);
  }

  /** Shifting by an even number of units shifts the result. */
  lemma RoundShift(n: int, d: int, k: int)
    requires d > 0
    ensures RoundHalfEven(n + 2 * k * d, d) == RoundHalfEven(n, d) + 2 * k
  {
    var q, r := n / d, n % d;
    Distribute(q, 2 * k, d);
    Quotient(n + 2 * k * d, d, q + 2 * k, r);
  }

  lemma Distribute(a: int, b: int, d: int)
    ensures (a + b) * d == a * d + b * d
  {
  }

  lemma RoundMonotonic(a: int, b: int, d: int)
    requires d > 0 && a <= b
    ensures RoundHalfEven(a, d) <= RoundHalfEven(b, d)
  {
    var p, q := a / d, b / d;
    QuotientMonotonic(a, b, d);
    if p == q {
      assert a % d <= b % d by {
        assert a == p * d + a % d && b == p * d + b % d;
      }
    }
  }

  lemma QuotientMonotonic(a: int, b: int, d: int)
    requires d > 0 && a <= b
    ensures a / d <= b / d
  {
    var p, q := a / d, b / d;
    assert a == p * d + a % d && b == q * d + b % d;
    assert (p - q) * d == p * d - q * d;
    if p > q { MultipleIsLarge(p - q, d); }
  }

  // ----- Shares -----

  /** The rounded proportional part of each weight. */
  function Parts(total: int, weights: seq<int>, sum: int): (r: seq<int>)
    requires sum > 0
    ensures |r| == |weights| &&
            forall i {:trigger r[i]} | 0 <= i < |r| :: r[i] == RoundHalfEven(total * weights[i], sum)
  {
    seq(|weights|, i requires 0 <= i < |weights| => RoundHalfEven(total * weights[i], sum))
  }

  /** Rounded proportional shares, the last one taking what is left; all zero when there is no weight. */
  function Shares(total: int, weights: seq<int>): (r: seq<int>)
    ensures |r| == |weights|
  {
    if weights == [] then []
    else if Sum(weights) <= 0 then seq(|weights|, _ => 0)
    else
      var parts := Parts(total, weights[..|weights| - 1], Sum(weights));
      parts + [total - Sum(parts)]
  }

  lemma {:induction false} SumOfZeros(s: seq<int>)
    requires forall i | 0 <= i < |s| :: s[i] == 0
    ensures Sum(s) == 0
    decreases |s|
  {
    if s != [] { SumOfZeros(s[..|s| - 1]); }
  }

  /** The shares add up to the total exactly when some weight is given, and to nothing otherwise. */
  lemma SharesConserve(total: int, weights: seq<int>)
    ensures Sum(Shares(total, weights)) == if weights != [] && Sum(weights) > 0 then total else 0
  {
    if weights != [] {
      if Sum(weights) <= 0 {
        SumOfZeros(Shares(total, weights));
      } else {
        var parts := Parts(total, weights[..|weights| - 1], Sum(weights));
        SumConcat(parts, [total - Sum(parts)]);
        assert Sum([total - Sum(parts)]) == total - Sum(parts);
      }
    }
  }

  /** One more part adds at most half a unit of error. */
  lemma ErrorStep(given: int, part: int, sum: int, total: int, weights: int, w: int, n: nat)
    requires 2 * Abs(given * sum - total * weights) <= n * sum && 2 * Abs(part * sum - total * w) <= sum
    ensures 2 * Abs((given + part) * sum - total * (weights + w)) <= (n + 1) * sum
  {
    assert (given + part) * sum == given * sum + part * sum;
    assert total * (weights + w) == total * weights + total * w;
    assert (n + 1) * sum == n * sum + sum;
  }

  lemma {:induction false} PartsError(total: int, weights: seq<int>, sum: int)
    requires sum > 0
    ensures 2 * Abs(Sum(Parts(total, weights, sum)) * sum - total * Sum(weights)) <= |weights| * sum
    decreases |weights|
  {
    if weights != [] {
      var n := |weights| - 1;
      var parts := Parts(total, weights, sum);
      PartsError(total, weights[..n], sum);
      RoundError(total * weights[n], sum);
      assert parts[..n] == Parts(total, weights[..n], sum);
      ErrorStep(Sum(parts[..n]), parts[n], sum, total, Sum(weights[..n]), weights[n], n);
    }
  }

  lemma LastShareError(share: int, given: int, sum: int, total: int, earlier: int, w: int, n: nat)
    requires 2 * Abs(given * sum - total * earlier) <= n * sum && sum == earlier + w && share == total - given
    ensures 2 * Abs(share * sum - total * w) <= n * sum
  {
    assert share * sum == total * sum - given * sum;
    assert total * sum == total * earlier + total * w;
  }

  /** The error of a share, in units of 1 / Sum(weights). */
  function ShareError(total: int, weights: seq<int>, i: nat): nat
    requires i < |weights|
  {
    Abs(Shares(total, weights)[i] * Sum(weights) - total * weights[i])
  }

  lemma EarlierError(total: int, weights: seq<int>, n: nat)
    requires n < |weights| && Sum(weights) > 0
    ensures
      var given := Sum(Parts(total, weights[..n], Sum(weights)));
      2 * Abs(given * Sum(weights) - total * Sum(weights[..n])) <= n * Sum(weights)
  {
    PartsError(total, weights[..n], Sum(weights));
  }

  /** Whatever is left for the last share after the rounded parts of the others. */
  lemma RestIsClose(total: int, weights: seq<int>, rest: int, n: nat)
    requires |weights| == n + 1 && Sum(weights) > 0 && rest == total - Sum(Parts(total, weights[..n], Sum(weights)))
    ensures 2 * Abs(rest * Sum(weights) - total * weights[n]) <= n * Sum(weights)
  {
    EarlierError(total, weights, n);
    LastShareError(rest, Sum(Parts(total, weights[..n], Sum(weights))), Sum(weights), total, Sum(weights[..n]),
                   weights[n], n);
  }

  lemma LastShareIsClose(total: int, weights: seq<int>)
    requires weights != [] && Sum(weights) > 0
    ensures 2 * ShareError(total, weights, |weights| - 1) <= (|weights| - 1) * Sum(weights)
  {
    LastShareIs(total, weights);
    RestIsClose(total, weights, Shares(total, weights)[|weights| - 1], |weights| - 1);
  }

  lemma LastShareIs(total: int, weights: seq<int>)
    requires weights != [] && Sum(weights) > 0
    ensures Shares(total, weights)[|weights| - 1] ==
            total - Sum(Parts(total, weights[..|weights| - 1], Sum(weights)))
  {
  }

  /** Every share but the last is within half a unit of its exact proportion, and the last of n shares within
      (n - 1) / 2 units. */
  lemma SharesAreClose(total: int, weights: seq<int>, i: nat)
    requires i < |weights| && Sum(weights) > 0
    ensures 2 * ShareError(total, weights, i) <=
            if i < |weights| - 1 then Sum(weights) else (|weights| - 1) * Sum(weights)
  {
    if i < |weights| - 1 {
      RoundError(total * weights[i], Sum(weights));
    } else {
      LastShareIsClose(total, weights);
    }
  }
}
