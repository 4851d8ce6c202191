/** Blocks that are not whole hours: the wizard rounds the duration to hundredths of an hour, the table rounds
    the charge to pesos, and the two agree only around two hourly rates. */
module PartHours {
  import opened Lists
  import opened Rounding
  import opened Packages
  import opened Tariffs
  import opened Wizard

  /** Wizard and table charge a block of some minutes the same. */
  predicate SameForMinutes(minutes: nat, r: PricingRule) {
    PackageCents(Hundredths(minutes), r) == 100 * BlockPesos(minutes, CatalogOf(r))
  }

  /** They do so for every block of a day. */
  ghost predicate AllBlocksAlign(r: PricingRule) {
    forall minutes: nat | 0 < minutes < 1440 :: SameForMinutes(minutes, r)
  }

  /** The two hourly rates, free and a hundred pesos once rounded, for which a hundredth of an hour costs whole
      pesos. */
  predicate NeutralRate(r: PricingRule) {
    Pesos(r.extraHourRate) == 0 || Pesos(r.extraHourRate) == 100
  }

  /** Aligned on whole hours, neutral, and beside six-hour packs close enough to it for the 598 hundredths of the
      longest rest. */
  predicate MinutesAlign(r: PricingRule) {
    TariffsAlign(r) && NeutralRate(r) && (r.base6h > 0 ==> 598 * Abs(Off(r.extraHourRate)) <= 5000)
  }

  // ----- Packs and the rest -----

  /** As many packs as fit were taken, of the kinds that are offered. */
  predicate Fits(n12: nat, n6: nat, rest: nat, twelve: bool, six: bool) {
    && (if twelve then 360 * n6 + rest < 720 else n12 == 0)
    && (if six then rest < 360 else n6 == 0)
  }

  lemma FitsPacks(n12: nat, n6: nat, rest: nat, twelve: bool, six: bool)
    requires Fits(n12, n6, rest, twelve, six)
    ensures TwelvePacks(720 * n12 + 360 * n6 + rest, twelve) == n12 && SixPacks(360 * n6 + rest, six) == n6
  {
    if twelve { Quotient(720 * n12 + 360 * n6 + rest, 720, n12, 360 * n6 + rest); }
    if six { Quotient(360 * n6 + rest, 360, n6, rest); }
  }

  lemma TakePacksOf(minutes: nat, size: nat, offered: bool) returns (n: nat, rest: nat)
    requires size > 0
    ensures minutes == n * size + rest && if offered then rest < size else n == 0
  {
    n, rest := 0, minutes;
    if offered { n, rest := minutes / size, minutes % size; }
  }

  lemma SplitMinutes(minutes: nat, twelve: bool, six: bool) returns (n12: nat, n6: nat, rest: nat)
    ensures minutes == 720 * n12 + 360 * n6 + rest && Fits(n12, n6, rest, twelve, six)
  {
    var left: nat;
    n12, left := TakePacksOf(minutes, 720, twelve);
    n6, rest := TakePacksOf(left, 360, six);
  }

  lemma HundredthsShift(rest: nat, a: nat, b: nat)
    ensures Hundredths(720 * a + 360 * b + rest) == 1200 * a + 600 * b + Hundredths(rest)
  {
    RoundShift(rest * 100, 60, 600 * a + 300 * b);
    assert (720 * a + 360 * b + rest) * 100 == rest * 100 + 2 * (600 * a + 300 * b) * 60;
  }

  lemma HundredthsUpTo(a: nat, b: nat)
    requires a <= b
    ensures 0 <= Hundredths(a) <= Hundredths(b)
  {
    RoundMonotonic(a * 100, b * 100, 60);
    RoundMonotonic(0, a * 100, 60);
    RoundExact(0, 60);
  }

  lemma HundredthsOf359()
    ensures Hundredths(359) == 598
  {
    Quotient(35900, 60, 598, 20);
  }

  lemma HundredthsOf719()
    ensures Hundredths(719) == 1198
  {
    Quotient(71900, 60, 1198, 20);
  }

  lemma HundredthsOf1439()
    ensures Hundredths(1439) == 2398
  {
    Quotient(143900, 60, 2398, 20);
  }

  lemma HundredthsFit(n6: nat, rest: nat)
    ensures rest < 360 ==> Hundredths(rest) <= 598
    ensures 360 * n6 + rest < 720 ==> 600 * n6 + Hundredths(rest) <= 1198
  {
    if rest < 360 {
      HundredthsUpTo(rest, 359);
      HundredthsOf359();
    }
    if 360 * n6 + rest < 720 {
      HundredthsUpTo(360 * n6 + rest, 719);
      HundredthsOf719();
      HundredthsShift(rest, 0, n6);
    }
  }

  lemma PackCounts(d: nat, n12: nat, n6: nat, loose: nat, r: PricingRule)
    requires d == 1200 * n12 + 600 * n6 + loose
    requires if r.base12h > 0 then 600 * n6 + loose < 1200 else n12 == 0
    requires if r.base6h > 0 then loose < 600 else n6 == 0
    ensures Packs12(d, r) == n12 && Packs6(d, r) == n6 && Loose(d, r) == loose
  {
    if r.base12h > 0 { Quotient(d, 1200, n12, 600 * n6 + loose); }
    if r.base6h > 0 { Quotient(d - 1200 * n12, 600, n6, loose); }
  }

  /** The rounded duration takes the same packs as the minutes, and leaves the rounded rest. */
  lemma WizardSplit(n12: nat, n6: nat, rest: nat, r: PricingRule)
    requires Fits(n12, n6, rest, r.base12h > 0, r.base6h > 0)
    ensures Hundredths(rest) >= 0
    ensures PackageCents(Hundredths(720 * n12 + 360 * n6 + rest), r) == SplitCents(n12, n6, Hundredths(rest), r)
  {
    HundredthsUpTo(0, rest);
    HundredthsShift(rest, n12, n6);
    HundredthsFit(n6, rest);
    RoundExact(0, 60);
    PackCounts(Hundredths(720 * n12 + 360 * n6 + rest), n12, n6, Hundredths(rest), r);
  }

  // ----- The table -----

  /** What some minutes cost at a price per hour, in whole units of the price. */
  function AtRate(minutes: nat, rate: int): int {
    RoundHalfEven(rate * minutes, 60)
  }

  lemma NoTimeIsFree(rate: int)
    ensures AtRate(0, rate) == 0
  {
    RoundExact(0, 60);
    assert rate * 0 == 0;
  }

  lemma FreeTime(minutes: nat)
    ensures AtRate(minutes, 0) == 0
  {
    RoundExact(0, 60);
  }

  lemma LooseMinutes(minutes: nat, charged: bool, p: CatalogPrices)
    requires !charged ==> UnitPrice(Hour, p) == 0
    ensures Sum(SegmentTotals(LooseSegment(minutes, charged), p)) == AtRate(minutes, UnitPrice(Hour, p))
  {
    if minutes > 0 && charged {
      var t := SegmentPesos(Segment(Hour, minutes), p);
      assert SegmentTotals(LooseSegment(minutes, charged), p) == [t];
      assert Sum([t]) == t by { assert [t][..0] == []; }
    } else {
      assert SegmentTotals(LooseSegment(minutes, charged), p) == [];
      NoTimeIsFree(UnitPrice(Hour, p));
      FreeTime(minutes);
    }
  }

  lemma SegmentsOfSplit(n12: nat, n6: nat, rest: nat, twelve: bool, six: bool, charged: bool)
    requires Fits(n12, n6, rest, twelve, six)
    ensures DaySegments(720 * n12 + 360 * n6 + rest, twelve, six, charged) ==
            PackSegment(H12, n12) + (PackSegment(H6, n6) + LooseSegment(rest, charged))
  {
    FitsPacks(n12, n6, rest, twelve, six);
  }

  /** The charge of a split at given prices of a twelve-hour pack, a six-hour pack and an hour. */
  function SplitCharge(n12: nat, n6: nat, rest: nat, u12: int, u6: int, u1: int): int {
    n12 * u12 + n6 * u6 + AtRate(rest, u1)
  }

  lemma SplitTotal(n12: nat, n6: nat, rest: nat, charged: bool, p: CatalogPrices)
    requires !charged ==> UnitPrice(Hour, p) == 0
    ensures Sum(SegmentTotals(PackSegment(H12, n12) + (PackSegment(H6, n6) + LooseSegment(rest, charged)), p)) ==
            SplitCharge(n12, n6, rest, UnitPrice(H12, p), UnitPrice(H6, p), UnitPrice(Hour, p))
  {
    PackTotal(H12, n12, p);
    PackTotal(H6, n6, p);
    LooseMinutes(rest, charged, p);
    ThreeTotals(PackSegment(H12, n12), PackSegment(H6, n6), LooseSegment(rest, charged), p,
                n12 * UnitPrice(H12, p), n6 * UnitPrice(H6, p), AtRate(rest, UnitPrice(Hour, p)));
  }

  /** A block without segments is only loose time without a price. */
  lemma NoSegments(n12: nat, n6: nat, rest: nat, charged: bool)
    requires PackSegment(H12, n12) + (PackSegment(H6, n6) + LooseSegment(rest, charged)) == []
    ensures n12 == 0 && n6 == 0 && (rest == 0 || !charged)
  {
    var a, b, c := PackSegment(H12, n12), PackSegment(H6, n6), LooseSegment(rest, charged);
    assert |a + (b + c)| == |a| + |b| + |c|;
  }

  /** The least an hour that a block without segments is given. */
  lemma LeastHourIsFree(minutes: nat, p: CatalogPrices)
    requires UnitPrice(Hour, p) == 0
    ensures Sum(SegmentTotals(AtLeastAnHour(minutes, []), p)) == 0
  {
    var billed := if minutes > 60 then minutes else 60;
    assert AtLeastAnHour(minutes, []) == LooseSegment(billed, true);
    LooseMinutes(billed, true, p);
    FreeTime(billed);
  }

  lemma SplitBlockTotal(n12: nat, n6: nat, rest: nat, twelve: bool, six: bool, charged: bool, p: CatalogPrices)
    requires Fits(n12, n6, rest, twelve, six) && 720 * n12 + 360 * n6 + rest > 0
    requires !charged ==> UnitPrice(Hour, p) == 0
    ensures
      var minutes := 720 * n12 + 360 * n6 + rest;
      Sum(SegmentTotals(AtLeastAnHour(minutes, DaySegments(minutes, twelve, six, charged)), p)) ==
        SplitCharge(n12, n6, rest, UnitPrice(H12, p), UnitPrice(H6, p), UnitPrice(Hour, p))
  {
    SegmentsOfSplit(n12, n6, rest, twelve, six, charged);
    SplitTotal(n12, n6, rest, charged, p);
    if DaySegments(720 * n12 + 360 * n6 + rest, twelve, six, charged) == [] {
      NoSegments(n12, n6, rest, charged);
      LeastHourIsFree(rest, p);
      FreeTime(rest);
    }
  }

  /** Packs that are not offered do not count. */
  lemma UnofferedSplit(n12: nat, n6: nat, rest: nat, u12: int, u6: int, v12: int, v6: int, u1: int)
    requires (n12 > 0 ==> u12 == v12) && (n6 > 0 ==> u6 == v6)
    ensures SplitCharge(n12, n6, rest, u12, u6, u1) == SplitCharge(n12, n6, rest, v12, v6, u1)
  {
    if n12 == 0 { assert n12 * u12 == n12 * v12; }
    if n6 == 0 { assert n6 * u6 == n6 * v6; }
  }

  /** Where packs are offered the table charges the rounded tariffs. */
  lemma TableSplit(n12: nat, n6: nat, rest: nat, r: PricingRule)
    requires Fits(n12, n6, rest, r.base12h > 0, r.base6h > 0) && 720 * n12 + 360 * n6 + rest > 0
    requires r.base12h > 0 || r.base6h > 0
    ensures BlockPesos(720 * n12 + 360 * n6 + rest, CatalogOf(r)) ==
            SplitCharge(n12, n6, rest, Pesos(r.base12h), Pesos(r.base6h), Pesos(r.extraHourRate))
  {
    var p := CatalogOf(r);
    NoChargeIsFree(r);
    SegmentsWithRule(720 * n12 + 360 * n6 + rest, r);
    SplitBlockTotal(n12, n6, rest, r.base12h > 0, r.base6h > 0, r.extraHourRate > 0, p);
    UnofferedSplit(
      n12, n6, rest, UnitPrice(H12, p), UnitPrice(H6, p), Pesos(r.base12h), Pesos(r.base6h), UnitPrice(Hour, p));
  }

  /** Where none is offered it counts in packs all the same, at multiples of the hourly rate. */
  lemma TableTimeSplit(n12: nat, n6: nat, rest: nat, r: PricingRule)
    requires Fits(n12, n6, rest, true, true) && 720 * n12 + 360 * n6 + rest > 0
    requires r.base12h == 0 && r.base6h == 0 && Abs(Off(r.extraHourRate)) <= 10
    ensures
      var x1 := Pesos(r.extraHourRate);
      BlockPesos(720 * n12 + 360 * n6 + rest, CatalogOf(r)) == SplitCharge(n12, n6, rest, 12 * x1, 6 * x1, x1)
  {
    SegmentsWithRule(720 * n12 + 360 * n6 + rest, r);
    SplitBlockTotal(n12, n6, rest, true, true, true, CatalogOf(r));
    PesosOfMultiple(12, r.extraHourRate);
    PesosOfMultiple(6, r.extraHourRate);
  }

  // ----- Neutral rates -----

  lemma AtNeutralRate(minutes: nat, x1: int)
    requires x1 == 0 || x1 == 100
    ensures 100 * AtRate(minutes, x1) == Hundredths(minutes) * x1
  {
    FreeTime(minutes);
  }

  lemma EvenTimes(loose: int, x1: int)
    requires x1 == 0 || x1 == 100
    ensures loose * x1 % 2 == 0
  {
    assert loose * x1 == 2 * (if x1 == 0 then 0 else 50 * loose);
  }

  lemma NeutralCharge(n12: nat, n6: nat, rest: nat, x12: int, x6: int, x1: int)
    requires x1 == 0 || x1 == 100
    ensures 100 * (n12 * x12 + n6 * x6) + Hundredths(rest) * x1 == 100 * SplitCharge(n12, n6, rest, x12, x6, x1)
  {
    AtNeutralRate(rest, x1);
  }

  lemma WizardCharge(n12: nat, n6: nat, rest: nat, r: PricingRule)
    requires NeutralRate(r) && Fits(n12, n6, rest, r.base12h > 0, r.base6h > 0)
    ensures Hundredths(rest) >= 0
    ensures PackageCents(Hundredths(720 * n12 + 360 * n6 + rest), r) ==
            100 * SplitCharge(n12, n6, rest, Pesos(r.base12h), Pesos(r.base6h), Pesos(r.extraHourRate)) +
            RoundHalfEven(Drift(n12, n6, Hundredths(rest), r), 100)
  {
    WizardSplit(n12, n6, rest, r);
    EvenTimes(Hundredths(rest), Pesos(r.extraHourRate));
    WizardDrifts(n12, n6, Hundredths(rest), r);
    NeutralCharge(n12, n6, rest, Pesos(r.base12h), Pesos(r.base6h), Pesos(r.extraHourRate));
  }

  /** With a neutral rate a block aligns exactly when its drift is at most half a cent. */
  lemma PackMinutesIff(n12: nat, n6: nat, rest: nat, r: PricingRule)
    requires NeutralRate(r) && Fits(n12, n6, rest, r.base12h > 0, r.base6h > 0) && 720 * n12 + 360 * n6 + rest > 0
    requires r.base12h > 0 || r.base6h > 0
    ensures Hundredths(rest) >= 0
    ensures SameForMinutes(720 * n12 + 360 * n6 + rest, r) <==> 2 * Abs(Drift(n12, n6, Hundredths(rest), r)) <= 100
  {
    WizardCharge(n12, n6, rest, r);
    TableSplit(n12, n6, rest, r);
    RoundsToZeroIff(Drift(n12, n6, Hundredths(rest), r), 100);
  }

  /** The packs the table counts in cost what their time costs. */
  lemma TimeCharge(n12: nat, n6: nat, rest: nat, x1: int)
    requires x1 == 0 || x1 == 100
    ensures 100 * SplitCharge(n12, n6, rest, 12 * x1, 6 * x1, x1) == Hundredths(720 * n12 + 360 * n6 + rest) * x1
  {
    NeutralCharge(n12, n6, rest, 12 * x1, 6 * x1, x1);
    HundredthsShift(rest, n12, n6);
  }

  lemma TimeMinutesIff(minutes: nat, r: PricingRule)
    requires NeutralRate(r) && minutes > 0 && r.base12h == 0 && r.base6h == 0 && Abs(Off(r.extraHourRate)) <= 10
    ensures Hundredths(minutes) >= 0
    ensures SameForMinutes(minutes, r) <==> 2 * Abs(Drift(0, 0, Hundredths(minutes), r)) <= 100
  {
    var x1 := Pesos(r.extraHourRate);
    var n12, n6, rest := SplitMinutes(minutes, true, true);
    WizardCharge(0, 0, minutes, r);
    NeutralCharge(0, 0, minutes, Pesos(r.base12h), Pesos(r.base6h), x1);
    TableTimeSplit(n12, n6, rest, r);
    TimeCharge(n12, n6, rest, x1);
    RoundsToZeroIff(Drift(0, 0, Hundredths(minutes), r), 100);
  }

  // ----- Small drifts -----

  /** Loose time that drifts by at most half a cent is not moved. */
  lemma LooseStaysPut(loose: nat, bound: nat, off: int)
    requires loose <= bound && bound * Abs(off) <= 5000
    ensures RoundHalfEven(loose * off, 10000) == 0
  {
    FewerHours(loose, bound, Abs(off));
    AbsTimes(loose, off);
    RoundsToZeroIff(loose * off, 10000);
  }

  lemma OnePackDrift(n: nat, most: nat, off: int)
    requires n <= most && most * Abs(off) <= 50
    ensures Abs(n * off) <= 50
  {
    FewerHours(n, most, Abs(off));
    AbsTimes(n, off);
  }

  lemma PacksStayPut(n12: nat, n6: nat, o12: int, o6: int, twelve: bool, six: bool)
    requires n12 <= 1 && n6 <= (if twelve then 1 else 3) && (!twelve ==> n12 == 0) && (!six ==> n6 == 0)
    requires twelve ==> Abs(o12) <= 50
    requires six ==> if twelve then Abs(o6) <= 50 && Abs(o12 + o6) <= 50 else 3 * Abs(o6) <= 50
    ensures Abs(n12 * o12 + n6 * o6) <= 50
  {
    if twelve && six {
      TwoPacksDrift(n12, n6, o12, o6);
    } else if twelve {
      OnePackDrift(n12, 1, o12);
    } else if six {
      OnePackDrift(n6, 3, o6);
    }
  }

  /** The longest loose time of a block, in hundredths of an hour. */
  function LongestLoose(r: PricingRule): nat {
    if r.base6h > 0 then 598 else if r.base12h > 0 then 1198 else 2398
  }

  lemma LongestStaysPut(r: PricingRule)
    requires MinutesAlign(r)
    ensures LongestLoose(r) * Abs(Off(r.extraHourRate)) <= 5000
  {
    var off := Abs(Off(r.extraHourRate));
    if r.base6h == 0 && r.base12h > 0 { assert off <= 4; }
    if r.base6h == 0 && r.base12h == 0 { assert off <= 2; }
  }

  lemma DriftOfPacks(n12: nat, n6: nat, loose: nat, r: PricingRule)
    requires RoundHalfEven(loose * Off(r.extraHourRate), 10000) == 0
    ensures Drift(n12, n6, loose, r) == n12 * Off(r.base12h) + n6 * Off(r.base6h)
  {
  }

  lemma SmallDrift(n12: nat, n6: nat, loose: nat, r: PricingRule)
    requires MinutesAlign(r) && n12 <= 1 && n6 <= (if r.base12h > 0 then 1 else 3)
    requires (r.base12h == 0 ==> n12 == 0) && (r.base6h == 0 ==> n6 == 0) && loose <= LongestLoose(r)
    ensures 2 * Abs(Drift(n12, n6, loose, r)) <= 100
  {
    PacksStayPut(n12, n6, Off(r.base12h), Off(r.base6h), r.base12h > 0, r.base6h > 0);
    LongestStaysPut(r);
    LooseStaysPut(loose, LongestLoose(r), Off(r.extraHourRate));
    DriftOfPacks(n12, n6, loose, r);
  }

  lemma HourlyOff(r: PricingRule)
    requires TariffsAlign(r)
    ensures Abs(Off(r.extraHourRate)) <= 10
  {
  }

  lemma PackMinutesAlign(minutes: nat, r: PricingRule)
    requires 0 < minutes < 1440 && MinutesAlign(r) && (r.base12h > 0 || r.base6h > 0)
    ensures SameForMinutes(minutes, r)
  {
    var n12, n6, rest := SplitMinutes(minutes, r.base12h > 0, r.base6h > 0);
    HundredthsUpTo(0, rest);
    RoundExact(0, 60);
    HundredthsFit(n6, rest);
    SmallDrift(n12, n6, Hundredths(rest), r);
    PackMinutesIff(n12, n6, rest, r);
  }

  lemma TimeMinutesAlign(minutes: nat, r: PricingRule)
    requires 0 < minutes < 1440 && MinutesAlign(r) && r.base12h == 0 && r.base6h == 0
    ensures SameForMinutes(minutes, r)
  {
    HundredthsUpTo(minutes, 1439);
    HundredthsOf1439();
    HourlyOff(r);
    SmallDrift(0, 0, Hundredths(minutes), r);
    TimeMinutesIff(minutes, r);
  }

  // ----- No other rate -----

  /** A number close to a whole one is rounded to it. */
  lemma NearWhole(k: int, x: int)
    requires 2 * Abs(x) < 10000
    ensures RoundHalfEven(10000 * k + x, 10000) == k
  {
    if x >= 0 {
      Quotient(10000 * k + x, 10000, k, x);
    } else {
      Quotient(10000 * k + x, 10000, k - 1, x + 10000);
    }
  }

  lemma TwentyMinutesCents(r: PricingRule)
    requires Abs(Off(r.extraHourRate)) <= 10
    ensures PackageCents(33, r) == 33 * Pesos(r.extraHourRate)
  {
    PackCounts(33, 0, 0, 33, r);
    NearWhole(33 * Pesos(r.extraHourRate), 33 * Off(r.extraHourRate));
    RoundExact(33 * Pesos(r.extraHourRate), 100);
  }

  lemma TwentyMinutesPesos(r: PricingRule)
    requires r.extraHourRate > 0
    ensures BlockPesos(20, CatalogOf(r)) == AtRate(20, Pesos(r.extraHourRate))
  {
    SegmentsWithRule(20, r);
    SplitBlockTotal(0, 0, 20, r.base12h > 0, r.base6h > 0, r.extraHourRate > 0, CatalogOf(r));
    SplitBlockTotal(0, 0, 20, true, true, true, CatalogOf(r));
  }

  lemma ThirdOf(y: int, pesos: int)
    requires 2 * Abs(pesos * 60 - 100 * y * 20) <= 60 && pesos == 33 * y
    ensures Abs(y) <= 1
  {
  }

  /** A third of an hour is 33 hundredths for the wizard: only 0 and 100 pesos per hour make both whole. */
  lemma ThirdsAreNeutral(x: nat)
    ensures 33 * x == 100 * AtRate(20, x) ==> x == 0 || x == 100
  {
    RoundError(x * 20, 60);
    if 33 * x == 100 * AtRate(20, x) {
      var y := x / 100;
      assert x == 100 * y && AtRate(20, x) == 33 * y;
      ThirdOf(y, AtRate(20, x));
    }
  }

  lemma RoundedRateIsNat(rate: nat)
    ensures Pesos(rate) >= 0 && (rate == 0 ==> Pesos(rate) == 0)
  {
    RoundMonotonic(0, rate, 10000);
    RoundExact(0, 10000);
  }

  lemma HundredthsOf20()
    ensures Hundredths(20) == 33
  {
    Quotient(2000, 60, 33, 20);
  }

  lemma AlignedRatesAreNeutral(r: PricingRule)
    requires Abs(Off(r.extraHourRate)) <= 10
    ensures SameForMinutes(20, r) ==> NeutralRate(r)
  {
    HundredthsOf20();
    TwentyMinutesCents(r);
    RoundedRateIsNat(r.extraHourRate);
    if r.extraHourRate > 0 {
      TwentyMinutesPesos(r);
      ThirdsAreNeutral(Pesos(r.extraHourRate));
    }
  }

  lemma LooseDriftIff(loose: nat, r: PricingRule)
    ensures 2 * Abs(Drift(0, 0, loose, r)) <= 100 <==> loose * Abs(Off(r.extraHourRate)) <= 5000
  {
    RoundsToZeroIff(loose * Off(r.extraHourRate), 10000);
    AbsTimes(loose, Off(r.extraHourRate));
  }

  /** The longest rest beside six-hour packs. */
  lemma LongestRest(r: PricingRule)
    requires r.base6h > 0 && NeutralRate(r)
    ensures SameForMinutes(359, r) ==> 598 * Abs(Off(r.extraHourRate)) <= 5000
  {
    HundredthsOf359();
    PackMinutesIff(0, 0, 359, r);
    LooseDriftIff(598, r);
  }

  lemma HoursAreMinutes(h: nat, r: PricingRule)
    ensures SameForMinutes(60 * h, r) ==> SameForHours(h, r)
  {
    RoundExact(100 * h, 60);
    assert Hundredths(60 * h) == 100 * h;
  }

  lemma AlignedMinutesNeed(r: PricingRule)
    requires AllBlocksAlign(r)
    ensures MinutesAlign(r)
  {
    forall h: nat | 0 < h < 24
      ensures SameForHours(h, r)
    {
      assert SameForMinutes(60 * h, r);
      HoursAreMinutes(h, r);
    }
    BlocksAlignIff(r);
    HourlyOff(r);
    assert SameForMinutes(20, r) && SameForMinutes(359, r);
    AlignedRatesAreNeutral(r);
    if r.base6h > 0 { LongestRest(r); }
  }

  /** For every rule, wizard and table agree on every block of a day, to the minute, if and only if its tariffs
      align and its hourly rate is close to zero or a hundred pesos. */
  lemma AllBlocksAlignIff(r: PricingRule)
    ensures AllBlocksAlign(r) <==> MinutesAlign(r)
  {
    if MinutesAlign(r) {
      forall minutes: nat | 0 < minutes < 1440
        ensures SameForMinutes(minutes, r)
      {
        if r.base12h > 0 || r.base6h > 0 { PackMinutesAlign(minutes, r); } else { TimeMinutesAlign(minutes, r); }
      }
    }
    if AllBlocksAlign(r) {
      AlignedMinutesNeed(r);
    }
  }
}
