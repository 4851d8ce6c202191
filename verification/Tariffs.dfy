/** For which tariffs the wizard and the order table charge the same for every block of whole hours of a day. The
    wizard rounds to cents once the tariffs are added up; the table first rounds every tariff to whole pesos. */
module Tariffs {
  import opened Rounding
  import opened Packages

  /** What rounding a tariff to whole pesos leaves out. */
  function Off(ticks: int): int {
    ticks - 10000 * Pesos(ticks)
  }

  /** Within each kind of rule, no combination of packs and loose hours that fits in a day drifts by more than
      half a cent from its tariffs rounded to pesos. */
  predicate TariffsAlign(r: PricingRule) {
    var hour, six, twelve := Abs(Off(r.extraHourRate)), Off(r.base6h), Off(r.base12h);
    if r.base12h > 0 && r.base6h > 0 then
      5 * hour <= 50 && Abs(twelve) <= 50 && Abs(six) <= 50 && Abs(twelve + six) <= 50
    else if r.base12h > 0 then 11 * hour <= 50 && Abs(twelve) <= 50
    else if r.base6h > 0 then 5 * hour <= 50 && 3 * Abs(six) <= 50
    else 23 * hour <= 50
  }

  /** Wizard and table agree on every block of whole hours of a day. */
  ghost predicate BlocksAlign(r: PricingRule) {
    forall h: nat | 0 < h < 24 :: SameForHours(h, r)
  }

  // ----- Rounding near zero -----

  lemma RoundsToZeroIff(x: int, d: int)
    requires d > 0
    ensures RoundHalfEven(x, d) == 0 <==> 2 * Abs(x) <= d
  {
    if 0 <= x < d {
      Quotient(x, d, 0, x);
    } else if -d <= x < 0 {
      Quotient(x, d, -1, x + d);
    } else {
      FarFromZero(x, d);
    }
  }

  lemma FarFromZero(x: int, d: int)
    requires d > 0 && (x >= d || x < -d)
    ensures RoundHalfEven(x, d) != 0
  {
    if x >= d {
      QuotientMonotonic(d, x, d);
      Quotient(d, d, 1, 0);
    } else {
      QuotientMonotonic(x, -d - 1, d);
      Quotient(-d - 1, d, -2, d - 1);
    }
  }

  // ----- The wizard -----

  /** How far the wizard's charge is from the rounded tariffs, before its last rounding. */
  function Drift(n12: nat, n6: nat, loose: nat, r: PricingRule): int {
    n12 * Off(r.base12h) + n6 * Off(r.base6h) + 100 * RoundHalfEven(loose * Off(r.extraHourRate), 10000)
  }

  lemma LooseDrift(loose: nat, rate: nat)
    requires loose * Pesos(rate) % 2 == 0
    ensures RoundHalfEven(loose * rate, 10000) == RoundHalfEven(loose * Off(rate), 10000) + loose * Pesos(rate)
  {
    var k := loose * Pesos(rate) / 2;
    assert loose * rate == loose * Off(rate) + 2 * k * 10000 by {
      assert loose * (Off(rate) + 10000 * Pesos(rate)) == loose * Off(rate) + 10000 * (loose * Pesos(rate));
    }
    RoundShift(loose * Off(rate), 10000, k);
  }

  lemma PackDrift(n: nat, tariff: int)
    ensures n * tariff == n * Off(tariff) + 10000 * (n * Pesos(tariff))
  {
    assert n * (Off(tariff) + 10000 * Pesos(tariff)) == n * Off(tariff) + 10000 * (n * Pesos(tariff));
  }

  lemma EvenShift(drift: int, whole: int, loose: int)
    requires loose % 2 == 0
    ensures RoundHalfEven(drift + 10000 * whole + 100 * loose, 100) == RoundHalfEven(drift, 100) + 100 * whole + loose
  {
    RoundShift(drift, 100, 50 * whole + loose / 2);
    assert 2 * (50 * whole + loose / 2) * 100 == 10000 * whole + 100 * loose;
  }

  /** The wizard charges the rounded tariffs and the rounded drift. */
  lemma WizardDrifts(n12: nat, n6: nat, loose: nat, r: PricingRule)
    requires loose * Pesos(r.extraHourRate) % 2 == 0
    ensures SplitCents(n12, n6, loose, r) ==
            100 * (n12 * Pesos(r.base12h) + n6 * Pesos(r.base6h)) + loose * Pesos(r.extraHourRate) +
            RoundHalfEven(Drift(n12, n6, loose, r), 100)
  {
    LooseDrift(loose, r.extraHourRate);
    PackDrift(n12, r.base12h);
    PackDrift(n6, r.base6h);
    EvenShift(Drift(n12, n6, loose, r), n12 * Pesos(r.base12h) + n6 * Pesos(r.base6h), loose * Pesos(r.extraHourRate));
  }

  lemma HundredfoldIsEven(l: int, x: int)
    ensures (100 * l) * x % 2 == 0 && (100 * l) * x == 100 * (l * x)
  {
    assert (100 * l) * x == 2 * (50 * (l * x));
  }

  /** The wizard's price of whole hours. */
  lemma WizardChargesHours(h: nat, r: PricingRule)
    ensures
      var n12, n6 := Hours12(h, r.base12h > 0), Hours6(h, r.base12h > 0, r.base6h > 0);
      var l := LooseHours(h, r.base12h > 0, r.base6h > 0);
      PackageCents(100 * h, r) ==
        100 * (n12 * Pesos(r.base12h) + n6 * Pesos(r.base6h) + l * Pesos(r.extraHourRate)) +
        RoundHalfEven(Drift(n12, n6, 100 * l, r), 100)
  {
    var n12, n6 := Hours12(h, r.base12h > 0), Hours6(h, r.base12h > 0, r.base6h > 0);
    var l := LooseHours(h, r.base12h > 0, r.base6h > 0);
    PacksOfHours(h, r);
    HundredfoldIsEven(l, Pesos(r.extraHourRate));
    WizardDrifts(n12, n6, 100 * l, r);
  }

  // ----- The table -----

  lemma NoChargeIsFree(r: PricingRule)
    ensures r.extraHourRate == 0 ==> UnitPrice(Hour, CatalogOf(r)) == 0
  {
    RoundExact(0, 10000);
  }

  /** Where packs are offered the table charges the rounded tariffs of the same split. */
  lemma TableChargesPacks(h: nat, r: PricingRule)
    requires h > 0 && (r.base12h > 0 || r.base6h > 0)
    ensures BlockPesos(60 * h, CatalogOf(r)) ==
            Charge(h, r.base12h > 0, r.base6h > 0, Pesos(r.base12h), Pesos(r.base6h), Pesos(r.extraHourRate))
  {
    var p := CatalogOf(r);
    NoChargeIsFree(r);
    SegmentsWithRule(60 * h, r);
    HoursTotal(h, p, r.base12h > 0, r.base6h > 0, r.extraHourRate > 0);
    UnofferedPacks(h, r.base12h > 0, r.base6h > 0, UnitPrice(H12, p), UnitPrice(H6, p),
                   Pesos(r.base12h), Pesos(r.base6h), UnitPrice(Hour, p));
  }

  /** Where none is offered it still counts in packs, at twelve and six times the hourly rate. */
  lemma TableChargesTime(h: nat, r: PricingRule)
    requires h > 0 && r.base12h == 0 && r.base6h == 0
    ensures BlockPesos(60 * h, CatalogOf(r)) ==
            Charge(h, true, true, Pesos(12 * r.extraHourRate), Pesos(6 * r.extraHourRate), Pesos(r.extraHourRate))
  {
    SegmentsWithRule(60 * h, r);
    HoursTotal(h, CatalogOf(r), true, true, true);
  }

  lemma PesosOfMultiple(k: nat, rate: nat)
    requires k % 2 == 0 && 2 * (k * Abs(Off(rate))) <= 10000
    ensures Pesos(k * rate) == k * Pesos(rate)
  {
    PackDrift(k, rate);
    RoundsToZeroIff(k * Off(rate), 10000);
    AbsTimes(k, Off(rate));
    assert 2 * (k / 2 * Pesos(rate)) * 10000 == 10000 * (k * Pesos(rate)) by {
      assert k == 2 * (k / 2);
      assert 2 * (k / 2) * Pesos(rate) == 2 * (k / 2 * Pesos(rate));
    }
    RoundShift(k * Off(rate), 10000, k / 2 * Pesos(rate));
  }

  lemma AbsTimes(k: nat, x: int)
    ensures Abs(k * x) == k * Abs(x)
  {
    assert k * (-x) == -(k * x);
    if x >= 0 { assert k * x >= 0; } else { assert k * (-x) >= 0; }
  }

  // ----- One block -----

  /** Where packs are offered, a block aligns exactly when its drift is at most half a cent. */
  lemma PackBlockIff(h: nat, r: PricingRule)
    requires h > 0 && (r.base12h > 0 || r.base6h > 0)
    ensures
      var n12, n6 := Hours12(h, r.base12h > 0), Hours6(h, r.base12h > 0, r.base6h > 0);
      SameForHours(h, r) <==>
        2 * Abs(Drift(n12, n6, 100 * LooseHours(h, r.base12h > 0, r.base6h > 0), r)) <= 100
  {
    var n12, n6 := Hours12(h, r.base12h > 0), Hours6(h, r.base12h > 0, r.base6h > 0);
    WizardChargesHours(h, r);
    TableChargesPacks(h, r);
    RoundsToZeroIff(Drift(n12, n6, 100 * LooseHours(h, r.base12h > 0, r.base6h > 0), r), 100);
  }

  lemma HourDriftIff(l: nat, off: int)
    ensures RoundHalfEven(100 * l * off, 10000) == 0 <==> l * Abs(off) <= 50
  {
    RoundsToZeroIff(100 * l * off, 10000);
    AbsTimes(100 * l, off);
    assert 100 * l * Abs(off) == 100 * (l * Abs(off));
  }

  /** The drift of loose hours alone. */
  lemma LooseBlockIff(l: nat, r: PricingRule)
    ensures 2 * Abs(Drift(0, 0, 100 * l, r)) <= 100 <==> l * Abs(Off(r.extraHourRate)) <= 50
  {
    HourDriftIff(l, Off(r.extraHourRate));
  }

  /** The drift when the loose hours do not drift. */
  lemma PackDriftOnly(n12: nat, n6: nat, l: nat, r: PricingRule)
    requires l * Abs(Off(r.extraHourRate)) <= 50
    ensures Drift(n12, n6, 100 * l, r) == n12 * Off(r.base12h) + n6 * Off(r.base6h)
  {
    HourDriftIff(l, Off(r.extraHourRate));
  }

  lemma FewerHours(l: nat, m: nat, off: nat)
    requires l <= m
    ensures l * off <= m * off
  {
  }

  // ----- Both packs offered -----

  lemma TwoPacksDrift(n12: nat, n6: nat, o12: int, o6: int)
    requires n12 <= 1 && n6 <= 1 && Abs(o12) <= 50 && Abs(o6) <= 50 && Abs(o12 + o6) <= 50
    ensures Abs(n12 * o12 + n6 * o6) <= 50
  {
  }

  lemma BothPacksAlign(h: nat, r: PricingRule)
    requires 0 < h < 24 && r.base12h > 0 && r.base6h > 0 && TariffsAlign(r)
    ensures SameForHours(h, r)
  {
    var n12, n6, l := Hours12(h, true), Hours6(h, true, true), LooseHours(h, true, true);
    FewerHours(l, 5, Abs(Off(r.extraHourRate)));
    TwoPacksDrift(n12, n6, Off(r.base12h), Off(r.base6h));
    PackDriftOnly(n12, n6, l, r);
    PackBlockIff(h, r);
  }

  /** A block of packs alone. */
  lemma BothPacksNeed(h: nat, n12: nat, n6: nat, r: PricingRule)
    requires r.base12h > 0 && r.base6h > 0 && h == 12 * n12 + 6 * n6 && h > 0 && n6 <= 1
    ensures SameForHours(h, r) <==> Abs(n12 * Off(r.base12h) + n6 * Off(r.base6h)) <= 50
  {
    assert Hours12(h, true) == n12 && Hours6(h, true, true) == n6 && LooseHours(h, true, true) == 0;
    PackDriftOnly(n12, n6, 0, r);
    PackBlockIff(h, r);
  }

  /** A block shorter than every pack. */
  lemma ShortNeeds(h: nat, r: PricingRule)
    requires 0 < h < 12 && (r.base12h > 0 || r.base6h > 0) && (r.base6h > 0 ==> h < 6)
    ensures SameForHours(h, r) <==> h * Abs(Off(r.extraHourRate)) <= 50
  {
    assert Hours12(h, r.base12h > 0) == 0 && Hours6(h, r.base12h > 0, r.base6h > 0) == 0;
    LooseBlockIff(h, r);
    PackBlockIff(h, r);
  }

  lemma BothPacksIff(r: PricingRule)
    requires r.base12h > 0 && r.base6h > 0
    ensures BlocksAlign(r) <==> TariffsAlign(r)
  {
    if TariffsAlign(r) {
      forall h: nat | 0 < h < 24
        ensures SameForHours(h, r)
      {
        BothPacksAlign(h, r);
      }
    }
    ShortNeeds(5, r);
    BothPacksNeed(12, 1, 0, r);
    BothPacksNeed(6, 0, 1, r);
    BothPacksNeed(18, 1, 1, r);
  }

  // ----- One pack offered -----

  lemma TwelveOnlyAligns(h: nat, r: PricingRule)
    requires 0 < h < 24 && r.base12h > 0 && r.base6h == 0 && TariffsAlign(r)
    ensures SameForHours(h, r)
  {
    var n12, l := Hours12(h, true), LooseHours(h, true, false);
    FewerHours(l, 11, Abs(Off(r.extraHourRate)));
    FewerHours(n12, 1, Abs(Off(r.base12h)));
    AbsTimes(n12, Off(r.base12h));
    PackDriftOnly(n12, 0, l, r);
    PackBlockIff(h, r);
  }

  lemma SixOnlyAligns(h: nat, r: PricingRule)
    requires 0 < h < 24 && r.base12h == 0 && r.base6h > 0 && TariffsAlign(r)
    ensures SameForHours(h, r)
  {
    var n6, l := Hours6(h, false, true), LooseHours(h, false, true);
    FewerHours(l, 5, Abs(Off(r.extraHourRate)));
    FewerHours(n6, 3, Abs(Off(r.base6h)));
    AbsTimes(n6, Off(r.base6h));
    PackDriftOnly(0, n6, l, r);
    PackBlockIff(h, r);
  }

  lemma OnePackNeeds(r: PricingRule)
    requires (r.base12h > 0) != (r.base6h > 0)
    ensures r.base12h > 0 ==> (SameForHours(12, r) <==> Abs(Off(r.base12h)) <= 50)
    ensures r.base6h > 0 ==> (SameForHours(18, r) <==> Abs(3 * Off(r.base6h)) <= 50)
  {
    if r.base12h > 0 {
      assert Hours12(12, true) == 1 && Hours6(12, true, false) == 0 && LooseHours(12, true, false) == 0;
      PackDriftOnly(1, 0, 0, r);
      PackBlockIff(12, r);
    } else {
      assert Hours12(18, false) == 0 && Hours6(18, false, true) == 3 && LooseHours(18, false, true) == 0;
      PackDriftOnly(0, 3, 0, r);
      PackBlockIff(18, r);
    }
  }

  lemma OnePackIff(r: PricingRule)
    requires (r.base12h > 0) != (r.base6h > 0)
    ensures BlocksAlign(r) <==> TariffsAlign(r)
  {
    if TariffsAlign(r) {
      forall h: nat | 0 < h < 24
        ensures SameForHours(h, r)
      {
        if r.base12h > 0 { TwelveOnlyAligns(h, r); } else { SixOnlyAligns(h, r); }
      }
    }
    ShortNeeds(if r.base12h > 0 then 11 else 5, r);
    OnePackNeeds(r);
  }

  // ----- No pack offered -----

  lemma WizardChargesTime(h: nat, r: PricingRule)
    requires r.base12h == 0 && r.base6h == 0
    ensures PackageCents(100 * h, r) == 100 * (h * Pesos(r.extraHourRate)) + RoundHalfEven(Drift(0, 0, 100 * h, r), 100)
  {
    WizardChargesHours(h, r);
  }

  /** Where the table charges the hours at the rounded rate. */
  lemma TimeBlockIff(h: nat, r: PricingRule)
    requires r.base12h == 0 && r.base6h == 0 && BlockPesos(60 * h, CatalogOf(r)) == h * Pesos(r.extraHourRate)
    ensures SameForHours(h, r) <==> h * Abs(Off(r.extraHourRate)) <= 50
  {
    WizardChargesTime(h, r);
    RoundsToZeroIff(Drift(0, 0, 100 * h, r), 100);
    LooseBlockIff(h, r);
  }

  lemma ShortTimePesos(h: nat, r: PricingRule)
    requires 0 < h < 6 && r.base12h == 0 && r.base6h == 0
    ensures BlockPesos(60 * h, CatalogOf(r)) == h * Pesos(r.extraHourRate)
  {
    TableChargesTime(h, r);
    assert Hours12(h, true) == 0 && Hours6(h, true, true) == 0 && LooseHours(h, true, true) == h;
  }

  /** While the rate drifts little, the packs the table counts in cost what their hours cost. */
  lemma TimePesos(h: nat, r: PricingRule)
    requires h > 0 && r.base12h == 0 && r.base6h == 0 && Abs(Off(r.extraHourRate)) <= 10
    ensures BlockPesos(60 * h, CatalogOf(r)) == h * Pesos(r.extraHourRate)
  {
    TableChargesTime(h, r);
    PesosOfMultiple(12, r.extraHourRate);
    PesosOfMultiple(6, r.extraHourRate);
    ByTheHour(h, Pesos(r.extraHourRate));
  }

  lemma NoPackAligns(h: nat, r: PricingRule)
    requires 0 < h < 24 && r.base12h == 0 && r.base6h == 0 && 23 * Abs(Off(r.extraHourRate)) <= 50
    ensures SameForHours(h, r)
  {
    TimePesos(h, r);
    FewerHours(h, 23, Abs(Off(r.extraHourRate)));
    TimeBlockIff(h, r);
  }

  lemma NoPackNeeds(r: PricingRule)
    requires r.base12h == 0 && r.base6h == 0
    ensures SameForHours(5, r) && SameForHours(23, r) ==> 23 * Abs(Off(r.extraHourRate)) <= 50
  {
    ShortTimePesos(5, r);
    TimeBlockIff(5, r);
    if Abs(Off(r.extraHourRate)) <= 10 {
      TimePesos(23, r);
      TimeBlockIff(23, r);
    }
  }

  lemma NoPackIff(r: PricingRule)
    requires r.base12h == 0 && r.base6h == 0
    ensures BlocksAlign(r) <==> TariffsAlign(r)
  {
    if TariffsAlign(r) {
      forall h: nat | 0 < h < 24
        ensures SameForHours(h, r)
      {
        NoPackAligns(h, r);
      }
    }
    NoPackNeeds(r);
  }

  /** For every rule, the two modules charge the same for all blocks of whole hours of a day if and only if its
      tariffs align. */
  lemma BlocksAlignIff(r: PricingRule)
    ensures BlocksAlign(r) <==> TariffsAlign(r)
  {
    if r.base12h > 0 && r.base6h > 0 {
      BothPacksIff(r);
    } else if r.base12h > 0 || r.base6h > 0 {
      OnePackIff(r);
    } else {
      NoPackIff(r);
    }
  }

  lemma WholePesosAreExact(ticks: nat)
    requires ticks % 10000 == 0
    ensures Off(ticks) == 0
  {
    RoundExact(ticks / 10000, 10000);
  }

  /** Tariffs in whole pesos align. */
  lemma WholePesosAlways(r: PricingRule)
    requires WholePesos(r)
    ensures TariffsAlign(r)
  {
    WholePesosAreExact(r.base12h);
    WholePesosAreExact(r.base6h);
    WholePesosAreExact(r.extraHourRate);
  }

  /** Tariffs in whole cents align only in whole pesos. */
  lemma WholeCentsNeedPesos(r: PricingRule)
    requires WholeCents(r)
    ensures TariffsAlign(r) <==> WholePesos(r)
  {
    CentsOff(r.base12h);
    CentsOff(r.base6h);
    CentsOff(r.extraHourRate);
  }

  lemma CentsOff(ticks: nat)
    requires ticks % 100 == 0
    ensures Abs(Off(ticks)) <= 50 <==> ticks % 10000 == 0
    ensures ticks % 10000 == 0 ==> Off(ticks) == 0
  {
    if ticks % 10000 == 0 { WholePesosAreExact(ticks); }
    SmallHundreds(ticks / 100, Pesos(ticks));
  }

  lemma SmallHundreds(cents: int, pesos: int)
    ensures Abs(100 * cents - 10000 * pesos) <= 50 ==> 100 * cents % 10000 == 0
  {
    if Abs(100 * cents - 10000 * pesos) <= 50 { assert cents == 100 * pesos; }
  }
}
