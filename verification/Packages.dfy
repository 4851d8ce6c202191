/** Package tariffs: the greedy price of `crm/public_service.py`, the decomposition of
    `booking/order_table_rows.py`, and when the two charge the same for a block. */
module Packages {
  import opened Common
  import opened Lists
  import opened Rounding

  /** A pricing rule; tariffs are in ten-thousandths of a peso. */
  datatype PricingRule = PricingRule(base6h: nat, base12h: nat, extraHourRate: nat)

  // ----- The wizard's price -----

  /** The charge, in cents, of a packs of twelve hours, b of six and some loose hundredths of an hour: the
      loose hours are rounded to cents, then the whole. */
  function SplitCents(a: nat, b: nat, loose: nat, r: PricingRule): int {
    RoundHalfEven(a * r.base12h + b * r.base6h + 100 * RoundHalfEven(loose * r.extraHourRate, 10000), 100)
  }

  /** The exact cost of a split, in millionths of a peso, before any rounding. */
  function SplitCost(a: nat, b: nat, loose: nat, r: PricingRule): int {
    100 * (a * r.base12h + b * r.base6h) + loose * r.extraHourRate
  }

  /** A split of a duration, given in hundredths of an hour. */
  predicate Splits(d: nat, a: nat, b: nat, loose: nat) {
    1200 * a + 600 * b + loose == d
  }

  function Packs12(d: nat, r: PricingRule): nat {
    if r.base12h > 0 then d / 1200 else 0
  }

  function Packs6(d: nat, r: PricingRule): nat {
    if r.base6h > 0 then (d - 1200 * Packs12(d, r)) / 600 else 0
  }

  function Loose(d: nat, r: PricingRule): nat {
    d - 1200 * Packs12(d, r) - 600 * Packs6(d, r)
  }

  /** The price of a duration: as many twelve-hour packs as fit, then six-hour packs, then loose hours. */
  function PackageCents(d: nat, r: PricingRule): int {
    SplitCents(Packs12(d, r), Packs6(d, r), Loose(d, r), r)
  }

  /** Take as many packs as fit, if the pack has a price: their cost, and what remains. */
  method TakePacks(remaining: nat, size: nat, tariff: nat) returns (cost: int, rest: nat, ghost n: nat)
    requires size > 0
    ensures n == (if tariff > 0 then remaining / size else 0) && cost == n * tariff && rest == remaining - n * size
  {
    cost, rest, n := 0, remaining, 0;
    if tariff > 0 {
      var packs := remaining / size;
      if packs != 0 {
        PacksFit(remaining, size);
        cost, rest := packs * tariff, remaining - packs * size;
      }
      n := packs;
    }
  }

  lemma PacksFit(remaining: nat, size: nat)
    requires size > 0
    ensures remaining / size * size <= remaining
  {
  }

  /** _package_price_for_duration: None stands for the ValueError on a duration that is not positive. */
  method PackagePriceForDuration(d: int, r: PricingRule) returns (price: Option<int>)
    ensures price == if d <= 0 then None else Some(PackageCents(d, r))
  {
    if d <= 0 {
      return None;
    }
    var cost12, left, n12 := TakePacks(d, 1200, r.base12h);
    var cost6, loose, n6 := TakePacks(left, 600, r.base6h);
    assert n12 == Packs12(d, r) && n6 == Packs6(d, r) && loose == Loose(d, r);
    var total := cost12 + cost6;
    if loose > 0 {
      total := total + 100 * RoundHalfEven(loose * r.extraHourRate, 10000);
    }
    price := Some(RoundHalfEven(total, 100));
  }

  // ----- The greedy split is the cheapest -----

  /** No offered pack costs more than the next smaller units it replaces. */
  predicate PacksPay(r: PricingRule) {
    && (r.base6h > 0 ==> r.base6h <= 6 * r.extraHourRate)
    && (r.base12h > 0 ==> r.base12h <= if r.base6h > 0 then 2 * r.base6h else 12 * r.extraHourRate)
  }

  /** The split uses only packs that are offered; a tariff of zero means the pack is not. */
  predicate Offered(a: nat, b: nat, r: PricingRule) {
    (a > 0 ==> r.base12h > 0) && (b > 0 ==> r.base6h > 0)
  }

  ghost predicate GreedyIsCheapest(r: PricingRule) {
    forall d: nat, a: nat, b: nat, loose: nat | Splits(d, a, b, loose) && Offered(a, b, r) ::
      SplitCost(Packs12(d, r), Packs6(d, r), Loose(d, r), r) <= SplitCost(a, b, loose, r)
  }

  function PackCost(a: nat, b: nat, r: PricingRule): nat {
    a * r.base12h + b * r.base6h
  }

  /** The greedy split takes j six-hour stretches of loose time into packs, and regroups the packs. */
  predicate Regroups(d: nat, a: nat, b: nat, loose: nat, r: PricingRule, j: nat) {
    && Loose(d, r) + 600 * j == loose
    && (PacksPay(r) ==> PackCost(Packs12(d, r), Packs6(d, r), r) <= PackCost(a, b, r) + 6 * j * r.extraHourRate)
  }

  /** i pairs of six-hour packs for twelve-hour packs, and j six-hour packs for loose time. */
  lemma BothPay(a: nat, b: nat, i: nat, odd: nat, j: nat, b12: nat, b6: nat, e: nat)
    requires b + j == 2 * i + odd && b12 <= 2 * b6 && b6 <= 6 * e
    ensures (a + i) * b12 + odd * b6 <= a * b12 + b * b6 + 6 * j * e
  {
    assert i * b12 <= i * (2 * b6);
    assert j * b6 <= j * (6 * e);
    assert (a + i) * b12 == a * b12 + i * b12;
    assert (b + j) * b6 == b * b6 + j * b6;
    assert (2 * i + odd) * b6 == i * (2 * b6) + odd * b6;
    assert 6 * j * e == j * (6 * e);
  }

  lemma RegroupBoth(d: nat, a: nat, b: nat, loose: nat, r: PricingRule) returns (j: nat)
    requires Splits(d, a, b, loose) && r.base12h > 0 && r.base6h > 0
    ensures Regroups(d, a, b, loose, r, j)
  {
    j := loose / 600;
    var i, odd, rest := (b + j) / 2, (b + j) % 2, loose % 600;
    assert d == 1200 * (a + i) + (600 * odd + rest);
    Quotient(d, 1200, a + i, 600 * odd + rest);
    Quotient(600 * odd + rest, 600, odd, rest);
    if PacksPay(r) { BothPay(a, b, i, odd, j, r.base12h, r.base6h, r.extraHourRate); }
  }

  /** i packs, each of as many six-hour stretches, for loose time. */
  lemma OnePays(a: nat, i: nat, size: nat, base: nat, e: nat)
    requires base <= 6 * size * e
    ensures (a + i) * base <= a * base + 6 * (size * i) * e
  {
    assert i * base <= i * (6 * size * e);
    assert (a + i) * base == a * base + i * base;
    assert 6 * (size * i) * e == i * (6 * size * e);
  }

  lemma RegroupTwelve(d: nat, a: nat, loose: nat, r: PricingRule) returns (j: nat)
    requires Splits(d, a, 0, loose) && r.base12h > 0 && r.base6h == 0
    ensures Regroups(d, a, 0, loose, r, j)
  {
    var i := loose / 1200;
    j := 2 * i;
    Quotient(d, 1200, a + i, loose % 1200);
    if PacksPay(r) { OnePays(a, i, 2, r.base12h, r.extraHourRate); }
  }

  lemma RegroupSix(d: nat, b: nat, loose: nat, r: PricingRule) returns (j: nat)
    requires Splits(d, 0, b, loose) && r.base12h == 0 && r.base6h > 0
    ensures Regroups(d, 0, b, loose, r, j)
  {
    j := loose / 600;
    Quotient(d, 600, b + j, loose % 600);
    if PacksPay(r) { OnePays(b, j, 1, r.base6h, r.extraHourRate); }
  }

  /** Any split into offered packs regroups into the greedy one. */
  lemma SplitRegroups(d: nat, a: nat, b: nat, loose: nat, r: PricingRule) returns (j: nat)
    requires Splits(d, a, b, loose) && Offered(a, b, r)
    ensures Regroups(d, a, b, loose, r, j)
  {
    if r.base12h > 0 && r.base6h > 0 {
      j := RegroupBoth(d, a, b, loose, r);
    } else if r.base12h > 0 {
      j := RegroupTwelve(d, a, loose, r);
    } else if r.base6h > 0 {
      j := RegroupSix(d, b, loose, r);
    } else {
      j := 0;
    }
  }

  lemma LooseCost(rest: nat, j: nat, e: nat)
    ensures (rest + 600 * j) * e == rest * e + 100 * (6 * j * e)
  {
  }

  lemma PayingPacksAreCheapest(r: PricingRule)
    requires PacksPay(r)
    ensures GreedyIsCheapest(r)
  {
    forall d: nat, a: nat, b: nat, loose: nat | Splits(d, a, b, loose) && Offered(a, b, r)
      ensures SplitCost(Packs12(d, r), Packs6(d, r), Loose(d, r), r) <= SplitCost(a, b, loose, r)
    {
      var j := SplitRegroups(d, a, b, loose, r);
      LooseCost(Loose(d, r), j, r.extraHourRate);
    }
  }

  /** What one pack is compared with. */
  lemma CheapestNeedsPay(r: PricingRule)
    requires GreedyIsCheapest(r)
    ensures PacksPay(r)
  {
    assert Splits(1200, 0, 2, 0) && Splits(600, 0, 0, 600) && Splits(1200, 0, 0, 1200);
    if r.base6h > 0 {
      assert Offered(0, 0, r);
      assert SplitCost(Packs12(600, r), Packs6(600, r), Loose(600, r), r) == 100 * r.base6h;
      assert SplitCost(0, 0, 600, r) == 600 * r.extraHourRate;
    }
    if r.base12h > 0 {
      assert Offered(0, 0, r) && (r.base6h > 0 ==> Offered(0, 2, r));
      assert SplitCost(Packs12(1200, r), Packs6(1200, r), Loose(1200, r), r) == 100 * r.base12h;
      assert SplitCost(0, 2, 0, r) == 100 * (2 * r.base6h);
      assert SplitCost(0, 0, 1200, r) == 1200 * r.extraHourRate;
    }
  }

  /** For every rule, the greedy decomposition costs the least among all splits of every duration into the packs
      the rule offers if and only if no offered pack costs more than the smaller units it replaces. */
  lemma GreedyIsCheapestIff(r: PricingRule)
    ensures GreedyIsCheapest(r) <==> PacksPay(r)
  {
    if PacksPay(r) {
      PayingPacksAreCheapest(r);
    }
    if GreedyIsCheapest(r) {
      CheapestNeedsPay(r);
    }
  }

  /** Tariffs without fractions of a cent. */
  predicate WholeCents(r: PricingRule) {
    r.base6h % 100 == 0 && r.base12h % 100 == 0 && r.extraHourRate % 100 == 0
  }

  lemma PesosOfCents(j: nat, cents: nat)
    ensures 600 * j * (100 * cents) == 2 * (3 * j * cents) * 10000
    ensures 2 * (3 * j * cents) == 6 * j * cents
  {
    var product := j * cents;
    assert 600 * j * (100 * cents) == 60000 * product && 3 * j * cents == 3 * product;
  }

  lemma LooseRounded(rest: nat, j: nat, cents: nat)
    ensures RoundHalfEven((rest + 600 * j) * (100 * cents), 10000) ==
            RoundHalfEven(rest * (100 * cents), 10000) + 6 * j * cents
  {
    Distribute(rest, 600 * j, 100 * cents);
    PesosOfCents(j, cents);
    RoundShift(rest * (100 * cents), 10000, 3 * j * cents);
  }

  lemma ChargedOrder(cost: int, other: int, rounded: int, step: int)
    requires cost <= other + 100 * step
    ensures RoundHalfEven(cost + 100 * rounded, 100) <= RoundHalfEven(other + 100 * (rounded + step), 100)
  {
    RoundMonotonic(cost + 100 * rounded, other + 100 * (rounded + step), 100);
  }

  lemma SixHoursOfCents(j: nat, cents: nat)
    ensures 6 * j * (100 * cents) == 100 * (6 * j * cents)
  {
  }

  /** When the hourly rate has no fraction of a cent, the price really charged, rounding included, is the least
      of all splits into offered packs. */
  lemma ChargedPriceIsCheapest(d: nat, a: nat, b: nat, loose: nat, r: PricingRule)
    requires PacksPay(r) && r.extraHourRate % 100 == 0 && Splits(d, a, b, loose) && Offered(a, b, r)
    ensures PackageCents(d, r) <= SplitCents(a, b, loose, r)
  {
    var cents := r.extraHourRate / 100;
    var j := SplitRegroups(d, a, b, loose, r);
    LooseRounded(Loose(d, r), j, cents);
    SixHoursOfCents(j, cents);
    ChargedOrder(PackCost(Packs12(d, r), Packs6(d, r), r), PackCost(a, b, r),
                 RoundHalfEven(Loose(d, r) * r.extraHourRate, 10000), 6 * j * cents);
  }

  /** With a fraction of a cent it need not be: at 0.025 pesos an hour and 0.15 for six hours, 6.6 hours cost 17
      cents, and 16 without the pack. */
  lemma FractionsMayCostMore()
    ensures
      var r := PricingRule(1500, 0, 250);
      PacksPay(r) && Splits(660, 0, 0, 660) && PackageCents(660, r) == 17 && SplitCents(0, 0, 660, r) == 16
  {
    var r := PricingRule(1500, 0, 250);
    assert Packs12(660, r) == 0 && Packs6(660, r) == 1 && Loose(660, r) == 60;
  }

  // ----- The decomposition of the order table -----

  /** Catalog prices in ten-thousandths of a peso; zero means the package is not offered. */
  datatype CatalogPrices = CatalogPrices(porHora: nat, seisHoras: nat, doceHoras: nat, semana: nat, mes: nat)

  datatype Kind = Month | Week | H12 | H6 | Hour

  /** A priced stretch; the quantity is in sixtieths (a pack counts 60). */
  datatype Segment = Segment(kind: Kind, qty: nat)

  const MONTH := 43200
  const WEEK := 7200

  function Min(a: nat, b: nat): nat {
    if a < b then a else b
  }

  /** n packs of a kind, or no segment at all. */
  function PackSegment(kind: Kind, n: nat): seq<Segment> {
    if n > 0 then [Segment(kind, 60 * n)] else []
  }

  /** How many twelve-hour packs fit, if they are offered. */
  function TwelvePacks(minutes: nat, offered: bool): (n: nat)
    ensures 720 * n <= minutes
  {
    if offered then minutes / 720 else 0
  }

  function SixPacks(minutes: nat, offered: bool): (n: nat)
    ensures 360 * n <= minutes
  {
    if offered then minutes / 360 else 0
  }

  function LooseSegment(minutes: nat, charged: bool): seq<Segment> {
    if minutes > 0 && charged then [Segment(Hour, minutes)] else []
  }

  /** Twelve-hour packs, then six-hour packs, then the rest by the hour. */
  function DaySegments(minutes: nat, twelve: bool, six: bool, hourly: bool): seq<Segment> {
    var n12 := TwelvePacks(minutes, twelve);
    var n6 := SixPacks(minutes - 720 * n12, six);
    PackSegment(H12, n12) + (PackSegment(H6, n6) + LooseSegment(minutes - 720 * n12 - 360 * n6, hourly))
  }

  function Months(minutes: nat, p: CatalogPrices): (n: nat)
    ensures MONTH * n <= minutes
  {
    if p.mes > 0 then Min(minutes / MONTH, 11) else 0
  }

  function Weeks(minutes: nat, p: CatalogPrices): (n: nat)
    ensures MONTH * Months(minutes, p) + WEEK * n <= minutes
  {
    if p.semana > 0 then (minutes - MONTH * Months(minutes, p)) / WEEK else 0
  }

  /** What months and weeks leave over. */
  function Remainder(minutes: nat, p: CatalogPrices): nat {
    minutes - MONTH * Months(minutes, p) - WEEK * Weeks(minutes, p)
  }

  function PackageSegments(minutes: nat, p: CatalogPrices): seq<Segment> {
    PackSegment(Month, Months(minutes, p)) +
    (PackSegment(Week, Weeks(minutes, p)) +
     DaySegments(Remainder(minutes, p), p.doceHoras > 0, p.seisHoras > 0, p.porHora > 0))
  }

  /** decompose_hours_into_packages on a number of minutes. */
  method DecomposeIntoPackages(minutes: nat, p: CatalogPrices) returns (out: seq<Segment>)
    ensures out == PackageSegments(minutes, p)
  {
    var h: nat;
    out, h := DecomposeLong(minutes, p);
    var days := DecomposeDays(h, p.doceHoras > 0, p.seisHoras > 0, p.porHora > 0);
    Reassociate(PackSegment(Month, Months(minutes, p)), PackSegment(Week, Weeks(minutes, p)), days);
    out := out + days;
  }

  lemma Reassociate<T>(a: seq<T>, b: seq<T>, c: seq<T>)
    ensures a + b + c == a + (b + c)
  {
  }

  /** Months, at most eleven, and weeks. */
  method DecomposeLong(minutes: nat, p: CatalogPrices) returns (out: seq<Segment>, h: nat)
    ensures out == PackSegment(Month, Months(minutes, p)) + PackSegment(Week, Weeks(minutes, p))
    ensures h == Remainder(minutes, p)
  {
    out, h := [], minutes;
    if p.mes > 0 {
      var n := Min(h / MONTH, 11);
      if n > 0 {
        out := out + [Segment(Month, 60 * n)];
        h := h - n * MONTH;
      }
    }
    if p.semana > 0 {
      var n := h / WEEK;
      if n > 0 {
        out := out + [Segment(Week, 60 * n)];
        h := h - n * WEEK;
      }
    }
  }

  /** The part the two decompositions share. */
  method DecomposeDays(minutes: nat, twelve: bool, six: bool, hourly: bool) returns (out: seq<Segment>)
    ensures out == DaySegments(minutes, twelve, six, hourly)
  {
    out := [];
    var h := minutes;
    if twelve {
      var n12 := h / 720;
      if n12 > 0 {
        out := out + [Segment(H12, 60 * n12)];
        h := h - n12 * 720;
      }
    }
    if six {
      var n6 := h / 360;
      if n6 > 0 {
        out := out + [Segment(H6, 60 * n6)];
        h := h - n6 * 360;
      }
    }
    if h > 0 && hourly {
      out := out + [Segment(Hour, h)];
    }
  }

  /** decompose_hours_by_time_only on a number of minutes. */
  method DecomposeByTimeOnly(minutes: nat) returns (out: seq<Segment>)
    ensures out == TimeSegments(minutes)
  {
    out := DecomposeDays(minutes, true, true, true);
  }

  function TimeSegments(minutes: nat): seq<Segment> {
    DaySegments(minutes, true, true, true)
  }

  /** The minutes a sixtieth of a unit stands for. */
  function MinutesPer(kind: Kind): nat {
    match kind
    case Month => 720
    case Week => 120
    case H12 => 12
    case H6 => 6
    case Hour => 1
  }

  /** The time a list of segments accounts for. */
  function TimeOf(segments: seq<Segment>): nat
    decreases |segments|
  {
    if segments == [] then 0
    else
      var last := segments[|segments| - 1];
      TimeOf(segments[..|segments| - 1]) + MinutesPer(last.kind) * last.qty
  }

  lemma {:induction false} TimeConcat(a: seq<Segment>, b: seq<Segment>)
    ensures TimeOf(a + b) == TimeOf(a) + TimeOf(b)
    decreases |b|
  {
    if b == [] {
      assert a + b == a;
    } else {
      assert (a + b)[..|a + b| - 1] == a + b[..|b| - 1];
      TimeConcat(a, b[..|b| - 1]);
    }
  }

  lemma TimeOfPack(kind: Kind, n: nat)
    ensures TimeOf(PackSegment(kind, n)) == 60 * n * MinutesPer(kind)
  {
    if n > 0 {
      assert PackSegment(kind, n)[..0] == [];
      assert TimeOf(PackSegment(kind, n)) == MinutesPer(kind) * (60 * n);
    }
  }

  lemma TimeOfThree(a: seq<Segment>, b: seq<Segment>, c: seq<Segment>, x: nat, y: nat, z: nat)
    requires TimeOf(a) == x && TimeOf(b) == y && TimeOf(c) == z
    ensures TimeOf(a + (b + c)) == x + y + z
  {
    TimeConcat(a, b + c);
    TimeConcat(b, c);
  }

  lemma TimeOfLoose(minutes: nat)
    ensures TimeOf(LooseSegment(minutes, true)) == minutes
  {
    if minutes > 0 {
      assert LooseSegment(minutes, true)[..0] == [];
    }
  }

  lemma TimeOfDay(n12: nat, n6: nat, rest: nat)
    ensures TimeOf(PackSegment(H12, n12) + (PackSegment(H6, n6) + LooseSegment(rest, true))) ==
            720 * n12 + 360 * n6 + rest
  {
    TimeOfPack(H12, n12);
    TimeOfPack(H6, n6);
    TimeOfLoose(rest);
    TimeOfThree(PackSegment(H12, n12), PackSegment(H6, n6), LooseSegment(rest, true), 720 * n12, 360 * n6, rest);
  }

  lemma DaysAccountForAllTime(minutes: nat, twelve: bool, six: bool)
    ensures TimeOf(DaySegments(minutes, twelve, six, true)) == minutes
  {
    var n12 := TwelvePacks(minutes, twelve);
    var n6 := SixPacks(minutes - 720 * n12, six);
    TimeOfDay(n12, n6, minutes - 720 * n12 - 360 * n6);
  }

  lemma TimeWithMonths(months: nat, weeks: nat, rest: nat, days: seq<Segment>)
    requires TimeOf(days) == rest
    ensures TimeOf(PackSegment(Month, months) + (PackSegment(Week, weeks) + days)) ==
            43200 * months + 7200 * weeks + rest
  {
    TimeOfPack(Month, months);
    TimeOfPack(Week, weeks);
    TimeOfThree(PackSegment(Month, months), PackSegment(Week, weeks), days, 43200 * months, 7200 * weeks, rest);
  }

  /** When loose hours have a price the segments account for every minute, months and weeks included. */
  lemma PackagesAccountForAllTime(minutes: nat, p: CatalogPrices)
    requires p.porHora > 0
    ensures TimeOf(PackageSegments(minutes, p)) == minutes
  {
    var rest := Remainder(minutes, p);
    DaysAccountForAllTime(rest, p.doceHoras > 0, p.seisHoras > 0);
    TimeWithMonths(Months(minutes, p), Weeks(minutes, p), rest,
                   DaySegments(rest, p.doceHoras > 0, p.seisHoras > 0, true));
  }

  /** Whole pesos, half to even. */
  function Pesos(ticks: int): int {
    RoundHalfEven(ticks, 10000)
  }

  /** get_segment_unit_price_from_pricing: the unit price of a segment in pesos. */
  function UnitPrice(kind: Kind, p: CatalogPrices): int {
    match kind
    case Month => if p.mes > 0 then Pesos(p.mes) else Pesos(p.porHora * 720)
    case Week => if p.semana > 0 then Pesos(p.semana) else Pesos(p.porHora * 120)
    case H12 =>
      if p.doceHoras > 0 then Pesos(p.doceHoras)
      else if p.seisHoras > 0 then Pesos(p.seisHoras * 2)
      else Pesos(p.porHora * 12)
    case H6 => if p.seisHoras > 0 then Pesos(p.seisHoras) else Pesos(p.porHora * 6)
    case Hour => Pesos(p.porHora)
  }

  function SegmentPesos(s: Segment, p: CatalogPrices): int {
    RoundHalfEven(UnitPrice(s.kind, p) * s.qty, 60)
  }

  function SegmentTotals(segments: seq<Segment>, p: CatalogPrices): (r: seq<int>)
    ensures |r| == |segments| && forall i {:trigger r[i]} | 0 <= i < |r| :: r[i] == SegmentPesos(segments[i], p)
  {
    seq(|segments|, i requires 0 <= i < |segments| => SegmentPesos(segments[i], p))
  }

  /** The segments the table uses for a block: packages when some package has a price, else by time only, and
      at least an hour when there would be none. */
  function SegmentsOf(minutes: nat, prices: Option<CatalogPrices>): seq<Segment> {
    var segments := match prices
      case Some(p) => if p.doceHoras > 0 || p.seisHoras > 0 then PackageSegments(minutes, p) else TimeSegments(minutes)
      case None => TimeSegments(minutes);
    AtLeastAnHour(minutes, segments)
  }

  /** What the table charges for a priced block, in pesos. */
  function BlockPesos(minutes: nat, p: CatalogPrices): int {
    Sum(SegmentTotals(SegmentsOf(minutes, Some(p)), p))
  }

  // ----- Both charges for a block -----

  /** catalog_prices_for_space for a space with a rule. */
  function CatalogOf(r: PricingRule): CatalogPrices {
    CatalogPrices(r.extraHourRate, r.base6h, r.base12h, 0, 0)
  }

  predicate WholePesos(r: PricingRule) {
    r.base6h % 10000 == 0 && r.base12h % 10000 == 0 && r.extraHourRate % 10000 == 0
  }

  /** The price of h hours in whole pesos, with unit prices x12, x6 and x1. */
  function HoursPesos(h: nat, r: PricingRule): int {
    Charge(h, r.base12h > 0, r.base6h > 0, r.base12h / 10000, r.base6h / 10000, r.extraHourRate / 10000)
  }

  lemma PacksOfHours(h: nat, r: PricingRule)
    ensures Packs12(100 * h, r) == Hours12(h, r.base12h > 0)
    ensures Packs6(100 * h, r) == Hours6(h, r.base12h > 0, r.base6h > 0)
    ensures Loose(100 * h, r) == 100 * LooseHours(h, r.base12h > 0, r.base6h > 0)
  {
  }

  lemma WholeSplitCents(n12: nat, n6: nat, hours: nat, r: PricingRule)
    requires WholePesos(r)
    ensures SplitCents(n12, n6, 100 * hours, r) ==
            100 * (n12 * (r.base12h / 10000) + n6 * (r.base6h / 10000) + hours * (r.extraHourRate / 10000))
  {
    var x12, x6, x1 := r.base12h / 10000, r.base6h / 10000, r.extraHourRate / 10000;
    var total := n12 * x12 + n6 * x6 + hours * x1;
    assert (100 * hours) * (10000 * x1) == (100 * (hours * x1)) * 10000;
    RoundExact(100 * (hours * x1), 10000);
    assert n12 * (10000 * x12) == 10000 * (n12 * x12);
    assert n6 * (10000 * x6) == 10000 * (n6 * x6);
    RoundExact(100 * total, 100);
  }

  lemma WizardChargesWholePesos(h: nat, r: PricingRule)
    requires WholePesos(r)
    ensures PackageCents(100 * h, r) == 100 * HoursPesos(h, r)
  {
    PacksOfHours(h, r);
    WholeSplitCents(Packs12(100 * h, r), Packs6(100 * h, r), Loose(100 * h, r) / 100, r);
  }

  lemma WholeUnits(h: nat, r: PricingRule)
    requires WholePesos(r)
    ensures Pesos(r.base12h) == r.base12h / 10000 && Pesos(r.base6h) == r.base6h / 10000
    ensures Pesos(r.extraHourRate * h) == h * (r.extraHourRate / 10000)
  {
    RoundExact(r.base12h / 10000, 10000);
    RoundExact(r.base6h / 10000, 10000);
    RoundExact(h * (r.extraHourRate / 10000), 10000);
    assert r.extraHourRate * h == (h * (r.extraHourRate / 10000)) * 10000;
  }

  /** A quantity of whole units is charged exactly. */
  lemma WholeSegment(kind: Kind, n: nat, p: CatalogPrices)
    ensures SegmentPesos(Segment(kind, 60 * n), p) == n * UnitPrice(kind, p)
  {
    RoundExact(n * UnitPrice(kind, p), 60);
    assert UnitPrice(kind, p) * (60 * n) == (n * UnitPrice(kind, p)) * 60;
  }

  lemma PackTotal(kind: Kind, n: nat, p: CatalogPrices)
    ensures Sum(SegmentTotals(PackSegment(kind, n), p)) == n * UnitPrice(kind, p)
  {
    WholeSegment(kind, n, p);
    if n > 0 {
      assert SegmentTotals(PackSegment(kind, n), p) == [] + [n * UnitPrice(kind, p)];
      SumConcat([], [n * UnitPrice(kind, p)]);
      assert Sum([n * UnitPrice(kind, p)]) == n * UnitPrice(kind, p);
    }
  }

  lemma TotalsConcat(a: seq<Segment>, b: seq<Segment>, p: CatalogPrices)
    ensures Sum(SegmentTotals(a + b, p)) == Sum(SegmentTotals(a, p)) + Sum(SegmentTotals(b, p))
  {
    assert SegmentTotals(a + b, p) == SegmentTotals(a, p) + SegmentTotals(b, p);
    SumConcat(SegmentTotals(a, p), SegmentTotals(b, p));
  }

  /** Loose whole hours cost their unit price each; hours without a price are not charged, and free anyway. */
  lemma LooseTotal(hours: nat, charged: bool, p: CatalogPrices)
    requires !charged ==> UnitPrice(Hour, p) == 0
    ensures Sum(SegmentTotals(LooseSegment(60 * hours, charged), p)) == hours * UnitPrice(Hour, p)
  {
    if charged {
      assert LooseSegment(60 * hours, charged) == PackSegment(Hour, hours);
      PackTotal(Hour, hours, p);
    } else {
      assert SegmentTotals(LooseSegment(60 * hours, charged), p) == [];
      assert hours * UnitPrice(Hour, p) == 0;
    }
  }

  lemma ThreeTotals(a: seq<Segment>, b: seq<Segment>, c: seq<Segment>, p: CatalogPrices, x: int, y: int, z: int)
    requires Sum(SegmentTotals(a, p)) == x && Sum(SegmentTotals(b, p)) == y && Sum(SegmentTotals(c, p)) == z
    ensures Sum(SegmentTotals(a + (b + c), p)) == x + y + z
  {
    TotalsConcat(a, b + c, p);
    TotalsConcat(b, c, p);
  }

  function Hours12(h: nat, twelve: bool): (n: nat)
    ensures 12 * n <= h
  {
    if twelve then h / 12 else 0
  }

  function Hours6(h: nat, twelve: bool, six: bool): (n: nat)
    ensures 12 * Hours12(h, twelve) + 6 * n <= h
  {
    if six then (h - 12 * Hours12(h, twelve)) / 6 else 0
  }

  function LooseHours(h: nat, twelve: bool, six: bool): nat {
    h - 12 * Hours12(h, twelve) - 6 * Hours6(h, twelve, six)
  }

  /** h hours at given prices of a twelve-hour pack, a six-hour pack and an hour. */
  function Charge(h: nat, twelve: bool, six: bool, u12: int, u6: int, u1: int): int {
    Hours12(h, twelve) * u12 + Hours6(h, twelve, six) * u6 + LooseHours(h, twelve, six) * u1
  }

  lemma DaySegmentsOfHours(h: nat, twelve: bool, six: bool, charged: bool)
    ensures DaySegments(60 * h, twelve, six, charged) ==
            PackSegment(H12, Hours12(h, twelve)) +
            (PackSegment(H6, Hours6(h, twelve, six)) + LooseSegment(60 * LooseHours(h, twelve, six), charged))
  {
    assert TwelvePacks(60 * h, twelve) == Hours12(h, twelve);
    assert SixPacks(60 * h - 720 * Hours12(h, twelve), six) == Hours6(h, twelve, six);
  }

  /** The total of the segments of some whole hours. */
  lemma DayTotal(h: nat, twelve: bool, six: bool, charged: bool, p: CatalogPrices)
    requires !charged ==> UnitPrice(Hour, p) == 0
    ensures Sum(SegmentTotals(DaySegments(60 * h, twelve, six, charged), p)) ==
            Charge(h, twelve, six, UnitPrice(H12, p), UnitPrice(H6, p), UnitPrice(Hour, p))
  {
    var n12, n6, n1 := Hours12(h, twelve), Hours6(h, twelve, six), LooseHours(h, twelve, six);
    DaySegmentsOfHours(h, twelve, six, charged);
    PackTotal(H12, n12, p);
    PackTotal(H6, n6, p);
    LooseTotal(n1, charged, p);
    ThreeTotals(PackSegment(H12, n12), PackSegment(H6, n6), LooseSegment(60 * n1, charged), p,
                n12 * UnitPrice(H12, p), n6 * UnitPrice(H6, p), n1 * UnitPrice(Hour, p));
  }

  /** Only unpriced loose time leaves a block without segments. */
  lemma EmptyDayIsUnpriced(h: nat, twelve: bool, six: bool, charged: bool)
    requires h > 0 && DaySegments(60 * h, twelve, six, charged) == []
    ensures !charged
  {
    DaySegmentsOfHours(h, twelve, six, charged);
    assert PackSegment(H12, Hours12(h, twelve)) == [] && PackSegment(H6, Hours6(h, twelve, six)) == [];
    assert LooseSegment(60 * LooseHours(h, twelve, six), charged) == [];
  }

  /** What the table makes of a list of segments: an hour at least. */
  function AtLeastAnHour(minutes: nat, segments: seq<Segment>): seq<Segment> {
    if segments == [] then [Segment(Hour, if minutes > 60 then minutes else 60)] else segments
  }

  /** The charge for a block, with some segments or with none. */
  lemma HoursTotal(h: nat, p: CatalogPrices, twelve: bool, six: bool, charged: bool)
    requires h > 0 && (!charged ==> UnitPrice(Hour, p) == 0)
    ensures Sum(SegmentTotals(AtLeastAnHour(60 * h, DaySegments(60 * h, twelve, six, charged)), p)) ==
            Charge(h, twelve, six, UnitPrice(H12, p), UnitPrice(H6, p), UnitPrice(Hour, p))
  {
    DayTotal(h, twelve, six, charged, p);
    if DaySegments(60 * h, twelve, six, charged) == [] {
      EmptyDayIsUnpriced(h, twelve, six, charged);
      PackTotal(Hour, h, p);
      assert AtLeastAnHour(60 * h, []) == PackSegment(Hour, h);
      assert h * UnitPrice(Hour, p) == 0;
    }
  }

  /** The segments of a block with a rule. */
  lemma SegmentsWithRule(minutes: nat, r: PricingRule)
    ensures SegmentsOf(minutes, Some(CatalogOf(r))) == AtLeastAnHour(minutes,
              if r.base12h > 0 || r.base6h > 0
                then DaySegments(minutes, r.base12h > 0, r.base6h > 0, r.extraHourRate > 0)
              else DaySegments(minutes, true, true, true))
  {
    NoLongPackages(minutes, r);
  }

  /** The unit prices of a rule in whole pesos. */
  lemma WholeUnitPrices(r: PricingRule)
    requires WholePesos(r)
    ensures
      var p, x1 := CatalogOf(r), r.extraHourRate / 10000;
      && UnitPrice(Hour, p) == x1
      && (r.base6h > 0 ==> UnitPrice(H6, p) == r.base6h / 10000)
      && (r.base12h > 0 ==> UnitPrice(H12, p) == r.base12h / 10000)
      && (r.base6h == 0 ==> UnitPrice(H6, p) == 6 * x1)
      && (r.base6h == 0 && r.base12h == 0 ==> UnitPrice(H12, p) == 12 * x1)
  {
    WholeUnits(1, r);
    WholeUnits(6, r);
    WholeUnits(12, r);
  }

  lemma ByTheHour(h: nat, x: int)
    ensures Charge(h, true, true, 12 * x, 6 * x, x) == h * x
  {
    var a, b, c := Hours12(h, true), Hours6(h, true, true), LooseHours(h, true, true);
    assert (12 * a + 6 * b + c) * x == a * (12 * x) + b * (6 * x) + c * x;
  }

  /** A pack that is not offered costs nothing, whatever its unit price. */
  lemma UnofferedPacks(h: nat, twelve: bool, six: bool, u12: int, u6: int, v12: int, v6: int, u1: int)
    requires (twelve ==> u12 == v12) && (six ==> u6 == v6)
    ensures Charge(h, twelve, six, u12, u6, u1) == Charge(h, twelve, six, v12, v6, u1)
  {
  }

  lemma TableChargesWholePesos(h: nat, r: PricingRule)
    requires h > 0 && WholePesos(r)
    ensures BlockPesos(60 * h, CatalogOf(r)) == HoursPesos(h, r)
  {
    var p, x12, x6, x1 := CatalogOf(r), r.base12h / 10000, r.base6h / 10000, r.extraHourRate / 10000;
    var twelve, six := r.base12h > 0, r.base6h > 0;
    WholeUnitPrices(r);
    SegmentsWithRule(60 * h, r);
    if twelve || six {
      HoursTotal(h, p, twelve, six, r.extraHourRate > 0);
      UnofferedPacks(h, twelve, six, UnitPrice(H12, p), UnitPrice(H6, p), x12, x6, x1);
    } else {
      HoursTotal(h, p, true, true, true);
      ByTheHour(h, x1);
    }
    assert HoursPesos(h, r) == Charge(h, twelve, six, x12, x6, x1);
  }

  /** A space with a rule has no monthly and no weekly price. */
  lemma NoLongPackages(minutes: nat, r: PricingRule)
    ensures PackageSegments(minutes, CatalogOf(r)) ==
            DaySegments(minutes, r.base12h > 0, r.base6h > 0, r.extraHourRate > 0)
  {
    var p := CatalogOf(r);
    assert Months(minutes, p) == 0 && Weeks(minutes, p) == 0;
    assert PackSegment(Month, 0) == [] && PackSegment(Week, 0) == [];
  }

  /** The wizard and the table charge the same for every block of whole hours of a day. */
  predicate SameForHours(h: nat, r: PricingRule) {
    PackageCents(100 * h, r) == 100 * BlockPesos(60 * h, CatalogOf(r))
  }
}
