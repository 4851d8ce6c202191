/** What the rows of the "Detalle de Espacios" table say of the cart: the hours, prices and dates they show. */
module TableFacts {
  import opened Common
  import opened Lists
  import opened Rounding
  import opened Blocks
  import opened Packages
  import opened Wizard
  import opened OrderBlocks
  import opened OrderTable

  // ----- The segments of a block -----

  /** What is left below a pack is less than one more of it, or the pack is not offered and not used. */
  predicate Filled(n: nat, offered: bool, size: nat, below: nat) {
    if offered then below < size else n == 0
  }

  /** m months, w weeks, a twelve-hour packs, b six-hour packs and the loose rest make up the minutes, each pack
      taken as often as it fits, months at most eleven times. */
  predicate Greedy(minutes: nat, m: nat, w: nat, a: nat, b: nat, rest: nat, month: bool, week: bool, twelve: bool,
                   six: bool)
  {
    && 43200 * m + 7200 * w + 720 * a + 360 * b + rest == minutes
    && m <= 11 && (m == 11 || Filled(m, month, 43200, 7200 * w + 720 * a + 360 * b + rest))
    && Filled(w, week, 7200, 720 * a + 360 * b + rest)
    && Filled(a, twelve, 720, 360 * b + rest)
    && Filled(b, six, 360, rest)
  }

  /** The packs and the rest as segments, those that are none left out. */
  function Listed(m: nat, w: nat, a: nat, b: nat, rest: nat): seq<Segment> {
    (if m > 0 then [Segment(Month, 60 * m)] else []) + ((if w > 0 then [Segment(Week, 60 * w)] else []) +
    ((if a > 0 then [Segment(H12, 60 * a)] else []) + ((if b > 0 then [Segment(H6, 60 * b)] else []) +
    (if rest > 0 then [Segment(Hour, rest)] else []))))
  }

  lemma DaysAreGreedy(minutes: nat, twelve: bool, six: bool, charged: bool) returns (a: nat, b: nat, rest: nat)
    ensures 720 * a + 360 * b + rest == minutes && Filled(a, twelve, 720, 360 * b + rest) && Filled(b, six, 360, rest)
    ensures DaySegments(minutes, twelve, six, charged) == Listed(0, 0, a, b, if charged then rest else 0)
  {
    a := TwelvePacks(minutes, twelve);
    b := SixPacks(minutes - 720 * a, six);
    rest := minutes - 720 * a - 360 * b;
  }

  lemma MonthsAreGreedy(minutes: nat, p: CatalogPrices)
    ensures
      var m, w, left := Months(minutes, p), Weeks(minutes, p), Remainder(minutes, p);
      && 43200 * m + 7200 * w + left == minutes && m <= 11
      && (m == 11 || Filled(m, p.mes > 0, 43200, 7200 * w + left)) && Filled(w, p.semana > 0, 7200, left)
  {
  }

  lemma PackagesAreGreedy(minutes: nat, p: CatalogPrices) returns (m: nat, w: nat, a: nat, b: nat, rest: nat)
    ensures Greedy(minutes, m, w, a, b, rest, p.mes > 0, p.semana > 0, p.doceHoras > 0, p.seisHoras > 0)
    ensures PackageSegments(minutes, p) == Listed(m, w, a, b, if p.porHora > 0 then rest else 0)
  {
    m, w := Months(minutes, p), Weeks(minutes, p);
    MonthsAreGreedy(minutes, p);
    a, b, rest := DaysAreGreedy(Remainder(minutes, p), p.doceHoras > 0, p.seisHoras > 0, p.porHora > 0);
    LongerList(m, w, a, b, if p.porHora > 0 then rest else 0);
  }

  lemma LongerList(m: nat, w: nat, a: nat, b: nat, rest: nat)
    ensures Listed(m, w, a, b, rest) ==
            PackSegment(Month, m) + (PackSegment(Week, w) + Listed(0, 0, a, b, rest))
  {
    assert [] + ([] + Listed(0, 0, a, b, rest)) == Listed(0, 0, a, b, rest);
  }

  lemma TimesAreGreedy(minutes: nat) returns (a: nat, b: nat, rest: nat)
    ensures Greedy(minutes, 0, 0, a, b, rest, false, false, true, true)
    ensures TimeSegments(minutes) == Listed(0, 0, a, b, rest)
  {
    a, b, rest := DaysAreGreedy(minutes, true, true, true);
  }

  /** Where packs of hours have a price, a block is the greedy packs of the catalog, with the loose rest if hours
      have one, and an hour or more when that would be none. */
  lemma SegmentsByPackages(minutes: nat, p: CatalogPrices) returns (m: nat, w: nat, a: nat, b: nat, rest: nat)
    requires p.doceHoras > 0 || p.seisHoras > 0
    ensures Greedy(minutes, m, w, a, b, rest, p.mes > 0, p.semana > 0, p.doceHoras > 0, p.seisHoras > 0)
    ensures
      var listed := Listed(m, w, a, b, if p.porHora > 0 then rest else 0);
      SegmentsOf(minutes, Some(p)) ==
      if listed == [] then [Segment(Hour, if minutes > 60 then minutes else 60)] else listed
  {
    m, w, a, b, rest := PackagesAreGreedy(minutes, p);
  }

  /** Elsewhere it is the twelve and six hours that fit and the rest, and an hour when it has no length. */
  lemma SegmentsByTime(minutes: nat, prices: Option<CatalogPrices>) returns (a: nat, b: nat, rest: nat)
    requires prices.Some? ==> prices.value.doceHoras == 0 && prices.value.seisHoras == 0
    ensures Greedy(minutes, 0, 0, a, b, rest, false, false, true, true)
    ensures SegmentsOf(minutes, prices) == if minutes == 0 then [Segment(Hour, 60)] else Listed(0, 0, a, b, rest)
  {
    a, b, rest := TimesAreGreedy(minutes);
    NoTimeNoSegments(minutes);
    ByTime(minutes, prices);
  }

  lemma ByTime(minutes: nat, prices: Option<CatalogPrices>)
    requires prices.Some? ==> prices.value.doceHoras == 0 && prices.value.seisHoras == 0
    ensures SegmentsOf(minutes, prices) == AtLeastAnHour(minutes, TimeSegments(minutes))
  {
  }

  lemma NoTimeNoSegments(minutes: nat)
    ensures TimeSegments(minutes) == [] <==> minutes == 0
  {
    DaysAccountForAllTime(minutes, true, true);
    assert TimeSegments(0) == [];
  }

  /** The unit price is the nearest peso to the catalog's price of the unit, or, where it has none, to the price of
      its hours in six-hour packs or by the hour. */
  lemma UnitPriceIsNearest(kind: Kind, p: CatalogPrices)
    ensures
      var ticks := match kind
        case Month => if p.mes > 0 then p.mes else 720 * p.porHora
        case Week => if p.semana > 0 then p.semana else 120 * p.porHora
        case H12 => if p.doceHoras > 0 then p.doceHoras else if p.seisHoras > 0 then 2 * p.seisHoras else 12 * p.porHora
        case H6 => if p.seisHoras > 0 then p.seisHoras else 6 * p.porHora
        case Hour => p.porHora;
      Nearest(UnitPrice(kind, p), ticks, 10000)
  {
    var ticks := match kind
      case Month => if p.mes > 0 then p.mes else 720 * p.porHora
      case Week => if p.semana > 0 then p.semana else 120 * p.porHora
      case H12 => if p.doceHoras > 0 then p.doceHoras else if p.seisHoras > 0 then 2 * p.seisHoras else 12 * p.porHora
      case H6 => if p.seisHoras > 0 then p.seisHoras else 6 * p.porHora
      case Hour => p.porHora;
    RoundIsNearest(ticks, 10000);
  }

  /** The charge of a priced segment is the nearest peso to its quantity at the unit price. */
  lemma SegmentPesosIsNearest(s: Segment, p: CatalogPrices)
    ensures Nearest(SegmentPesos(s, p), UnitPrice(s.kind, p) * s.qty, 60)
  {
    RoundIsNearest(UnitPrice(s.kind, p) * s.qty, 60);
  }

  // ----- Quantities -----

  /** The quantity of a segment's row, in hundredths of a unit, is the nearest to its sixtieths. */
  lemma SegmentQtyIsNearest(space: Id, fecha: int, s: Segment, total: int, prices: Option<CatalogPrices>)
    ensures Nearest(SegmentRow(space, fecha, s, total, prices).qty, 100 * s.qty, 60)
  {
    RoundIsNearest(s.qty * 100, 60);
  }

  /** The hours a row shows, in hundredths: its quantity times the hours of a unit of its kind. */
  function RowHours(r: OrderRow): int {
    MinutesPer(r.id.kind) * r.qty
  }

  function HoursShown(rows: seq<OrderRow>): int {
    Sum(MapSeq(RowHours, rows))
  }

  ghost predicate WholeUnits(segments: seq<Segment>) {
    forall i | 0 <= i < |segments| :: segments[i].qty % 60 == 0
  }

  lemma WholeQty(qty: nat)
    requires qty % 60 == 0
    ensures 60 * RoundHalfEven(qty * 100, 60) == 100 * qty
  {
    RoundExact(100 * (qty / 60), 60);
    assert qty * 100 == 100 * (qty / 60) * 60;
  }

  lemma HoursOfUnits(per: nat, hundredths: int, qty: nat)
    requires 60 * hundredths == 100 * qty
    ensures 60 * (per * hundredths) == 100 * (per * qty)
  {
    assert 60 * (per * hundredths) == per * (60 * hundredths);
    assert 100 * (per * qty) == per * (100 * qty);
  }

  lemma {:induction false} SegmentHours(
    space: Id, fecha: int, segments: seq<Segment>, totals: seq<int>, prices: Option<CatalogPrices>
  )
    requires |segments| == |totals| && WholeUnits(segments)
    ensures 60 * HoursShown(SegmentRows(space, fecha, segments, totals, prices)) == 100 * TimeOf(segments)
    decreases |segments|
  {
    if segments != [] {
      var n := |segments| - 1;
      SegmentHours(space, fecha, segments[..n], totals[..n], prices);
      WholeQty(segments[n].qty);
      HoursOfUnits(MinutesPer(segments[n].kind), RoundHalfEven(segments[n].qty * 100, 60), segments[n].qty);
      SumMapAppend(RowHours, SegmentRows(space, fecha, segments[..n], totals[..n], prices),
                   SegmentRow(space, fecha, segments[n], totals[n], prices));
    }
  }

  /** The segments of a space cover all the time of its blocks: it has no prices, or a price by the hour, or no
      packs of hours. */
  predicate ChargesAllTime(prices: Option<CatalogPrices>) {
    prices.Some? ==> prices.value.porHora > 0 || (prices.value.doceHoras == 0 && prices.value.seisHoras == 0)
  }

  lemma AllTimeCharged(minutes: nat, prices: Option<CatalogPrices>)
    requires minutes > 0 && ChargesAllTime(prices)
    ensures TimeOf(SegmentsOf(minutes, prices)) == minutes
  {
    if prices.Some? && (prices.value.doceHoras > 0 || prices.value.seisHoras > 0) {
      PackagesAccountForAllTime(minutes, prices.value);
    } else {
      DaysAccountForAllTime(minutes, true, true);
    }
  }

  lemma WholeConcat(a: seq<Segment>, b: seq<Segment>)
    requires WholeUnits(a) && WholeUnits(b)
    ensures WholeUnits(a + b)
  {
  }

  lemma WholeDays(minutes: nat, twelve: bool, six: bool, charged: bool)
    requires minutes % 60 == 0
    ensures WholeUnits(DaySegments(minutes, twelve, six, charged))
  {
    var n12 := TwelvePacks(minutes, twelve);
    var n6 := SixPacks(minutes - 720 * n12, six);
    var rest := minutes - 720 * n12 - 360 * n6;
    assert rest == 60 * (minutes / 60 - 12 * n12 - 6 * n6);
    WholeConcat(PackSegment(H6, n6), LooseSegment(rest, charged));
    WholeConcat(PackSegment(H12, n12), PackSegment(H6, n6) + LooseSegment(rest, charged));
  }

  lemma WholePackages(minutes: nat, p: CatalogPrices)
    requires minutes % 60 == 0
    ensures WholeUnits(PackageSegments(minutes, p))
  {
    var m, w, left := Months(minutes, p), Weeks(minutes, p), Remainder(minutes, p);
    assert left == 60 * (minutes / 60 - 720 * m - 120 * w);
    WholeDays(left, p.doceHoras > 0, p.seisHoras > 0, p.porHora > 0);
    WholeConcat(PackSegment(Week, w), DaySegments(left, p.doceHoras > 0, p.seisHoras > 0, p.porHora > 0));
    WholeConcat(PackSegment(Month, m),
                PackSegment(Week, w) + DaySegments(left, p.doceHoras > 0, p.seisHoras > 0, p.porHora > 0));
  }

  lemma WholeSegments(minutes: nat, prices: Option<CatalogPrices>)
    requires minutes % 60 == 0
    ensures WholeUnits(SegmentsOf(minutes, prices))
  {
    if prices.Some? { WholePackages(minutes, prices.value); }
    WholeDays(minutes, true, true, true);
  }

  /** The minutes of a block. */
  function MinutesOfBlock(b: TableBlock): int {
    BlockMinutes(b.iv)
  }

  ghost predicate HourBlocks(blocks: seq<TableBlock>) {
    forall i | 0 <= i < |blocks| :: HourLong(blocks[i].iv)
  }

  lemma BlockHours(space: Id, b: TableBlock, prices: Option<CatalogPrices>)
    requires HourLong(b.iv) && ChargesAllTime(prices)
    ensures 60 * HoursShown(BlockRows(space, b, prices)) == 100 * MinutesOfBlock(b)
  {
    var segments := SegmentsOf(BlockMinutes(b.iv), prices);
    WholeSegments(BlockMinutes(b.iv), prices);
    AllTimeCharged(BlockMinutes(b.iv), prices);
    SegmentHours(space, b.fecha, segments, ChargesOf(b, segments, prices), prices);
  }

  lemma HoursOfLast(space: Id, blocks: seq<TableBlock>, prices: Option<CatalogPrices>)
    requires blocks != []
    ensures
      var n := |blocks| - 1;
      HoursShown(AllSegments(space, blocks, prices)) ==
      HoursShown(AllSegments(space, blocks[..n], prices)) + HoursShown(BlockRows(space, blocks[n], prices))
  {
    var n := |blocks| - 1;
    SumMapConcat(RowHours, AllSegments(space, blocks[..n], prices), BlockRows(space, blocks[n], prices));
  }

  lemma MinutesOfLast(blocks: seq<TableBlock>)
    requires blocks != []
    ensures
      var n := |blocks| - 1;
      Sum(MapSeq(MinutesOfBlock, blocks)) == Sum(MapSeq(MinutesOfBlock, blocks[..n])) + MinutesOfBlock(blocks[n])
  {
    var n := |blocks| - 1;
    SumMapAppend(MinutesOfBlock, blocks[..n], blocks[n]);
    assert blocks == blocks[..n] + [blocks[n]];
  }

  lemma {:induction false} AllBlockHours(space: Id, blocks: seq<TableBlock>, prices: Option<CatalogPrices>)
    requires HourBlocks(blocks) && ChargesAllTime(prices)
    ensures 60 * HoursShown(AllSegments(space, blocks, prices)) == 100 * Sum(MapSeq(MinutesOfBlock, blocks))
    decreases |blocks|
  {
    if blocks != [] {
      var n := |blocks| - 1;
      AllBlockHours(space, blocks[..n], prices);
      BlockHours(space, blocks[n], prices);
      HoursOfLast(space, blocks, prices);
      MinutesOfLast(blocks);
    } else {
      assert MapSeq(RowHours, AllSegments(space, blocks, prices)) == [];
    }
  }

  // ----- From segments to rows -----

  function ByRow(r: OrderRow): OrderRow -> bool {
    HasId(r.id)
  }

  lemma SegmentsHaveRows(rows: seq<OrderRow>, segments: seq<OrderRow>)
    requires Aggregates(rows, segments) && DistinctIds(rows)
    ensures Parted(ByRow, segments, rows)
  {
    forall s | s in segments
      ensures HasPart(ByRow, rows, s)
    {
      assert HasRow(rows, s.id);
      var r :| r in rows && r.id == s.id;
      var i: nat :| i < |rows| && rows[i] == r;
      assert OnlyPart(ByRow, rows, s, i);
    }
  }

  lemma Scaled(per: int, a: int, b: int)
    ensures per * a + per * b == per * (a + b)
  {
  }

  lemma {:induction false} HoursOfOwn(own: seq<OrderRow>, k: RowId)
    requires forall s | s in own :: s.id == k
    ensures HoursShown(own) == MinutesPer(k.kind) * Sum(MapSeq(RowQty, own))
    decreases |own|
  {
    if own != [] {
      var n := |own| - 1;
      HoursOfOwn(own[..n], k);
      assert own == own[..n] + [own[n]];
      SumMapAppend(RowHours, own[..n], own[n]);
      SumMapAppend(RowQty, own[..n], own[n]);
      Scaled(MinutesPer(k.kind), Sum(MapSeq(RowQty, own[..n])), own[n].qty);
    } else {
      assert MapSeq(RowHours, own) == [] && MapSeq(RowQty, own) == [];
    }
  }

  lemma OwnHaveId(segments: seq<OrderRow>, k: RowId)
    ensures forall s | s in Own(segments, k) :: s in segments && s.id == k
  {
    forall s | s in Own(segments, k)
      ensures s in segments && s.id == k
    {
      FilterMembers(HasId(k), segments, s);
    }
  }

  /** The rows show the hours of the segments they aggregate. */
  lemma RowsShowHours(rows: seq<OrderRow>, segments: seq<OrderRow>)
    requires Aggregates(rows, segments) && DistinctIds(rows)
    ensures HoursShown(rows) == HoursShown(segments)
  {
    SegmentsHaveRows(rows, segments);
    SumOfParts(RowHours, ByRow, segments, rows);
    forall i | 0 <= i < |rows|
      ensures RowHours(rows[i]) == PartSum(RowHours, ByRow, segments)(rows[i])
    {
      assert RowOf(rows[i], Own(segments, rows[i].id));
      OwnHaveId(segments, rows[i].id);
      HoursOfOwn(Own(segments, rows[i].id), rows[i].id);
    }
    assert MapSeq(RowHours, rows) == MapSeq(PartSum(RowHours, ByRow, segments), rows);
  }

  // ----- From blocks to slots -----

  function ItemMinutes(it: CartItem): int {
    Length(it.iv)
  }

  function CartMinutes(items: seq<CartItem>): int {
    Sum(MapSeq(ItemMinutes, items))
  }

  predicate HourItems(items: seq<CartItem>) {
    forall i | 0 <= i < |items| :: HourLong(items[i].iv)
  }

  /** The blocks of a date are as long as its slots. */
  lemma DayMinutes(day: seq<TableBlock>, d: int, items: seq<CartItem>)
    requires IsDay(day, d, items) && HourItems(items)
    ensures HourBlocks(day) && Sum(MapSeq(MinutesOfBlock, day)) == CartMinutes(items)
  {
    var ivs := MapSeq(ItemIv, items);
    BlocksKeepHours(ivs);
    BlocksKeepLength(ivs);
    assert forall i | 0 <= i < |day| :: day[i].iv == BlocksOf(ivs)[i];
    assert MapSeq(MinutesOfBlock, day) == Lengths(BlocksOf(ivs));
    assert Lengths(ivs) == MapSeq(ItemMinutes, items);
  }

  lemma DateBlocks(blocks: seq<TableBlock>, items: seq<CartItem>, d: int)
    requires HasDay(blocks, items, d) && HourItems(items)
    ensures HourBlocks(FilterSeq(OfDate(d), blocks))
    ensures PartSum(MinutesOfBlock, OfDate, blocks)(d) == PartSum(ItemMinutes, OnDate, items)(d)
  {
    var day :| IsDay(day, d, DateItems(items, d)) && multiset(FilterSeq(OfDate(d), blocks)) == multiset(day);
    forall i | 0 <= i < |DateItems(items, d)|
      ensures HourLong(DateItems(items, d)[i].iv)
    {
      FilterMembers(OnDate(d), items, DateItems(items, d)[i]);
    }
    DayMinutes(day, d, DateItems(items, d));
    SumMapPermutation(MinutesOfBlock, FilterSeq(OfDate(d), blocks), day);
    forall i | 0 <= i < |FilterSeq(OfDate(d), blocks)|
      ensures HourLong(FilterSeq(OfDate(d), blocks)[i].iv)
    {
      assert FilterSeq(OfDate(d), blocks)[i] in multiset(day);
    }
  }

  /** The dates of the slots, once each. */
  lemma {:induction false} DateList(items: seq<CartItem>) returns (dates: seq<int>)
    ensures forall i | 0 <= i < |items| :: items[i].fecha in dates
    ensures forall d | d in dates :: d in Dates(items)
    ensures forall i, j | 0 <= i < j < |dates| :: dates[i] != dates[j]
    decreases |items|
  {
    dates := [];
    if items != [] {
      var n := |items| - 1;
      dates := DateList(items[..n]);
      DatesStep(items, n);
      assert items[..n + 1] == items;
      if items[n].fecha !in dates { dates := dates + [items[n].fecha]; }
    }
  }

  lemma BlocksByDate(blocks: seq<TableBlock>, dates: seq<int>)
    requires forall i | 0 <= i < |blocks| :: blocks[i].fecha in dates
    requires forall i, j | 0 <= i < j < |dates| :: dates[i] != dates[j]
    ensures Parted(OfDate, blocks, dates)
  {
    forall b | b in blocks
      ensures HasPart(OfDate, dates, b)
    {
      var i: nat :| i < |dates| && dates[i] == b.fecha;
      assert OnlyPart(OfDate, dates, b, i);
    }
  }

  lemma ItemsByDate(items: seq<CartItem>, dates: seq<int>)
    requires forall i | 0 <= i < |items| :: items[i].fecha in dates
    requires forall i, j | 0 <= i < j < |dates| :: dates[i] != dates[j]
    ensures Parted(OnDate, items, dates)
  {
    forall it | it in items
      ensures HasPart(OnDate, dates, it)
    {
      var i: nat :| i < |dates| && dates[i] == it.fecha;
      assert OnlyPart(OnDate, dates, it, i);
    }
  }

  lemma AllHourBlocks(blocks: seq<TableBlock>, items: seq<CartItem>)
    requires MergesDates(blocks, items) && HourItems(items)
    ensures HourBlocks(blocks)
  {
    forall i | 0 <= i < |blocks|
      ensures HourLong(blocks[i].iv)
    {
      var d := blocks[i].fecha;
      assert HasDay(blocks, items, d);
      DateBlocks(blocks, items, d);
      FilterMembers(OfDate(d), blocks, blocks[i]);
    }
  }

  lemma DatesAgree(blocks: seq<TableBlock>, items: seq<CartItem>, dates: seq<int>)
    requires MergesDates(blocks, items) && HourItems(items) && forall d | d in dates :: d in Dates(items)
    ensures Sum(MapSeq(PartSum(MinutesOfBlock, OfDate, blocks), dates)) ==
            Sum(MapSeq(PartSum(ItemMinutes, OnDate, items), dates))
  {
    forall i | 0 <= i < |dates|
      ensures PartSum(MinutesOfBlock, OfDate, blocks)(dates[i]) == PartSum(ItemMinutes, OnDate, items)(dates[i])
    {
      assert HasDay(blocks, items, dates[i]);
      DateBlocks(blocks, items, dates[i]);
    }
    SameValues(PartSum(MinutesOfBlock, OfDate, blocks), PartSum(ItemMinutes, OnDate, items), dates);
  }

  lemma BlockDates(blocks: seq<TableBlock>, items: seq<CartItem>, dates: seq<int>)
    requires MergesDates(blocks, items) && forall i | 0 <= i < |items| :: items[i].fecha in dates
    ensures forall i | 0 <= i < |blocks| :: blocks[i].fecha in dates
  {
    forall i | 0 <= i < |blocks|
      ensures blocks[i].fecha in dates
    {
      var j :| 0 <= j < |items| && items[j].fecha == blocks[i].fecha;
    }
  }

  /** The blocks of a space are as long as its slots. */
  lemma BlockMinutesAreSlotMinutes(blocks: seq<TableBlock>, items: seq<CartItem>)
    requires MergesDates(blocks, items) && HourItems(items)
    ensures Sum(MapSeq(MinutesOfBlock, blocks)) == CartMinutes(items)
  {
    var dates := DateList(items);
    BlockDates(blocks, items, dates);
    BlocksByDate(blocks, dates);
    ItemsByDate(items, dates);
    SumOfParts(MinutesOfBlock, OfDate, blocks, dates);
    SumOfParts(ItemMinutes, OnDate, items, dates);
    DatesAgree(blocks, items, dates);
  }

  /** The table of a space shows exactly the hours of its slots. */
  lemma SpaceTableShowsHours(out: seq<OrderRow>, space: Id, items: seq<CartItem>, prices: Option<CatalogPrices>)
    requires IsSpaceTable(out, space, items, prices) && HourItems(items) && ChargesAllTime(prices)
    ensures 60 * HoursShown(out) == 100 * CartMinutes(items)
  {
    var blocks :| MergesDates(blocks, items) && SortedBy(BlockKey, blocks) &&
      Aggregates(out, AllSegments(space, blocks, prices));
    AllHourBlocks(blocks, items);
    BlockMinutesAreSlotMinutes(blocks, items);
    AllBlockHours(space, blocks, prices);
    RowsShowHours(out, AllSegments(space, blocks, prices));
  }

  // ----- Dates and prices -----

  lemma {:induction false} RowOfSegment(
    space: Id, fecha: int, segments: seq<Segment>, totals: seq<int>, prices: Option<CatalogPrices>, r: OrderRow
  )
    returns (i: nat)
    requires |segments| == |totals| && r in SegmentRows(space, fecha, segments, totals, prices)
    ensures i < |segments| && r == SegmentRow(space, fecha, segments[i], totals[i], prices)
    decreases |segments|
  {
    var n := |segments| - 1;
    if r in SegmentRows(space, fecha, segments[..n], totals[..n], prices) {
      i := RowOfSegment(space, fecha, segments[..n], totals[..n], prices, r);
    } else {
      i := n;
    }
  }

  lemma {:induction false} RowOfBlock(space: Id, blocks: seq<TableBlock>, prices: Option<CatalogPrices>, r: OrderRow)
    returns (i: nat)
    requires r in AllSegments(space, blocks, prices)
    ensures i < |blocks| && r in BlockRows(space, blocks[i], prices)
    decreases |blocks|
  {
    var n := |blocks| - 1;
    if r in AllSegments(space, blocks[..n], prices) {
      i := RowOfBlock(space, blocks[..n], prices, r);
    } else {
      i := n;
    }
  }

  /** An hourly row is of the one date it shows; a row of packs is of no date and shows the first one. */
  predicate Dated(r: OrderRow) {
    r.id.fecha == if r.id.kind == Hour then Some(r.firstDate) else None
  }

  /** The unit price is that of the catalog for the kind, and unit price times quantity is the total. */
  predicate Priced(r: OrderRow, p: CatalogPrices) {
    r.unit == r.id.unit == UnitPrice(r.id.kind, p) && 100 * r.total == r.unit * r.qty
  }

  /** The unit price is the nearest peso to the mean of the total over the quantity. */
  predicate MeanPriced(r: OrderRow) {
    r.qty > 0 && Nearest(r.unit, 100 * r.total, r.qty)
  }

  lemma SegmentIsDated(space: Id, blocks: seq<TableBlock>, prices: Option<CatalogPrices>, r: OrderRow)
    requires r in AllSegments(space, blocks, prices)
    ensures Dated(r) && exists i :: 0 <= i < |blocks| && blocks[i].fecha == r.firstDate
  {
    var b := RowOfBlock(space, blocks, prices, r);
    var segments := SegmentsOf(BlockMinutes(blocks[b].iv), prices);
    var i := RowOfSegment(space, blocks[b].fecha, segments, ChargesOf(blocks[b], segments, prices), prices, r);
  }

  lemma WholeTotal(unit: int, qty: nat)
    requires qty % 60 == 0
    ensures 100 * RoundHalfEven(unit * qty, 60) == unit * RoundHalfEven(qty * 100, 60)
  {
    var n := qty / 60;
    RoundExact(unit * n, 60);
    RoundExact(100 * n, 60);
    assert unit * qty == unit * n * 60 && qty * 100 == 100 * n * 60;
    assert 100 * (unit * n) == unit * (100 * n);
  }

  lemma SegmentIsPriced(space: Id, blocks: seq<TableBlock>, p: CatalogPrices, r: OrderRow)
    requires HourBlocks(blocks) && r in AllSegments(space, blocks, Some(p))
    ensures Priced(r, p)
  {
    var b := RowOfBlock(space, blocks, Some(p), r);
    var segments := SegmentsOf(BlockMinutes(blocks[b].iv), Some(p));
    var i := RowOfSegment(space, blocks[b].fecha, segments, ChargesOf(blocks[b], segments, Some(p)), Some(p), r);
    WholeSegments(BlockMinutes(blocks[b].iv), Some(p));
    WholeTotal(UnitPrice(segments[i].kind, p), segments[i].qty);
  }

  lemma MeanOf(r: OrderRow)
    requires r.qty > 0 && r.unit == RoundHalfEven(r.total * 100, r.qty)
    ensures MeanPriced(r)
  {
    RoundIsNearest(r.total * 100, r.qty);
  }

  lemma SegmentIsMeanPriced(space: Id, blocks: seq<TableBlock>, r: OrderRow)
    requires r in AllSegments(space, blocks, None) && r.qty > 0
    ensures MeanPriced(r)
  {
    var b := RowOfBlock(space, blocks, None, r);
    var segments := SegmentsOf(BlockMinutes(blocks[b].iv), None);
    var i := RowOfSegment(space, blocks[b].fecha, segments, ChargesOf(blocks[b], segments, None), None, r);
    MeanOf(r);
  }

  lemma {:induction false} OwnTotals(own: seq<OrderRow>, unit: int)
    requires forall s | s in own :: 100 * s.total == unit * s.qty
    ensures 100 * Sum(MapSeq(RowTotal, own)) == unit * Sum(MapSeq(RowQty, own))
    decreases |own|
  {
    if own != [] {
      var n := |own| - 1;
      OwnTotals(own[..n], unit);
      assert own == own[..n] + [own[n]];
      SumMapAppend(RowTotal, own[..n], own[n]);
      SumMapAppend(RowQty, own[..n], own[n]);
      Distribute(Sum(MapSeq(RowQty, own[..n])), own[n].qty, unit);
    }
  }

  /** A row is dated as its segments are. */
  lemma RowIsDated(r: OrderRow, own: seq<OrderRow>)
    requires RowOf(r, own) && forall s | s in own :: s.id == r.id && Dated(s)
    ensures Dated(r) && exists s :: s in own && s.firstDate == r.firstDate
  {
    var i :| 0 <= i < |own| && r.firstDate == own[i].firstDate;
    assert own[i] in own;
  }

  /** A row is priced as its segments are. */
  lemma RowIsPriced(r: OrderRow, own: seq<OrderRow>, p: CatalogPrices)
    requires RowOf(r, own) && forall s | s in own :: s.id == r.id && Priced(s, p)
    ensures Priced(r, p)
  {
    assert own[0] in own;
    OwnTotals(own, r.id.unit);
    if |own| > 1 { RoundExact(r.id.unit, r.qty); }
  }

  lemma RowIsMeanPriced(r: OrderRow, own: seq<OrderRow>)
    requires RowOf(r, own) && forall s | s in own :: s.qty > 0 ==> MeanPriced(s)
    ensures MeanPriced(r)
  {
    if |own| == 1 {
      assert own == [own[0]] && own[0] in own;
      SumMapOne(RowQty, own[0]);
      SumMapOne(RowTotal, own[0]);
    } else {
      MeanOf(r);
    }
  }

  /** What the rows of a space show besides its hours: dates of its slots, each hourly row a single one; for slots
      of whole hours of a priced space, exact totals at the catalog's unit prices; without prices the mean. */
  lemma SpaceTableReads(
    out: seq<OrderRow>, space: Id, items: seq<CartItem>, prices: Option<CatalogPrices>, r: OrderRow
  )
    requires IsSpaceTable(out, space, items, prices) && r in out
    ensures r.id.space == space && Dated(r) && r.firstDate in Dates(items)
    ensures prices.Some? && HourItems(items) ==> Priced(r, prices.value)
    ensures prices.None? ==> MeanPriced(r)
  {
    var blocks :| MergesDates(blocks, items) && SortedBy(BlockKey, blocks) &&
      Aggregates(out, AllSegments(space, blocks, prices));
    var own := Own(AllSegments(space, blocks, prices), r.id);
    OwnHaveId(AllSegments(space, blocks, prices), r.id);
    forall s | s in own
      ensures Dated(s) && s.firstDate in Dates(items)
    {
      SegmentIsDated(space, blocks, prices, s);
    }
    RowIsDated(r, own);
    if prices.Some? && HourItems(items) {
      AllHourBlocks(blocks, items);
      forall s | s in own
        ensures Priced(s, prices.value)
      {
        SegmentIsPriced(space, blocks, prices.value, s);
      }
      RowIsPriced(r, own, prices.value);
    }
    if prices.None? {
      forall s | s in own && s.qty > 0
        ensures MeanPriced(s)
      {
        SegmentIsMeanPriced(space, blocks, s);
      }
      RowIsMeanPriced(r, own);
    }
  }

  const KINDS := [Month, Week, H12, H6, Hour]

  /** Shown by first date, and on one date the longer packs first. */
  ghost predicate ShownBefore(a: OrderRow, b: OrderRow) {
    a.firstDate < b.firstDate ||
    (a.firstDate == b.firstDate &&
     exists i, j :: 0 <= i <= j < |KINDS| && KINDS[i] == a.id.kind && KINDS[j] == b.id.kind)
  }

  lemma RankIsPlace(kind: Kind)
    ensures Rank(kind) < |KINDS| && KINDS[Rank(kind)] == kind
  {
  }

  /** The rows of a space are shown in this order. */
  lemma SpaceTableInOrder(
    out: seq<OrderRow>, space: Id, items: seq<CartItem>, prices: Option<CatalogPrices>, i: nat, j: nat
  )
    requires IsSpaceTable(out, space, items, prices) && i < j < |out|
    ensures ShownBefore(out[i], out[j])
  {
    assert DisplayKey(out[i]) <= DisplayKey(out[j]);
    RankIsPlace(out[i].id.kind);
    RankIsPlace(out[j].id.kind);
    if out[i].firstDate == out[j].firstDate {
      assert KINDS[Rank(out[i].id.kind)] == out[i].id.kind && KINDS[Rank(out[j].id.kind)] == out[j].id.kind;
    }
  }

  /** With distinct keys, rows of packs of one kind differ in unit price. */
  lemma OneRowPerPack(rows: seq<OrderRow>, i: nat, j: nat)
    requires DistinctIds(rows) && i < j < |rows| && Dated(rows[i]) && Dated(rows[j])
    requires rows[i].id.space == rows[j].id.space && rows[i].id.kind == rows[j].id.kind != Hour
    ensures rows[i].id.unit != rows[j].id.unit
  {
    assert rows[i].id != rows[j].id;
  }

  // ----- Spaces without prices -----

  lemma {:induction false} SegmentTotalsShown(
    space: Id, fecha: int, segments: seq<Segment>, totals: seq<int>, prices: Option<CatalogPrices>
  )
    requires |segments| == |totals|
    ensures RowsTotal(SegmentRows(space, fecha, segments, totals, prices)) == Sum(totals)
    decreases |segments|
  {
    if segments != [] {
      var n := |segments| - 1;
      SegmentTotalsShown(space, fecha, segments[..n], totals[..n], prices);
      SumMapAppend(RowTotal, SegmentRows(space, fecha, segments[..n], totals[..n], prices),
                   SegmentRow(space, fecha, segments[n], totals[n], prices));
    }
  }

  function BlockPrecio(b: TableBlock): int {
    b.precio
  }

  /** The rows of a block without prices show the price of its slots. */
  lemma UnpricedBlock(space: Id, b: TableBlock)
    ensures RowsTotal(BlockRows(space, b, None)) == b.precio
  {
    var segments := SegmentsOf(BlockMinutes(b.iv), None);
    SegmentsArePositive(BlockMinutes(b.iv));
    PositiveWeights(Quantities(segments));
    SharesConserve(b.precio, Quantities(segments));
    SegmentTotalsShown(space, b.fecha, segments, ChargesOf(b, segments, None), None);
  }

  lemma TotalOfLast(space: Id, blocks: seq<TableBlock>)
    requires blocks != []
    ensures
      var n := |blocks| - 1;
      RowsTotal(AllSegments(space, blocks, None)) ==
      RowsTotal(AllSegments(space, blocks[..n], None)) + RowsTotal(BlockRows(space, blocks[n], None))
  {
    var n := |blocks| - 1;
    SumMapConcat(RowTotal, AllSegments(space, blocks[..n], None), BlockRows(space, blocks[n], None));
  }

  lemma PrecioOfLast(blocks: seq<TableBlock>)
    requires blocks != []
    ensures
      var n := |blocks| - 1;
      Sum(MapSeq(BlockPrecio, blocks)) == Sum(MapSeq(BlockPrecio, blocks[..n])) + blocks[n].precio
  {
    var n := |blocks| - 1;
    SumMapAppend(BlockPrecio, blocks[..n], blocks[n]);
    assert blocks == blocks[..n] + [blocks[n]];
  }

  lemma {:induction false} UnpricedBlocks(space: Id, blocks: seq<TableBlock>)
    ensures RowsTotal(AllSegments(space, blocks, None)) == Sum(MapSeq(BlockPrecio, blocks))
    decreases |blocks|
  {
    if blocks != [] {
      var n := |blocks| - 1;
      UnpricedBlocks(space, blocks[..n]);
      UnpricedBlock(space, blocks[n]);
      TotalOfLast(space, blocks);
      PrecioOfLast(blocks);
    } else {
      assert MapSeq(RowTotal, AllSegments(space, blocks, None)) == [];
    }
  }

  /** The rows show the totals of the segments they aggregate. */
  lemma RowsShowTotals(rows: seq<OrderRow>, segments: seq<OrderRow>)
    requires Aggregates(rows, segments) && DistinctIds(rows)
    ensures RowsTotal(rows) == RowsTotal(segments)
  {
    SegmentsHaveRows(rows, segments);
    SumOfParts(RowTotal, ByRow, segments, rows);
    forall i | 0 <= i < |rows|
      ensures RowTotal(rows[i]) == PartSum(RowTotal, ByRow, segments)(rows[i])
    {
      assert RowOf(rows[i], Own(segments, rows[i].id));
    }
    SameValues(RowTotal, PartSum(RowTotal, ByRow, segments), rows);
  }

  lemma {:induction false} ChainTagSums(c: seq<seq<Row<int>>>, out: seq<TableBlock>)
    requires ShowsPrices(out, c)
    ensures Sum(MapSeq(BlockPrecio, out)) == Sum(Tags(Concat(c)))
    decreases |c|
  {
    if c != [] {
      var n := |c| - 1;
      ChainTagSums(c[..n], out[..n]);
      assert out == out[..n] + [out[n]];
      SumMapAppend(BlockPrecio, out[..n], out[n]);
      assert Tags(Concat(c)) == Tags(Concat(c[..n])) + Tags(c[n]);
      SumConcat(Tags(Concat(c[..n])), Tags(c[n]));
    }
  }

  /** The blocks of a date cost what its slots cost. */
  lemma DayPrecio(day: seq<TableBlock>, d: int, items: seq<CartItem>)
    requires IsDay(day, d, items)
    ensures Sum(MapSeq(BlockPrecio, day)) == Sum(MapSeq(ItemPrecio, items))
  {
    var arr := SortedRows(items);
    ChainTagSums(Chains(arr), day);
    ChainsConcat(arr);
    SortedDay(items, arr);
  }

  lemma DatePrecio(blocks: seq<TableBlock>, items: seq<CartItem>, d: int)
    requires HasDay(blocks, items, d)
    ensures PartSum(BlockPrecio, OfDate, blocks)(d) == PartSum(ItemPrecio, OnDate, items)(d)
  {
    var day :| IsDay(day, d, DateItems(items, d)) && multiset(FilterSeq(OfDate(d), blocks)) == multiset(day);
    DayPrecio(day, d, DateItems(items, d));
    SumMapPermutation(BlockPrecio, FilterSeq(OfDate(d), blocks), day);
  }

  lemma DatesCost(blocks: seq<TableBlock>, items: seq<CartItem>, dates: seq<int>)
    requires MergesDates(blocks, items) && forall d | d in dates :: d in Dates(items)
    ensures Sum(MapSeq(PartSum(BlockPrecio, OfDate, blocks), dates)) ==
            Sum(MapSeq(PartSum(ItemPrecio, OnDate, items), dates))
  {
    forall i | 0 <= i < |dates|
      ensures PartSum(BlockPrecio, OfDate, blocks)(dates[i]) == PartSum(ItemPrecio, OnDate, items)(dates[i])
    {
      assert HasDay(blocks, items, dates[i]);
      DatePrecio(blocks, items, dates[i]);
    }
    SameValues(PartSum(BlockPrecio, OfDate, blocks), PartSum(ItemPrecio, OnDate, items), dates);
  }

  lemma BlocksCostSlots(blocks: seq<TableBlock>, items: seq<CartItem>)
    requires MergesDates(blocks, items)
    ensures Sum(MapSeq(BlockPrecio, blocks)) == Sum(MapSeq(ItemPrecio, items))
  {
    var dates := DateList(items);
    BlockDates(blocks, items, dates);
    BlocksByDate(blocks, dates);
    ItemsByDate(items, dates);
    SumOfParts(BlockPrecio, OfDate, blocks, dates);
    SumOfParts(ItemPrecio, OnDate, items, dates);
    DatesCost(blocks, items, dates);
  }

  /** Without prices the rows of a space add up to the prices of its slots. */
  lemma UnpricedSpaceTotal(out: seq<OrderRow>, space: Id, items: seq<CartItem>)
    requires IsSpaceTable(out, space, items, None)
    ensures RowsTotal(out) == Sum(MapSeq(ItemPrecio, items))
  {
    var blocks :| MergesDates(blocks, items) && SortedBy(BlockKey, blocks) &&
      Aggregates(out, AllSegments(space, blocks, None));
    BlocksCostSlots(blocks, items);
    UnpricedBlocks(space, blocks);
    RowsShowTotals(out, AllSegments(space, blocks, None));
  }
}
