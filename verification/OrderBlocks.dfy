/** The blocks of the "Detalle de Espacios" table of `booking/order_table_rows.py`: the cart of a space grouped by
    date and merged, and what the table charges for it. */
module OrderBlocks {
  import opened Common
  import opened Lists
  import opened Blocks
  import opened Packages
  import opened Wizard

  // ----- Selections of the cart -----

  function InSpace(space: Id): CartItem -> bool {
    (it: CartItem) => it.space == space
  }

  function OnDate(fecha: int): CartItem -> bool {
    (it: CartItem) => it.fecha == fecha
  }

  function InGroup(g: Group): CartItem -> bool {
    (it: CartItem) => GroupOf(it) == g
  }

  function ItemIv(it: CartItem): Iv {
    it.iv
  }

  function ItemPrecio(it: CartItem): int {
    it.precio
  }

  /** A block of the table: merged slots of one date and the sum of their prices. */
  datatype TableBlock = TableBlock(fecha: int, iv: Iv, precio: int)

  /** slot_duration_hours, in minutes: one hour when the end is not after the start. */
  function BlockMinutes(v: Iv): nat {
    if Length(v) <= 0 then 60 else Length(v)
  }

  /** What the table charges for a block: by packages, or its slots' prices when the space has none. */
  function BlockTotal(b: TableBlock, prices: Option<CatalogPrices>): int {
    match prices
    case Some(p) => BlockPesos(BlockMinutes(b.iv), p)
    case None => b.precio
  }

  function TotalOf(prices: Option<CatalogPrices>): TableBlock -> int {
    (b: TableBlock) => BlockTotal(b, prices)
  }

  function BlocksTotal(blocks: seq<TableBlock>, charge: TableBlock -> int): int {
    Sum(MapSeq(charge, blocks))
  }

  function RunPesos(p: CatalogPrices): Iv -> int {
    (v: Iv) => BlockPesos(BlockMinutes(v), p)
  }

  function BlocksPesos(blocks: seq<Iv>, p: CatalogPrices): int {
    Sum(MapSeq(RunPesos(p), blocks))
  }

  /** The charge for some items of one space and date. */
  function ItemsPesos(items: seq<CartItem>, prices: Option<CatalogPrices>): int {
    match prices
    case Some(p) => BlocksPesos(BlocksOf(MapSeq(ItemIv, items)), p)
    case None => Sum(MapSeq(ItemPrecio, items))
  }

  function PricesOf(pricing: map<Id, CatalogPrices>, space: Id): Option<CatalogPrices> {
    if space in pricing then Some(pricing[space]) else None
  }

  function GroupPesos(items: seq<CartItem>, g: Group, pricing: map<Id, CatalogPrices>): int {
    ItemsPesos(FilterSeq(InGroup(g), items), PricesOf(pricing, g.space))
  }

  ghost function PesosByGroup(items: seq<CartItem>, pricing: map<Id, CatalogPrices>): (r: map<Group, int>)
    ensures r.Keys == Groups(items)
  {
    map g | g in Groups(items) :: GroupPesos(items, g, pricing)
  }

  /** The subtotal of the table: the charges of all the blocks of the cart. */
  ghost function TableSubtotal(items: seq<CartItem>, pricing: map<Id, CatalogPrices>): int {
    SumMap(PesosByGroup(items, pricing))
  }

  /** The charge does not depend on the order of the items. */
  lemma ItemsPesosPermutation(a: seq<CartItem>, b: seq<CartItem>, prices: Option<CatalogPrices>)
    requires multiset(a) == multiset(b)
    ensures ItemsPesos(a, prices) == ItemsPesos(b, prices)
  {
    MapPermutation(ItemIv, a, b);
    MapPermutation(ItemPrecio, a, b);
    SumPermutation(MapSeq(ItemPrecio, a), MapSeq(ItemPrecio, b));
    SortBySorts(IvKey, MapSeq(ItemIv, a));
    SortBySorts(IvKey, MapSeq(ItemIv, b));
    SortedIsUnique(SortBy(IvKey, MapSeq(ItemIv, a)), SortBy(IvKey, MapSeq(ItemIv, b)));
  }

  /** One more item, selected by space and date or by group. */
  lemma FilterTwiceStep(before: seq<CartItem>, it: CartItem, g: Group)
    requires FilterSeq(OnDate(g.fecha), FilterSeq(InSpace(g.space), before)) == FilterSeq(InGroup(g), before)
    ensures FilterSeq(OnDate(g.fecha), FilterSeq(InSpace(g.space), before + [it])) ==
            FilterSeq(InGroup(g), before + [it])
  {
    FilterConcat(InSpace(g.space), before, [it]);
    FilterConcat(InGroup(g), before, [it]);
    FilterOne(InSpace(g.space), it);
    FilterOne(InGroup(g), it);
    FilterOne(OnDate(g.fecha), it);
    FilterConcat(OnDate(g.fecha), FilterSeq(InSpace(g.space), before), FilterSeq(InSpace(g.space), [it]));
    assert InGroup(g)(it) <==> InSpace(g.space)(it) && OnDate(g.fecha)(it);
    if !InSpace(g.space)(it) { assert FilterSeq(OnDate(g.fecha), []) == []; }
  }

  /** Selecting a space and then a date selects a group. */
  lemma {:induction false} FilterTwice(items: seq<CartItem>, g: Group)
    ensures FilterSeq(OnDate(g.fecha), FilterSeq(InSpace(g.space), items)) == FilterSeq(InGroup(g), items)
    decreases |items|
  {
    if items != [] {
      var n := |items| - 1;
      FilterTwice(items[..n], g);
      FilterTwiceStep(items[..n], items[n], g);
      assert items == items[..n] + [items[n]];
    }
  }

  /** The wizard's rows of a group are the group's items. */
  lemma {:induction false} RowsAreItems(items: seq<CartItem>, g: Group)
    ensures Ivs(RowsIn(items, g)) == MapSeq(ItemIv, FilterSeq(InGroup(g), items))
    decreases |items|
  {
    if items != [] {
      var n := |items| - 1;
      var rows, kept := RowsIn(items[..n], g), FilterSeq(InGroup(g), items[..n]);
      RowsAreItems(items[..n], g);
      if InGroup(g)(items[n]) {
        assert RowsIn(items, g) == rows + [Row(items[n].iv, n)] && FilterSeq(InGroup(g), items) == kept + [items[n]];
        IvsMore(rows, Row(items[n].iv, n));
        MapMore(ItemIv, kept, items[n]);
      } else {
        assert RowsIn(items, g) == rows && FilterSeq(InGroup(g), items) == kept;
      }
    }
  }

  lemma IvsMore<T>(rows: seq<Row<T>>, r: Row<T>)
    ensures Ivs(rows + [r]) == Ivs(rows) + [r.iv]
  {
  }

  // ----- Merging one date -----

  function DayRow(it: CartItem): Row<int> {
    Row(it.iv, it.precio)
  }

  /** The blocks show these runs on one date. */
  ghost predicate ShowsRuns(out: seq<TableBlock>, fecha: int, runs: seq<Iv>) {
    |out| == |runs| && forall i | 0 <= i < |out| :: out[i].fecha == fecha && out[i].iv == runs[i]
  }

  /** The price of each block is the sum of the prices of its chain. */
  ghost predicate ShowsPrices(out: seq<TableBlock>, chains: seq<seq<Row<int>>>) {
    |out| == |chains| && forall i | 0 <= i < |out| :: out[i].precio == Sum(Tags(chains[i]))
  }

  lemma ShowsMoreBlocks(
    out: seq<TableBlock>, b: TableBlock, runs: seq<Iv>, chains: seq<seq<Row<int>>>, chain: seq<Row<int>>
  )
    requires ShowsRuns(out, b.fecha, runs) && ShowsPrices(out, chains) && b.precio == Sum(Tags(chain))
    ensures ShowsRuns(out + [b], b.fecha, runs + [b.iv]) && ShowsPrices(out + [b], chains + [chain])
  {
  }

  /** The closed blocks and the current one show the slots before the i-th, and their prices. */
  ghost predicate DayMerged(
    out: seq<TableBlock>, current: TableBlock, arr: seq<Row<int>>, i: nat,
    chains: seq<seq<Row<int>>>, chain: seq<Row<int>>
  )
    requires 0 < i <= |arr|
  {
    && ScanRows(arr[..i]) == (chains, chain)
    && Scan(Ivs(arr[..i])).1 == current.iv
    && ShowsRuns(out, current.fecha, Scan(Ivs(arr[..i])).0) && ShowsPrices(out, chains)
    && current.precio == Sum(Tags(chain))
    && Precios(out) + current.precio == Sum(Tags(arr[..i]))
  }

  lemma DayStarts(fecha: int, arr: seq<Row<int>>)
    requires arr != []
    ensures DayMerged([], TableBlock(fecha, arr[0].iv, arr[0].tag), arr, 1, [], [arr[0]])
  {
    FirstTag(arr);
    assert arr[..1] == [arr[0]] && Ivs(arr[..1]) == [arr[0].iv];
  }

  /** A slot that touches the current block extends it. */
  lemma DayExtends(
    out: seq<TableBlock>, current: TableBlock, arr: seq<Row<int>>, i: nat,
    chains: seq<seq<Row<int>>>, chain: seq<Row<int>>
  )
    requires 0 < i < |arr| && DayMerged(out, current, arr, i, chains, chain) && arr[i].iv.ini == current.iv.fin
    ensures
      var next := TableBlock(current.fecha, Iv(current.iv.ini, arr[i].iv.fin), current.precio + arr[i].tag);
      DayMerged(out, next, arr, i + 1, chains, chain + [arr[i]])
  {
    ScanStep(arr, i);
    MoreTags(arr, i);
    TagSums(chain, arr[i]);
  }

  /** Another one closes the current block and opens its own. */
  lemma DayOpens(
    out: seq<TableBlock>, current: TableBlock, arr: seq<Row<int>>, i: nat,
    chains: seq<seq<Row<int>>>, chain: seq<Row<int>>
  )
    requires 0 < i < |arr| && DayMerged(out, current, arr, i, chains, chain) && arr[i].iv.ini != current.iv.fin
    ensures DayMerged(out + [current], TableBlock(current.fecha, arr[i].iv, arr[i].tag), arr, i + 1,
                      chains + [chain], [arr[i]])
  {
    ScanStep(arr, i);
    MoreTags(arr, i);
    TagSums(chain, arr[i]);
    ShowsMoreBlocks(out, current, Scan(Ivs(arr[..i])).0, chains, chain);
    PreciosMore(out, current);
  }

  lemma DayEnds(
    out: seq<TableBlock>, current: TableBlock, arr: seq<Row<int>>, chains: seq<seq<Row<int>>>, chain: seq<Row<int>>
  )
    requires arr != [] && DayMerged(out, current, arr, |arr|, chains, chain)
    ensures ShowsRuns(out + [current], current.fecha, Runs(Ivs(arr))) && ShowsPrices(out + [current], Chains(arr))
    ensures Precios(out + [current]) == Sum(Tags(arr))
  {
    assert arr[..|arr|] == arr;
    ShowsMoreBlocks(out, current, Scan(Ivs(arr)).0, chains, chain);
    PreciosMore(out, current);
  }

  /** The inner loop of merge_contiguous_blocks, on the sorted items of one date. */
  method MergeDay(fecha: int, arr: seq<Row<int>>) returns (out: seq<TableBlock>)
    ensures ShowsRuns(out, fecha, Runs(Ivs(arr))) && ShowsPrices(out, Chains(arr)) && Precios(out) == Sum(Tags(arr))
  {
    out := [];
    if arr == [] {
      return;
    }
    var current := TableBlock(fecha, arr[0].iv, arr[0].tag);
    ghost var chains, chain := [], [arr[0]];
    DayStarts(fecha, arr);
    for i := 1 to |arr|
      invariant DayMerged(out, current, arr, i, chains, chain) && current.fecha == fecha
    {
      var it := arr[i];
      if it.iv.ini == current.iv.fin {
        DayExtends(out, current, arr, i, chains, chain);
        current := TableBlock(fecha, Iv(current.iv.ini, it.iv.fin), current.precio + it.tag);
        chain := chain + [it];
      } else {
        DayOpens(out, current, arr, i, chains, chain);
        out, chains := out + [current], chains + [chain];
        current, chain := TableBlock(fecha, it.iv, it.tag), [it];
      }
    }
    DayEnds(out, current, arr, chains, chain);
    out := out + [current];
  }

  lemma TagSums(chain: seq<Row<int>>, r: Row<int>)
    ensures Sum(Tags(chain + [r])) == Sum(Tags(chain)) + r.tag && Sum(Tags([r])) == r.tag
  {
    assert Tags(chain + [r])[..|chain|] == Tags(chain);
    assert Tags([r])[..0] == [];
  }

  /** precio_total of some blocks together. */
  function Precios(blocks: seq<TableBlock>): int
    decreases |blocks|
  {
    if blocks == [] then 0 else Precios(blocks[..|blocks| - 1]) + blocks[|blocks| - 1].precio
  }

  lemma PreciosMore(blocks: seq<TableBlock>, b: TableBlock)
    ensures Precios(blocks + [b]) == Precios(blocks) + b.precio
  {
    assert (blocks + [b])[..|blocks|] == blocks;
  }

  lemma FirstTag(arr: seq<Row<int>>)
    requires arr != []
    ensures arr[..1] == [arr[0]] && Sum(Tags(arr[..1])) == arr[0].tag
    ensures Scan(Ivs(arr[..1])) == ([], arr[0].iv) && ScanRows(arr[..1]) == ([], [arr[0]])
  {
    assert Tags(arr[..1])[..0] == [];
  }

  lemma MoreTags(arr: seq<Row<int>>, i: nat)
    requires i < |arr|
    ensures Sum(Tags(arr[..i + 1])) == Sum(Tags(arr[..i])) + arr[i].tag
  {
    assert Tags(arr[..i + 1])[..i] == Tags(arr[..i]);
  }

  /** Charged by packages, blocks with these slots cost the same. */
  lemma TotalBySlots(out: seq<TableBlock>, fecha: int, runs: seq<Iv>, p: CatalogPrices)
    requires ShowsRuns(out, fecha, runs)
    ensures BlocksTotal(out, TotalOf(Some(p))) == BlocksPesos(runs, p)
  {
    forall i | 0 <= i < |out|
      ensures TotalOf(Some(p))(out[i]) == RunPesos(p)(runs[i])
    {
    }
    assert MapSeq(TotalOf(Some(p)), out) == MapSeq(RunPesos(p), runs);
  }

  /** Charged by slot prices, blocks cost what their slots cost. */
  lemma {:induction false} TotalByPrecio(out: seq<TableBlock>)
    ensures BlocksTotal(out, TotalOf(None)) == Precios(out)
    decreases |out|
  {
    if out != [] {
      var n := |out| - 1;
      TotalByPrecio(out[..n]);
      assert out == out[..n] + [out[n]];
      SumMapAppend(TotalOf(None), out[..n], out[n]);
    }
  }

  function TagOf(r: Row<int>): int {
    r.tag
  }

  /** The slots of a date in sorted order, and their prices. */
  lemma SortedDay(items: seq<CartItem>, arr: seq<Row<int>>)
    requires arr == SortBy(RowKey<int>, MapSeq(DayRow, items))
    ensures Runs(Ivs(arr)) == BlocksOf(MapSeq(ItemIv, items)) && Sum(Tags(arr)) == Sum(MapSeq(ItemPrecio, items))
  {
    var rows := MapSeq(DayRow, items);
    SortBySorts(RowKey<int>, rows);
    SortedView(rows, arr);
    assert Ivs(rows) == MapSeq(ItemIv, items);
    SumMapPermutation(TagOf, arr, rows);
    assert Tags(arr) == MapSeq(TagOf, arr) && MapSeq(ItemPrecio, items) == MapSeq(TagOf, rows);
  }

  lemma DayTotals(items: seq<CartItem>, out: seq<TableBlock>, fecha: int, prices: Option<CatalogPrices>)
    requires ShowsRuns(out, fecha, BlocksOf(MapSeq(ItemIv, items))) && Precios(out) == Sum(MapSeq(ItemPrecio, items))
    ensures BlocksTotal(out, TotalOf(prices)) == ItemsPesos(items, prices)
  {
    match prices
    case Some(p) => TotalBySlots(out, fecha, BlocksOf(MapSeq(ItemIv, items)), p);
    case None => TotalByPrecio(out);
  }

  /** The items sorted by start, then by end, those of equal slots in their old order. */
  function SortedRows(items: seq<CartItem>): seq<Row<int>> {
    SortBy(RowKey<int>, MapSeq(DayRow, items))
  }

  /** The blocks of a date: the maximal runs of its slots, each with the prices of its own slots. */
  ghost predicate IsDay(out: seq<TableBlock>, fecha: int, items: seq<CartItem>) {
    ShowsRuns(out, fecha, BlocksOf(MapSeq(ItemIv, items))) && ShowsPrices(out, Chains(SortedRows(items)))
  }

  /** One date of a space: sort its items and merge them. */
  method MergeDate(fecha: int, items: seq<CartItem>, ghost prices: Option<CatalogPrices>) returns (out: seq<TableBlock>)
    ensures IsDay(out, fecha, items)
    ensures BlocksTotal(out, TotalOf(prices)) == ItemsPesos(items, prices)
  {
    var arr := SortedRows(items);
    SortedDay(items, arr);
    out := MergeDay(fecha, arr);
    DayTotals(items, out, fecha, prices);
  }

  // ----- Merging one space -----

  function Dates(items: seq<CartItem>): set<int> {
    set i | 0 <= i < |items| :: items[i].fecha
  }

  /** The items of one date, in order. */
  function DateItems(items: seq<CartItem>, d: int): seq<CartItem> {
    FilterSeq(OnDate(d), items)
  }

  function ByDate(items: seq<CartItem>): int -> seq<CartItem> {
    (d: int) => DateItems(items, d)
  }

  /** by_date: the items of each date. */
  method GroupByDate(items: seq<CartItem>) returns (byDate: map<int, seq<CartItem>>)
    ensures byDate.Keys == Dates(items) && Grouped(ByDate(items), byDate)
  {
    byDate := map[];
    for i := 0 to |items|
      invariant byDate.Keys == Dates(items[..i]) && Grouped(ByDate(items[..i]), byDate)
    {
      DatesStep(items, i);
      GroupedStep(ByDate(items[..i]), ByDate(items[..i + 1]), byDate, items[i].fecha, items[i]);
      byDate := Appended(byDate, items[i].fecha, items[i]);
    }
    assert items[..|items|] == items;
  }

  lemma DatesStep(items: seq<CartItem>, i: nat)
    requires i < |items|
    ensures Dates(items[..i + 1]) == Dates(items[..i]) + {items[i].fecha}
    ensures forall d ::
              ByDate(items[..i + 1])(d) == ByDate(items[..i])(d) + if d == items[i].fecha then [items[i]] else []
  {
    var prefix := items[..i + 1];
    assert prefix[..i] == items[..i] && prefix[i] == items[i];
    forall j | 0 <= j < i
      ensures items[..i][j].fecha in Dates(prefix)
    {
      assert prefix[j] == items[..i][j];
    }
    assert prefix[i].fecha in Dates(prefix);
    assert forall j | 0 <= j < i :: prefix[j] == items[..i][j];
  }

  function DatePesos(items: seq<CartItem>, d: int, prices: Option<CatalogPrices>): int {
    ItemsPesos(DateItems(items, d), prices)
  }

  ghost function PesosByDate(items: seq<CartItem>, prices: Option<CatalogPrices>): (r: map<int, int>)
    ensures r.Keys == Dates(items)
  {
    map d | d in Dates(items) :: DatePesos(items, d, prices)
  }

  function BlockKey(b: TableBlock): int {
    b.fecha * 1440 + b.iv.ini
  }

  function OfDate(d: int): TableBlock -> bool {
    (b: TableBlock) => b.fecha == d
  }

  /** Some dates are merged, the others are still to do. */
  ghost predicate Merged(
    pesos: map<int, int>, todo: set<int>, done: set<int>, blocks: seq<TableBlock>, charge: TableBlock -> int
  ) {
    todo + done == pesos.Keys && todo !! done && BlocksTotal(blocks, charge) == SumAt(pesos, done)
  }

  lemma MergedStep(
    pesos: map<int, int>, todo: set<int>, done: set<int>, blocks: seq<TableBlock>, charge: TableBlock -> int,
    d: int, merged: seq<TableBlock>
  )
    requires Merged(pesos, todo, done, blocks, charge) && d in todo && d in pesos &&
             BlocksTotal(merged, charge) == pesos[d]
    ensures Merged(pesos, todo - {d}, done + {d}, blocks + merged, charge)
  {
    SumMapConcat(charge, blocks, merged);
    SumAdd(pesos, done, d);
    assert (todo - {d}) + (done + {d}) == todo + done;
  }

  /** The blocks of a merged date are its blocks, and another date has none. */
  ghost predicate DatesShown(items: seq<CartItem>, done: set<int>, blocks: seq<TableBlock>) {
    forall d ::
      if d in done then IsDay(FilterSeq(OfDate(d), blocks), d, DateItems(items, d))
        else FilterSeq(OfDate(d), blocks) == []
  }

  lemma {:induction false} OneDate(blocks: seq<TableBlock>, fecha: int, d: int)
    requires forall i | 0 <= i < |blocks| :: blocks[i].fecha == fecha
    ensures FilterSeq(OfDate(d), blocks) == if d == fecha then blocks else []
    decreases |blocks|
  {
    if blocks != [] {
      var n := |blocks| - 1;
      OneDate(blocks[..n], fecha, d);
      assert blocks == blocks[..n] + [blocks[n]];
    }
  }

  lemma MoreDatesShown(items: seq<CartItem>, done: set<int>, blocks: seq<TableBlock>, d: int, merged: seq<TableBlock>)
    requires DatesShown(items, done, blocks) && d !in done && IsDay(merged, d, DateItems(items, d))
    ensures DatesShown(items, done + {d}, blocks + merged)
  {
    forall e
      ensures FilterSeq(OfDate(e), blocks + merged) == if e == d then merged else FilterSeq(OfDate(e), blocks)
    {
      FilterConcat(OfDate(e), blocks, merged);
      OneDate(merged, d, e);
      assert FilterSeq(OfDate(e), blocks) == [] || e != d;
    }
  }

  lemma DateCharge(items: seq<CartItem>, byDate: map<int, seq<CartItem>>, prices: Option<CatalogPrices>, d: int)
    requires Grouped(ByDate(items), byDate) && d in byDate && d in Dates(items)
    ensures byDate[d] == DateItems(items, d) && PesosByDate(items, prices)[d] == ItemsPesos(byDate[d], prices)
  {
    assert ByDate(items)(d) == byDate[d];
  }

  /** for fecha, arr in by_date.items(): merge the items of the date. */
  method MergeDates(ghost items: seq<CartItem>, byDate: map<int, seq<CartItem>>, ghost prices: Option<CatalogPrices>)
    returns (blocks: seq<TableBlock>)
    requires byDate.Keys == Dates(items) && Grouped(ByDate(items), byDate)
    ensures BlocksTotal(blocks, TotalOf(prices)) == SumMap(PesosByDate(items, prices))
    ensures DatesShown(items, Dates(items), blocks)
  {
    ghost var pesos, charge := PesosByDate(items, prices), TotalOf(prices);
    var todo := byDate.Keys;
    ghost var done: set<int> := {};
    blocks := [];
    while todo != {}
      invariant Merged(pesos, todo, done, blocks, charge) && DatesShown(items, done, blocks)
      decreases todo
    {
      var d :| d in todo;
      assert d in todo + done;
      var merged := MergeDate(d, byDate[d], prices);
      DateCharge(items, byDate, prices, d);
      MergedStep(pesos, todo, done, blocks, charge, d, merged);
      MoreDatesShown(items, done, blocks, d, merged);
      todo, done := todo - {d}, done + {d};
      blocks := blocks + merged;
    }
    assert done == pesos.Keys;
  }

  /** Some arrangement of the blocks of one date that out has. */
  ghost predicate HasDay(out: seq<TableBlock>, items: seq<CartItem>, d: int) {
    exists day :: IsDay(day, d, DateItems(items, d)) && multiset(FilterSeq(OfDate(d), out)) == multiset(day)
  }

  /** The blocks are those of the dates of the items, date by date, and no others. */
  ghost predicate MergesDates(out: seq<TableBlock>, items: seq<CartItem>) {
    && (forall d | d in Dates(items) :: HasDay(out, items, d))
    && (forall i | 0 <= i < |out| :: out[i].fecha in Dates(items))
  }

  lemma SortedDates(items: seq<CartItem>, blocks: seq<TableBlock>, out: seq<TableBlock>)
    requires DatesShown(items, Dates(items), blocks) && multiset(out) == multiset(blocks)
    ensures MergesDates(out, items)
  {
    forall d | d in Dates(items)
      ensures HasDay(out, items, d)
    {
      FilterPermutation(OfDate(d), out, blocks);
      assert IsDay(FilterSeq(OfDate(d), blocks), d, DateItems(items, d));
    }
    forall i | 0 <= i < |out|
      ensures out[i].fecha in Dates(items)
    {
      assert out[i] in multiset(blocks);
      FilterMembers(OfDate(out[i].fecha), blocks, out[i]);
    }
  }

  /** merge_contiguous_blocks: the blocks of every date, sorted by date and start. Their charges are those of
      the items of each date. */
  method MergeContiguousBlocks(items: seq<CartItem>, ghost prices: Option<CatalogPrices>) returns (out: seq<TableBlock>)
    ensures MergesDates(out, items) && SortedBy(BlockKey, out)
    ensures BlocksTotal(out, TotalOf(prices)) == SumMap(PesosByDate(items, prices))
  {
    var byDate := GroupByDate(items);
    var blocks := MergeDates(items, byDate, prices);
    out := SortBy(BlockKey, blocks);
    SortBySorts(BlockKey, blocks);
    SumMapPermutation(TotalOf(prices), out, blocks);
    SortedDates(items, blocks, out);
  }
}
