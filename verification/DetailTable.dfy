/** The whole "Detalle de Espacios" table of `booking/order_table_rows.py`: the tables of the spaces of a cart, one
    after the other. */
module DetailTable {
  import opened Common
  import opened Lists
  import opened Blocks
  import opened Packages
  import opened Wizard
  import opened OrderBlocks
  import opened OrderTable
  import opened TableFacts

  function SpacesOf(items: seq<CartItem>): set<Id> {
    set i | 0 <= i < |items| :: items[i].space
  }

  function SpaceItems(items: seq<CartItem>, space: Id): seq<CartItem> {
    FilterSeq(InSpace(space), items)
  }

  function BySpace(items: seq<CartItem>): Id -> seq<CartItem> {
    (space: Id) => SpaceItems(items, space)
  }

  /** group_cart_items_by_space_for_reservation_period, before each group is sorted. */
  method GroupBySpace(items: seq<CartItem>) returns (bySpace: map<Id, seq<CartItem>>)
    ensures bySpace.Keys == SpacesOf(items) && Grouped(BySpace(items), bySpace)
  {
    bySpace := map[];
    for i := 0 to |items|
      invariant bySpace.Keys == SpacesOf(items[..i]) && Grouped(BySpace(items[..i]), bySpace)
    {
      SpacesStep(items, i);
      GroupedStep(BySpace(items[..i]), BySpace(items[..i + 1]), bySpace, items[i].space, items[i]);
      bySpace := Appended(bySpace, items[i].space, items[i]);
    }
    assert items[..|items|] == items;
  }

  lemma SpacesStep(items: seq<CartItem>, i: nat)
    requires i < |items|
    ensures SpacesOf(items[..i + 1]) == SpacesOf(items[..i]) + {items[i].space}
    ensures forall s ::
              BySpace(items[..i + 1])(s) == BySpace(items[..i])(s) + if s == items[i].space then [items[i]] else []
  {
    var prefix := items[..i + 1];
    assert prefix[..i] == items[..i] && prefix[i] == items[i];
    forall j | 0 <= j < i
      ensures items[..i][j].space in SpacesOf(prefix)
    {
      assert prefix[j] == items[..i][j];
    }
    assert prefix[i].space in SpacesOf(prefix);
    assert forall j | 0 <= j < i :: prefix[j] == items[..i][j];
  }

  /** Order within a space: by date, then by start. */
  function SlotKey(it: CartItem): int {
    it.fecha * 1440 + it.iv.ini
  }

  ghost function GroupsIn(items: seq<CartItem>, spaces: set<Id>): set<Group> {
    set g | g in Groups(items) && g.space in spaces
  }

  /** The charge of a date of a space is the charge of the group. */
  lemma DateIsGroup(items: seq<CartItem>, sorted: seq<CartItem>, g: Group, pricing: map<Id, CatalogPrices>)
    requires multiset(sorted) == multiset(SpaceItems(items, g.space))
    ensures DatePesos(sorted, g.fecha, PricesOf(pricing, g.space)) == GroupPesos(items, g, pricing)
  {
    FilterPermutation(OnDate(g.fecha), sorted, SpaceItems(items, g.space));
    FilterTwice(items, g);
    ItemsPesosPermutation(DateItems(sorted, g.fecha), FilterSeq(InGroup(g), items), PricesOf(pricing, g.space));
  }

  lemma DatesOfSpace(items: seq<CartItem>, sorted: seq<CartItem>, space: Id, d: int)
    requires multiset(sorted) == multiset(SpaceItems(items, space))
    ensures d in Dates(sorted) <==> Group(space, d) in Groups(items)
  {
    if d in Dates(sorted) {
      var i :| 0 <= i < |sorted| && sorted[i].fecha == d;
      assert sorted[i] in multiset(SpaceItems(items, space));
      FilterMembers(InSpace(space), items, sorted[i]);
      var j :| 0 <= j < |items| && items[j] == sorted[i];
      assert GroupOf(items[j]) == Group(space, d);
    }
    if Group(space, d) in Groups(items) {
      var j :| 0 <= j < |items| && GroupOf(items[j]) == Group(space, d);
      FilterMembers(InSpace(space), items, items[j]);
      assert items[j] in multiset(sorted);
      var i :| 0 <= i < |sorted| && sorted[i] == items[j];
    }
  }

  /** The charge of a date of a space, as an entry of both maps. */
  lemma DateEntry(items: seq<CartItem>, sorted: seq<CartItem>, space: Id, pricing: map<Id, CatalogPrices>, d: int)
    requires multiset(sorted) == multiset(SpaceItems(items, space)) && d in Dates(sorted)
    ensures Group(space, d) in GroupsIn(items, {space})
    ensures PesosByDate(sorted, PricesOf(pricing, space))[d] == PesosByGroup(items, pricing)[Group(space, d)]
  {
    DatesOfSpace(items, sorted, space, d);
    DateIsGroup(items, sorted, Group(space, d), pricing);
  }

  lemma SumOfDates(byDate: map<int, int>, byGroup: map<Group, int>, space: Id, groups: set<Group>)
    requires groups <= byGroup.Keys
    requires forall d | d in byDate :: Group(space, d) in groups && byGroup[Group(space, d)] == byDate[d]
    requires forall g | g in groups :: g.space == space && g.fecha in byDate
    ensures SumMap(byDate) == SumAt(byGroup, groups)
  {
    SumRename(byDate, byGroup, (d: int) => Group(space, d), (g: Group) => g.fecha, byDate.Keys, groups);
  }

  lemma GroupEntry(items: seq<CartItem>, sorted: seq<CartItem>, space: Id, g: Group)
    requires multiset(sorted) == multiset(SpaceItems(items, space)) && g in GroupsIn(items, {space})
    ensures g.space == space && g.fecha in Dates(sorted)
  {
    DatesOfSpace(items, sorted, space, g.fecha);
  }

  /** The dates of a space together are charged what its groups are charged. */
  lemma SpaceTotal(items: seq<CartItem>, sorted: seq<CartItem>, space: Id, pricing: map<Id, CatalogPrices>)
    requires multiset(sorted) == multiset(SpaceItems(items, space))
    ensures SumMap(PesosByDate(sorted, PricesOf(pricing, space))) ==
            SumAt(PesosByGroup(items, pricing), GroupsIn(items, {space}))
  {
    var byDate := PesosByDate(sorted, PricesOf(pricing, space));
    var byGroup, groups := PesosByGroup(items, pricing), GroupsIn(items, {space});
    forall d | d in byDate
      ensures Group(space, d) in groups && byGroup[Group(space, d)] == byDate[d]
    {
      DateEntry(items, sorted, space, pricing, d);
    }
    forall g | g in groups
      ensures g.space == space && g.fecha in byDate
    {
      GroupEntry(items, sorted, space, g);
    }
    SumOfDates(byDate, byGroup, space, groups);
  }

  function SortedItems(items: seq<CartItem>, space: Id): seq<CartItem> {
    SortBy(SlotKey, SpaceItems(items, space))
  }

  /** The tables of these spaces, one after the other. */
  ghost predicate TablesOf(
    tables: seq<seq<OrderRow>>, spaces: seq<Id>, items: seq<CartItem>, pricing: map<Id, CatalogPrices>
  ) {
    && |tables| == |spaces|
    && forall i | 0 <= i < |spaces| ::
         IsSpaceTable(tables[i], spaces[i], SortedItems(items, spaces[i]), PricesOf(pricing, spaces[i]))
  }

  function IdSet(spaces: seq<Id>): set<Id> {
    set s | s in spaces
  }

  /** The spaces of the cart, once each, by their place. */
  ghost predicate InPlace(spaces: seq<Id>, items: seq<CartItem>, place: Id -> int) {
    && SortedBy(place, spaces) && IdSet(spaces) == SpacesOf(items)
    && forall i, j | 0 <= i < j < |spaces| :: spaces[i] != spaces[j]
  }

  lemma IdSetMore(out: seq<Id>, s: Id)
    ensures IdSet(out + [s]) == IdSet(out) + {s}
  {
    assert (out + [s])[|out|] == s;
    forall t
      ensures t in IdSet(out + [s]) <==> t in IdSet(out) + {s}
    {
    }
  }

  /** The spaces of a set in some order. */
  method Enumerate(spaces: set<Id>) returns (out: seq<Id>)
    ensures IdSet(out) == spaces && forall i, j | 0 <= i < j < |out| :: out[i] != out[j]
  {
    out := [];
    var todo := spaces;
    while todo != {}
      invariant todo <= spaces && IdSet(out) == spaces - todo
      invariant forall i, j | 0 <= i < j < |out| :: out[i] != out[j]
      decreases todo
    {
      var s :| s in todo;
      assert s !in IdSet(out);
      IdSetMore(out, s);
      out, todo := out + [s], todo - {s};
    }
  }

  lemma {:induction false} DistinctPermutation(a: seq<Id>, b: seq<Id>)
    requires multiset(a) == multiset(b) && forall i, j | 0 <= i < j < |a| :: a[i] != a[j]
    ensures forall i, j | 0 <= i < j < |b| :: b[i] != b[j]
    decreases |b|
  {
    if b != [] {
      var n := |b| - 1;
      var j := TakeOut(b, a);
      var rest := a[..j] + a[j + 1..];
      DistinctPermutation(rest, b[..n]);
      forall i | 0 <= i < n
        ensures b[i] != b[n]
      {
        assert b[..n][i] in multiset(rest);
      }
    }
  }

  lemma SamePlaces(spaces: seq<Id>, sorted: seq<Id>)
    requires multiset(sorted) == multiset(spaces)
    ensures IdSet(sorted) == IdSet(spaces)
  {
    forall s
      ensures s in sorted <==> s in spaces
    {
      assert s in sorted <==> s in multiset(sorted);
      assert s in spaces <==> s in multiset(spaces);
    }
  }

  /** The rows of the first spaces are built. */
  ghost predicate Built(items: seq<CartItem>, pricing: map<Id, CatalogPrices>, done: set<Id>, out: seq<OrderRow>) {
    && DistinctIds(out) && (forall i | 0 <= i < |out| :: out[i].id.space in done)
    && RowsTotal(out) == SumAt(PesosByGroup(items, pricing), GroupsIn(items, done))
  }

  lemma BuiltStep(items: seq<CartItem>, pricing: map<Id, CatalogPrices>, done: set<Id>, out: seq<OrderRow>, space: Id,
                  rows: seq<OrderRow>)
    requires Built(items, pricing, done, out) && space !in done && Keyed(rows, space)
    requires RowsTotal(rows) == SumAt(PesosByGroup(items, pricing), GroupsIn(items, {space}))
    ensures Built(items, pricing, done + {space}, out + rows)
  {
    SumMapConcat(RowTotal, out, rows);
    MoreSpaces(items, pricing, done, space);
    MoreRows(out, done, rows, space);
  }

  lemma MoreSpaces(items: seq<CartItem>, pricing: map<Id, CatalogPrices>, done: set<Id>, space: Id)
    requires space !in done
    ensures
      var byGroup := PesosByGroup(items, pricing);
      SumAt(byGroup, GroupsIn(items, done + {space})) ==
        SumAt(byGroup, GroupsIn(items, done)) + SumAt(byGroup, GroupsIn(items, {space}))
  {
    assert GroupsIn(items, done + {space}) == GroupsIn(items, done) + GroupsIn(items, {space});
    SumUnion(PesosByGroup(items, pricing), GroupsIn(items, done), GroupsIn(items, {space}));
  }

  lemma MoreRows(out: seq<OrderRow>, done: set<Id>, rows: seq<OrderRow>, space: Id)
    requires DistinctIds(out) && Keyed(rows, space) && space !in done
    requires forall i | 0 <= i < |out| :: out[i].id.space in done
    ensures DistinctIds(out + rows) && forall i | 0 <= i < |out + rows| :: (out + rows)[i].id.space in done + {space}
  {
  }

  lemma AllSpacesBuilt(items: seq<CartItem>, pricing: map<Id, CatalogPrices>, out: seq<OrderRow>)
    requires Built(items, pricing, SpacesOf(items), out)
    ensures RowsTotal(out) == TableSubtotal(items, pricing)
  {
    forall g | g in Groups(items)
      ensures g.space in SpacesOf(items)
    {
      var i :| 0 <= i < |items| && GroupOf(items[i]) == g;
      assert items[i].space in SpacesOf(items);
    }
    assert GroupsIn(items, SpacesOf(items)) == PesosByGroup(items, pricing).Keys;
  }

  /** The table of one space of the cart. */
  method SpaceTable(items: seq<CartItem>, space: Id, bySpace: map<Id, seq<CartItem>>, pricing: map<Id, CatalogPrices>)
    returns (rows: seq<OrderRow>)
    requires space in bySpace && Grouped(BySpace(items), bySpace)
    ensures IsSpaceTable(rows, space, SortedItems(items, space), PricesOf(pricing, space))
    ensures RowsTotal(rows) == SumAt(PesosByGroup(items, pricing), GroupsIn(items, {space}))
  {
    assert BySpace(items)(space) == bySpace[space];
    var sorted := SortBy(SlotKey, bySpace[space]);
    SortBySorts(SlotKey, bySpace[space]);
    SpaceTotal(items, sorted, space, pricing);
    rows := SpaceRows(space, sorted, PricesOf(pricing, space));
  }

  lemma DoneStep(spaces: seq<Id>, i: nat)
    requires i < |spaces| && forall j, k | 0 <= j < k < |spaces| :: spaces[j] != spaces[k]
    ensures spaces[..i + 1] == spaces[..i] + [spaces[i]]
    ensures IdSet(spaces[..i + 1]) == IdSet(spaces[..i]) + {spaces[i]} && spaces[i] !in IdSet(spaces[..i])
  {
    IdSetMore(spaces[..i], spaces[i]);
  }

  /** The tables of the first i spaces are built. */
  ghost predicate BuiltTables(items: seq<CartItem>, pricing: map<Id, CatalogPrices>, spaces: seq<Id>, i: nat,
                              out: seq<OrderRow>, tables: seq<seq<OrderRow>>)
  {
    i <= |spaces| && Built(items, pricing, IdSet(spaces[..i]), out) && TablesOf(tables, spaces[..i], items, pricing) &&
    out == Concat(tables)
  }

  lemma TablesMore(items: seq<CartItem>, pricing: map<Id, CatalogPrices>, tables: seq<seq<OrderRow>>, spaces: seq<Id>,
                   table: seq<OrderRow>, space: Id)
    requires TablesOf(tables, spaces, items, pricing)
    requires IsSpaceTable(table, space, SortedItems(items, space), PricesOf(pricing, space))
    ensures TablesOf(tables + [table], spaces + [space], items, pricing)
  {
  }

  lemma BuiltTablesStep(items: seq<CartItem>, pricing: map<Id, CatalogPrices>, spaces: seq<Id>, i: nat,
                        out: seq<OrderRow>, tables: seq<seq<OrderRow>>, table: seq<OrderRow>)
    requires BuiltTables(items, pricing, spaces, i, out, tables) && i < |spaces|
    requires forall j, k | 0 <= j < k < |spaces| :: spaces[j] != spaces[k]
    requires IsSpaceTable(table, spaces[i], SortedItems(items, spaces[i]), PricesOf(pricing, spaces[i]))
    requires RowsTotal(table) == SumAt(PesosByGroup(items, pricing), GroupsIn(items, {spaces[i]}))
    ensures BuiltTables(items, pricing, spaces, i + 1, out + table, tables + [table])
  {
    DoneStep(spaces, i);
    BuiltStep(items, pricing, IdSet(spaces[..i]), out, spaces[i], table);
    TablesMore(items, pricing, tables, spaces[..i], table, spaces[i]);
    ConcatAppend(tables, table);
  }

  /** The spaces of the cart in their places. */
  method PlaceSpaces(items: seq<CartItem>, spaces: set<Id>, place: Id -> int) returns (sorted: seq<Id>)
    requires spaces == SpacesOf(items)
    ensures InPlace(sorted, items, place)
  {
    var ids := Enumerate(spaces);
    sorted := SortBy(place, ids);
    SortBySorts(place, ids);
    DistinctPermutation(ids, sorted);
    SamePlaces(ids, sorted);
  }

  /** for g in groups: the rows of its table. */
  method BuildTables(
    items: seq<CartItem>, bySpace: map<Id, seq<CartItem>>, pricing: map<Id, CatalogPrices>, spaces: seq<Id>
  )
    returns (out: seq<OrderRow>, ghost tables: seq<seq<OrderRow>>)
    requires bySpace.Keys == IdSet(spaces) && Grouped(BySpace(items), bySpace)
    requires forall j, k | 0 <= j < k < |spaces| :: spaces[j] != spaces[k]
    ensures BuiltTables(items, pricing, spaces, |spaces|, out, tables)
  {
    tables, out := [], [];
    NothingBuilt(items, pricing, spaces);
    for i := 0 to |spaces|
      invariant BuiltTables(items, pricing, spaces, i, out, tables)
    {
      assert spaces[i] in IdSet(spaces);
      var rows := SpaceTable(items, spaces[i], bySpace, pricing);
      BuiltTablesStep(items, pricing, spaces, i, out, tables, rows);
      tables := tables + [rows];
      out := out + rows;
    }
  }

  lemma TablesComplete(items: seq<CartItem>, pricing: map<Id, CatalogPrices>, spaces: seq<Id>, out: seq<OrderRow>,
                       tables: seq<seq<OrderRow>>)
    requires BuiltTables(items, pricing, spaces, |spaces|, out, tables) && IdSet(spaces) == SpacesOf(items)
    ensures TablesOf(tables, spaces, items, pricing) && out == Concat(tables) && DistinctIds(out)
    ensures RowsTotal(out) == TableSubtotal(items, pricing)
  {
    assert spaces[..|spaces|] == spaces;
    AllSpacesBuilt(items, pricing, out);
  }

  lemma NothingBuilt(items: seq<CartItem>, pricing: map<Id, CatalogPrices>, spaces: seq<Id>)
    ensures BuiltTables(items, pricing, spaces, 0, [], [])
  {
    assert IdSet(spaces[..0]) == {};
    assert GroupsIn(items, {}) == {};
  }

  // ----- What the whole table shows -----

  /** The cart's spaces, each once and in its place, and their tables, one after the other. */
  ghost predicate IsDetail(out: seq<OrderRow>, spaces: seq<Id>, tables: seq<seq<OrderRow>>, items: seq<CartItem>,
                           pricing: map<Id, CatalogPrices>, place: Id -> int)
  {
    InPlace(spaces, items, place) && TablesOf(tables, spaces, items, pricing) && out == Concat(tables)
  }

  /** The segments of every space of the cart cover all its time. */
  ghost predicate AllTimeCharged(items: seq<CartItem>, pricing: map<Id, CatalogPrices>) {
    forall it | it in items :: ChargesAllTime(PricesOf(pricing, it.space))
  }

  lemma SpaceOfItem(items: seq<CartItem>, space: Id)
    ensures space in SpacesOf(items) <==> exists it :: it in items && it.space == space
  {
    if space in SpacesOf(items) {
      var i :| 0 <= i < |items| && items[i].space == space;
      assert items[i] in items;
    }
    if it :| it in items && it.space == space {
      var i :| 0 <= i < |items| && items[i] == it;
      assert items[i].space in SpacesOf(items);
    }
  }

  /** The items of a space in order, each an item of the cart. */
  lemma SortedItemsAre(items: seq<CartItem>, space: Id)
    ensures multiset(SortedItems(items, space)) == multiset(SpaceItems(items, space))
    ensures forall it | it in SortedItems(items, space) :: it in items && it.space == space
  {
    SortBySorts(SlotKey, SpaceItems(items, space));
    forall it | it in SortedItems(items, space)
      ensures it in items && it.space == space
    {
      assert it in multiset(SpaceItems(items, space));
      FilterMembers(InSpace(space), items, it);
    }
  }

  lemma SortedHourItems(items: seq<CartItem>, space: Id)
    requires HourItems(items)
    ensures HourItems(SortedItems(items, space))
  {
    SortedItemsAre(items, space);
    var sorted := SortedItems(items, space);
    forall i | 0 <= i < |sorted|
      ensures HourLong(sorted[i].iv)
    {
      var j :| 0 <= j < |items| && items[j] == sorted[i];
    }
  }

  /** The table of one space shows the hours of its items. */
  lemma SpaceHours(table: seq<OrderRow>, space: Id, items: seq<CartItem>, pricing: map<Id, CatalogPrices>)
    requires IsSpaceTable(table, space, SortedItems(items, space), PricesOf(pricing, space))
    requires HourItems(items) && ChargesAllTime(PricesOf(pricing, space))
    ensures 60 * HoursShown(table) == 100 * PartSum(ItemMinutes, InSpace, items)(space)
  {
    SortedHourItems(items, space);
    SpaceTableShowsHours(table, space, SortedItems(items, space), PricesOf(pricing, space));
    SortedItemsAre(items, space);
    SumMapPermutation(ItemMinutes, SortedItems(items, space), SpaceItems(items, space));
  }

  lemma FewerTables(
    tables: seq<seq<OrderRow>>, spaces: seq<Id>, items: seq<CartItem>, pricing: map<Id, CatalogPrices>, n: nat
  )
    requires TablesOf(tables, spaces, items, pricing) && n <= |tables|
    ensures TablesOf(tables[..n], spaces[..n], items, pricing)
  {
  }

  lemma HoursOfLastTable(tables: seq<seq<OrderRow>>)
    requires tables != []
    ensures
      var n := |tables| - 1;
      HoursShown(Concat(tables)) == HoursShown(Concat(tables[..n])) + HoursShown(tables[n])
  {
    var n := |tables| - 1;
    SumMapConcat(RowHours, Concat(tables[..n]), tables[n]);
  }

  lemma PartOfLastSpace(items: seq<CartItem>, spaces: seq<Id>)
    requires spaces != []
    ensures
      var n, part := |spaces| - 1, PartSum(ItemMinutes, InSpace, items);
      Sum(MapSeq(part, spaces)) == Sum(MapSeq(part, spaces[..n])) + part(spaces[n])
  {
    var n := |spaces| - 1;
    SumMapAppend(PartSum(ItemMinutes, InSpace, items), spaces[..n], spaces[n]);
    assert spaces == spaces[..n] + [spaces[n]];
  }

  lemma {:induction false} SpacesHours(
    tables: seq<seq<OrderRow>>, spaces: seq<Id>, items: seq<CartItem>, pricing: map<Id, CatalogPrices>
  )
    requires TablesOf(tables, spaces, items, pricing) && HourItems(items)
    requires forall i | 0 <= i < |spaces| :: ChargesAllTime(PricesOf(pricing, spaces[i]))
    ensures 60 * HoursShown(Concat(tables)) == 100 * Sum(MapSeq(PartSum(ItemMinutes, InSpace, items), spaces))
    decreases |tables|
  {
    if tables != [] {
      var n := |tables| - 1;
      FewerTables(tables, spaces, items, pricing, n);
      SpacesHours(tables[..n], spaces[..n], items, pricing);
      SpaceHours(tables[n], spaces[n], items, pricing);
      HoursOfLastTable(tables);
      PartOfLastSpace(items, spaces);
    } else {
      assert MapSeq(RowHours, Concat(tables)) == [];
      assert MapSeq(PartSum(ItemMinutes, InSpace, items), spaces) == [];
    }
  }

  lemma ItemsBySpace(items: seq<CartItem>, spaces: seq<Id>, place: Id -> int)
    requires InPlace(spaces, items, place)
    ensures Parted(InSpace, items, spaces)
  {
    forall it | it in items
      ensures HasPart(InSpace, spaces, it)
    {
      SpaceOfItem(items, it.space);
      assert it.space in IdSet(spaces);
      var i: nat :| i < |spaces| && spaces[i] == it.space;
      assert OnlyPart(InSpace, spaces, it, i);
    }
  }

  /** The table shows exactly the hours of the cart: quantities times the hours of their units add up to the
      lengths of the slots, for slots of whole hours in spaces whose segments cover all their time. */
  lemma DetailShowsHours(out: seq<OrderRow>, spaces: seq<Id>, tables: seq<seq<OrderRow>>, items: seq<CartItem>,
                         pricing: map<Id, CatalogPrices>, place: Id -> int)
    requires IsDetail(out, spaces, tables, items, pricing, place)
    requires HourItems(items) && AllTimeCharged(items, pricing)
    ensures 60 * HoursShown(out) == 100 * CartMinutes(items)
  {
    forall i | 0 <= i < |spaces|
      ensures ChargesAllTime(PricesOf(pricing, spaces[i]))
    {
      assert spaces[i] in IdSet(spaces);
      SpaceOfItem(items, spaces[i]);
    }
    SpacesHours(tables, spaces, items, pricing);
    ItemsBySpace(items, spaces, place);
    SumOfParts(ItemMinutes, InSpace, items, spaces);
  }

  lemma {:induction false} InSomeTable(tables: seq<seq<OrderRow>>, r: OrderRow) returns (i: nat)
    requires r in Concat(tables)
    ensures i < |tables| && r in tables[i]
    decreases |tables|
  {
    var n := |tables| - 1;
    if r in Concat(tables[..n]) {
      i := InSomeTable(tables[..n], r);
    } else {
      i := n;
    }
  }

  lemma DateOfItem(items: seq<CartItem>, space: Id, d: int)
    requires d in Dates(SortedItems(items, space))
    ensures exists it :: it in items && it.space == space && it.fecha == d
  {
    var sorted := SortedItems(items, space);
    var j :| 0 <= j < |sorted| && sorted[j].fecha == d;
    SortedItemsAre(items, space);
    assert sorted[j] in items;
  }

  /** What a row shows: a space and a date of the cart, a single date if it is an hourly row; for whole hours of a
      priced space an exact total at the catalog's unit price, and without prices the mean price. */
  ghost predicate Reads(r: OrderRow, items: seq<CartItem>, pricing: map<Id, CatalogPrices>) {
    && (exists it :: it in items && it.space == r.id.space && it.fecha == r.firstDate)
    && Dated(r)
    && (r.id.space in pricing && HourItems(items) ==> Priced(r, pricing[r.id.space]))
    && (r.id.space !in pricing ==> MeanPriced(r))
  }

  lemma DetailReads(out: seq<OrderRow>, spaces: seq<Id>, tables: seq<seq<OrderRow>>, items: seq<CartItem>,
                    pricing: map<Id, CatalogPrices>, place: Id -> int, r: OrderRow)
    requires IsDetail(out, spaces, tables, items, pricing, place) && r in out
    ensures Reads(r, items, pricing)
  {
    var i := InSomeTable(tables, r);
    var space := spaces[i];
    if HourItems(items) { SortedHourItems(items, space); }
    SpaceTableReads(tables[i], space, SortedItems(items, space), PricesOf(pricing, space), r);
    DateOfItem(items, space, r.firstDate);
  }

  predicate SamePack(a: OrderRow, b: OrderRow) {
    a.id.space == b.id.space && a.id.kind == b.id.kind != Hour
  }

  /** No two rows of packs of one space show the same kind at the same unit price. */
  ghost predicate OneRowEach(out: seq<OrderRow>) {
    forall i, j | 0 <= i < j < |out| && SamePack(out[i], out[j]) ::
      out[i].id.unit != out[j].id.unit
  }

  lemma DetailIsRight(out: seq<OrderRow>, spaces: seq<Id>, tables: seq<seq<OrderRow>>, items: seq<CartItem>,
                      pricing: map<Id, CatalogPrices>, place: Id -> int)
    requires IsDetail(out, spaces, tables, items, pricing, place) && DistinctIds(out)
    ensures forall r | r in out :: Reads(r, items, pricing)
    ensures HourItems(items) && AllTimeCharged(items, pricing) ==> 60 * HoursShown(out) == 100 * CartMinutes(items)
    ensures OneRowEach(out)
  {
    forall r | r in out
      ensures Reads(r, items, pricing)
    {
      DetailReads(out, spaces, tables, items, pricing, place, r);
    }
    if HourItems(items) && AllTimeCharged(items, pricing) {
      DetailShowsHours(out, spaces, tables, items, pricing, place);
    }
    forall i, j | 0 <= i < j < |out| && SamePack(out[i], out[j])
      ensures out[i].id.unit != out[j].id.unit
    {
      assert Reads(out[i], items, pricing) && Reads(out[j], items, pricing);
      OneRowPerPack(out, i, j);
    }
  }

  /** build_order_table_rows, given the place of each space by name and id: the tables of the spaces in their
      places. Whatever the order of the items, every row has a key of its own and reads as it should, the totals add
      up to the charges of the blocks of the cart, and the quantities to its hours. */
  method BuildOrderTableRows(items: seq<CartItem>, pricing: map<Id, CatalogPrices>, place: Id -> int)
    returns (out: seq<OrderRow>, ghost spaces: seq<Id>, ghost tables: seq<seq<OrderRow>>)
    ensures IsDetail(out, spaces, tables, items, pricing, place)
    ensures forall r | r in out :: Reads(r, items, pricing)
    ensures HourItems(items) && AllTimeCharged(items, pricing) ==> 60 * HoursShown(out) == 100 * CartMinutes(items)
    ensures OneRowEach(out)
    ensures DistinctIds(out) && RowsTotal(out) == TableSubtotal(items, pricing)
  {
    var bySpace := GroupBySpace(items);
    var sorted := PlaceSpaces(items, bySpace.Keys, place);
    spaces := sorted;
    out, tables := BuildTables(items, bySpace, pricing, sorted);
    TablesComplete(items, pricing, sorted, out, tables);
    DetailIsRight(out, spaces, tables, items, pricing, place);
  }
}
