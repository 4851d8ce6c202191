/** The rows of the "Detalle de Espacios" table of `booking/order_table_rows.py`: blocks decomposed into packages,
    and the segments of each space aggregated into rows. */
module OrderTable {
  import opened Common
  import opened Lists
  import opened Rounding
  import opened Blocks
  import opened Packages
  import opened Wizard
  import opened OrderBlocks

  // ----- Rows -----

  /** The key of a row. Packages aggregate over the whole event, loose hours per date. */
  datatype RowId = RowId(space: Id, kind: Kind, unit: int, fecha: Option<int>)

  /** A row of the table: quantities in hundredths, prices in pesos. */
  datatype OrderRow = OrderRow(id: RowId, unit: int, qty: int, total: int, firstDate: int)

  function RowTotal(r: OrderRow): int {
    r.total
  }

  function RowQty(r: OrderRow): int {
    r.qty
  }

  function RowsTotal(rows: seq<OrderRow>): int {
    Sum(MapSeq(RowTotal, rows))
  }

  /** No two rows have the same key, and all are of one space. */
  ghost predicate Keyed(rows: seq<OrderRow>, space: Id) {
    && (forall i | 0 <= i < |rows| :: rows[i].id.space == space)
    && DistinctIds(rows)
  }

  ghost predicate DistinctIds(rows: seq<OrderRow>) {
    forall i, j | 0 <= i < j < |rows| :: rows[i].id != rows[j].id
  }

  lemma RowAppended(rows: seq<OrderRow>, r: OrderRow)
    requires Keyed(rows, r.id.space) && forall i | 0 <= i < |rows| :: rows[i].id != r.id
    ensures Keyed(rows + [r], r.id.space) && RowsTotal(rows + [r]) == RowsTotal(rows) + r.total
  {
    SumMapAppend(RowTotal, rows, r);
  }

  lemma RowUpdated(rows: seq<OrderRow>, i: nat, r: OrderRow)
    requires Keyed(rows, r.id.space) && i < |rows| && rows[i].id == r.id
    ensures Keyed(rows[i := r], r.id.space) && RowsTotal(rows[i := r]) == RowsTotal(rows) + r.total - rows[i].total
  {
    assert MapSeq(RowTotal, rows[i := r]) == MapSeq(RowTotal, rows)[i := r.total];
    SumUpdate(MapSeq(RowTotal, rows), i, r.total);
  }

  /** The row of a key after one more segment: more of both columns, the mean price, the earlier date. */
  function Joined(r: OrderRow, qty: int, total: int, fecha: int): OrderRow {
    OrderRow(r.id, if r.qty + qty > 0 then RoundHalfEven((r.total + total) * 100, r.qty + qty) else r.unit,
             r.qty + qty, r.total + total, if fecha < r.firstDate then fecha else r.firstDate)
  }

  /** The dictionary of rows after one more segment: a new row, or the one row of the key joined. */
  ghost predicate RowAdded(rows: seq<OrderRow>, out: seq<OrderRow>, id: RowId, qty: int, total: int, fecha: int) {
    if forall i | 0 <= i < |rows| :: rows[i].id != id then out == rows + [OrderRow(id, id.unit, qty, total, fecha)]
    else exists i :: 0 <= i < |rows| && rows[i].id == id && out == rows[i := Joined(rows[i], qty, total, fecha)]
  }

  /** Insert a segment in the dictionary of rows: a new row, or more of an existing one. */
  method AddSegment(rows: seq<OrderRow>, id: RowId, qty: int, total: int, fecha: int) returns (out: seq<OrderRow>)
    requires Keyed(rows, id.space)
    ensures Keyed(out, id.space) && RowAdded(rows, out, id, qty, total, fecha)
    ensures RowsTotal(out) == RowsTotal(rows) + total
  {
    var i := 0;
    while i < |rows| && rows[i].id != id
      invariant 0 <= i <= |rows| && forall j | 0 <= j < i :: rows[j].id != id
    {
      i := i + 1;
    }
    if i == |rows| {
      var row := OrderRow(id, id.unit, qty, total, fecha);
      RowAppended(rows, row);
      return rows + [row];
    }
    var prev := rows[i];
    var cantidad := prev.qty + qty;
    var sum := prev.total + total;
    var unit := if cantidad > 0 then RoundHalfEven(sum * 100, cantidad) else prev.unit;
    var row := OrderRow(id, unit, cantidad, sum, if fecha < prev.firstDate then fecha else prev.firstDate);
    RowUpdated(rows, i, row);
    out := rows[i := row];
  }

  /** allocate_totals_mxn: proportional shares in pesos, the last one taking the rest. */
  method AllocateTotalsMxn(total: int, weights: seq<int>) returns (out: seq<int>)
    ensures out == Shares(total, weights)
  {
    if weights == [] {
      return [];
    }
    var sum := Sum(weights);
    if sum <= 0 {
      return seq(|weights|, _ => 0);
    }
    var acc := 0;
    out := [];
    ghost var parts := Parts(total, weights[..|weights| - 1], sum);
    for i := 0 to |weights| - 1
      invariant out == parts[..i] && acc == Sum(out)
    {
      var t := RoundHalfEven(total * weights[i], sum);
      assert parts[..i + 1] == parts[..i] + [t];
      assert (out + [t])[..i] == out;
      out := out + [t];
      acc := acc + t;
    }
    assert parts[..|weights| - 1] == parts;
    out := out + [total - acc];
  }

  /** The segments of a block, as the table decomposes it. */
  method BlockSegments(minutes: nat, prices: Option<CatalogPrices>) returns (segments: seq<Segment>)
    ensures segments == SegmentsOf(minutes, prices)
  {
    match prices {
      case Some(p) =>
        if p.doceHoras > 0 || p.seisHoras > 0 {
          segments := DecomposeIntoPackages(minutes, p);
        } else {
          segments := DecomposeByTimeOnly(minutes);
        }
      case None =>
        segments := DecomposeByTimeOnly(minutes);
    }
    if segments == [] {
      segments := [Segment(Hour, if minutes > 60 then minutes else 60)];
    }
  }

  function Quantities(segments: seq<Segment>): (r: seq<int>)
    ensures |r| == |segments| && forall i {:trigger r[i]} | 0 <= i < |r| :: r[i] == segments[i].qty
  {
    seq(|segments|, i requires 0 <= i < |segments| => segments[i].qty)
  }

  /** Every segment of an unpriced block has a positive quantity. */
  lemma SegmentsArePositive(minutes: nat)
    ensures SegmentsOf(minutes, None) != []
    ensures forall i | 0 <= i < |SegmentsOf(minutes, None)| :: SegmentsOf(minutes, None)[i].qty > 0
  {
  }

  /** The charges of a block's segments: their prices, or shares of the block's price by quantity. */
  function ChargesOf(block: TableBlock, segments: seq<Segment>, prices: Option<CatalogPrices>): (r: seq<int>)
    ensures |r| == |segments|
  {
    match prices
    case Some(p) => SegmentTotals(segments, p)
    case None => Shares(block.precio, Quantities(segments))
  }

  /** What the segments of a block are charged, one by one: together, the charge of the block. */
  method SegmentCharges(
    block: TableBlock, segments: seq<Segment>, prices: Option<CatalogPrices>
  ) returns (totals: seq<int>)
    requires segments == SegmentsOf(BlockMinutes(block.iv), prices)
    ensures totals == ChargesOf(block, segments, prices) && Sum(totals) == BlockTotal(block, prices)
  {
    match prices
    case Some(p) => totals := SegmentTotals(segments, p);
    case None =>
      totals := AllocateTotalsMxn(block.precio, Quantities(segments));
      SegmentsArePositive(BlockMinutes(block.iv));
      PositiveWeights(Quantities(segments));
      SharesConserve(block.precio, Quantities(segments));
  }

  /** The row one segment would have alone. */
  function SegmentRow(space: Id, fecha: int, s: Segment, total: int, prices: Option<CatalogPrices>): OrderRow {
    var qty := RoundHalfEven(s.qty * 100, 60);
    var unit := match prices
      case Some(p) => UnitPrice(s.kind, p)
      case None => if qty > 0 then RoundHalfEven(total * 100, qty) else total;
    OrderRow(RowId(space, s.kind, unit, if s.kind == Hour then Some(fecha) else None), unit, qty, total, fecha)
  }

  function SegmentRows(
    space: Id, fecha: int, segments: seq<Segment>, totals: seq<int>, prices: Option<CatalogPrices>
  ): seq<OrderRow>
    requires |segments| == |totals|
    decreases |segments|
  {
    if segments == [] then []
    else
      var n := |segments| - 1;
      SegmentRows(space, fecha, segments[..n], totals[..n], prices) +
        [SegmentRow(space, fecha, segments[n], totals[n], prices)]
  }

  /** The segments of a block, a row for each. */
  function BlockRows(space: Id, block: TableBlock, prices: Option<CatalogPrices>): seq<OrderRow> {
    var segments := SegmentsOf(BlockMinutes(block.iv), prices);
    SegmentRows(space, block.fecha, segments, ChargesOf(block, segments, prices), prices)
  }

  function HasId(k: RowId): OrderRow -> bool {
    (r: OrderRow) => r.id == k
  }

  /** The segments of one key. */
  function Own(segments: seq<OrderRow>, k: RowId): seq<OrderRow> {
    FilterSeq(HasId(k), segments)
  }

  ghost predicate Earliest(d: int, own: seq<OrderRow>) {
    (forall i | 0 <= i < |own| :: d <= own[i].firstDate) && exists i :: 0 <= i < |own| && d == own[i].firstDate
  }

  /** The row of these segments: their quantities and totals, the earliest date, and the price of the only one
      or the mean price of several. */
  ghost predicate RowOf(r: OrderRow, own: seq<OrderRow>) {
    && own != []
    && r.qty == Sum(MapSeq(RowQty, own)) > 0
    && r.total == Sum(MapSeq(RowTotal, own))
    && Earliest(r.firstDate, own)
    && r.unit == if |own| == 1 then own[0].unit else RoundHalfEven(r.total * 100, r.qty)
  }

  ghost predicate HasRow(rows: seq<OrderRow>, k: RowId) {
    exists r :: r in rows && r.id == k
  }

  /** The rows aggregate the segments: each is the row of the segments of its key, and every key has its row. */
  ghost predicate Aggregates(rows: seq<OrderRow>, segments: seq<OrderRow>) {
    && (forall r | r in rows :: RowOf(r, Own(segments, r.id)))
    && (forall s | s in segments :: HasRow(rows, s.id))
  }

  lemma OwnStep(segments: seq<OrderRow>, s: OrderRow, k: RowId)
    ensures Own(segments + [s], k) == if s.id == k then Own(segments, k) + [s] else Own(segments, k)
  {
    FilterConcat(HasId(k), segments, [s]);
    FilterOne(HasId(k), s);
  }

  lemma {:induction false} NoneOwn(segments: seq<OrderRow>, k: RowId)
    requires forall s | s in segments :: s.id != k
    ensures Own(segments, k) == []
    decreases |segments|
  {
    if segments != [] {
      var n := |segments| - 1;
      NoneOwn(segments[..n], k);
      OwnStep(segments[..n], segments[n], k);
      assert segments == segments[..n] + [segments[n]];
    }
  }

  /** A key without a row has no segments. */
  lemma OwnOfNew(rows: seq<OrderRow>, segments: seq<OrderRow>, k: RowId)
    requires Aggregates(rows, segments) && forall i | 0 <= i < |rows| :: rows[i].id != k
    ensures Own(segments, k) == []
  {
    forall s | s in segments
      ensures s.id != k
    {
      assert HasRow(rows, s.id);
    }
    NoneOwn(segments, k);
  }

  lemma RowOfOne(s: OrderRow)
    requires s.qty > 0
    ensures RowOf(s, [s])
  {
    assert MapSeq(RowQty, [s])[..0] == [] && MapSeq(RowTotal, [s])[..0] == [];
    assert [s][0] == s;
  }

  lemma RowOfMore(r: OrderRow, own: seq<OrderRow>, s: OrderRow)
    requires RowOf(r, own) && s.qty > 0
    ensures RowOf(Joined(r, s.qty, s.total, s.firstDate), own + [s])
  {
    SumMapAppend(RowQty, own, s);
    SumMapAppend(RowTotal, own, s);
    EarliestMore(r.firstDate, own, s);
  }

  lemma EarliestMore(d: int, own: seq<OrderRow>, s: OrderRow)
    requires Earliest(d, own)
    ensures Earliest(if s.firstDate < d then s.firstDate else d, own + [s])
  {
    var i :| 0 <= i < |own| && d == own[i].firstDate;
    assert (own + [s])[i] == own[i] && (own + [s])[|own|] == s;
  }

  lemma NewRowOwns(rows: seq<OrderRow>, segments: seq<OrderRow>, s: OrderRow)
    requires Aggregates(rows, segments) && s.qty > 0 && forall i | 0 <= i < |rows| :: rows[i].id != s.id
    ensures RowOf(s, Own(segments + [s], s.id))
  {
    OwnOfNew(rows, segments, s.id);
    OwnStep(segments, s, s.id);
    assert Own(segments + [s], s.id) == [s];
    RowOfOne(s);
  }

  lemma NewRowAggregates(rows: seq<OrderRow>, segments: seq<OrderRow>, s: OrderRow)
    requires Aggregates(rows, segments) && s.qty > 0 && forall i | 0 <= i < |rows| :: rows[i].id != s.id
    ensures Aggregates(rows + [s], segments + [s])
  {
    NewRowOwns(rows, segments, s);
    forall r | r in rows
      ensures RowOf(r, Own(segments + [s], r.id))
    {
      OwnStep(segments, s, r.id);
    }
    StillHasRow(rows, segments, rows + [s], s);
  }

  lemma StillHasRow(rows: seq<OrderRow>, segments: seq<OrderRow>, out: seq<OrderRow>, s: OrderRow)
    requires Aggregates(rows, segments) && HasRow(out, s.id)
    requires forall r | r in rows :: HasRow(out, r.id)
    ensures forall x | x in segments + [s] :: HasRow(out, x.id)
  {
    forall x | x in segments + [s]
      ensures HasRow(out, x.id)
    {
      if x in segments {
        var r :| r in rows && r.id == x.id;
      }
    }
  }

  lemma JoinedRowAggregates(rows: seq<OrderRow>, segments: seq<OrderRow>, i: nat, s: OrderRow)
    requires Aggregates(rows, segments) && s.qty > 0 && i < |rows| && rows[i].id == s.id && DistinctIds(rows)
    ensures Aggregates(rows[i := Joined(rows[i], s.qty, s.total, s.firstDate)], segments + [s])
  {
    var joined := Joined(rows[i], s.qty, s.total, s.firstDate);
    var out := rows[i := joined];
    RowOfMore(rows[i], Own(segments, s.id), s);
    forall j | 0 <= j < |out|
      ensures RowOf(out[j], Own(segments + [s], out[j].id))
    {
      OwnStep(segments, s, out[j].id);
      assert j != i ==> out[j] == rows[j] && rows[j] in rows && rows[j].id != s.id;
    }
    forall j | 0 <= j < |rows|
      ensures HasRow(out, rows[j].id)
    {
      assert out[j] in out && out[j].id == rows[j].id;
    }
    StillHasRow(rows, segments, out, s);
  }

  lemma SegmentAggregates(rows: seq<OrderRow>, segments: seq<OrderRow>, s: OrderRow, out: seq<OrderRow>)
    requires Aggregates(rows, segments) && DistinctIds(rows) && s.qty > 0 && s.unit == s.id.unit
    requires RowAdded(rows, out, s.id, s.qty, s.total, s.firstDate)
    ensures Aggregates(out, segments + [s])
  {
    if forall i | 0 <= i < |rows| :: rows[i].id != s.id {
      NewRowAggregates(rows, segments, s);
    } else {
      var i :| 0 <= i < |rows| && rows[i].id == s.id && out == rows[i := Joined(rows[i], s.qty, s.total, s.firstDate)];
      JoinedRowAggregates(rows, segments, i, s);
    }
  }

  lemma SegmentRowsStep(
    space: Id, fecha: int, segments: seq<Segment>, totals: seq<int>, prices: Option<CatalogPrices>, i: nat
  )
    requires |segments| == |totals| && i < |segments|
    ensures SegmentRows(space, fecha, segments[..i + 1], totals[..i + 1], prices) ==
            SegmentRows(space, fecha, segments[..i], totals[..i], prices) +
              [SegmentRow(space, fecha, segments[i], totals[i], prices)]
  {
    assert segments[..i + 1][..i] == segments[..i] && totals[..i + 1][..i] == totals[..i];
  }

  lemma TotalsStep(totals: seq<int>, i: nat)
    requires i < |totals|
    ensures Sum(totals[..i + 1]) == Sum(totals[..i]) + totals[i]
  {
    assert totals[..i + 1][..i] == totals[..i];
  }

  lemma PositiveQty(qty: nat)
    requires qty > 0
    ensures RoundHalfEven(qty * 100, 60) > 0
  {
    RoundMonotonic(100, qty * 100, 60);
    Quotient(100, 60, 1, 40);
  }

  /** One segment: find its key and add it to its row. `before` are the segments added so far. */
  method AddSegmentRow(
    rows: seq<OrderRow>, space: Id, fecha: int, s: Segment, total: int, prices: Option<CatalogPrices>,
    ghost before: seq<OrderRow>
  )
    returns (out: seq<OrderRow>)
    requires Keyed(rows, space) && Aggregates(rows, before) && s.qty > 0
    ensures Keyed(out, space) && RowsTotal(out) == RowsTotal(rows) + total
    ensures Aggregates(out, before + [SegmentRow(space, fecha, s, total, prices)])
  {
    var qty := RoundHalfEven(s.qty * 100, 60);
    var unit := match prices
      case Some(p) => UnitPrice(s.kind, p)
      case None => if qty > 0 then RoundHalfEven(total * 100, qty) else total;
    var id := RowId(space, s.kind, unit, if s.kind == Hour then Some(fecha) else None);
    out := AddSegment(rows, id, qty, total, fecha);
    PositiveQty(s.qty);
    SegmentAggregates(rows, before, SegmentRow(space, fecha, s, total, prices), out);
  }

  lemma Regroup<T>(a: seq<T>, b: seq<T>, x: T)
    ensures a + b + [x] == a + (b + [x]) && a + [] == a
  {
  }

  /** for idx, seg in enumerate(segments): add it to its row. */
  method AddSegments(rows: seq<OrderRow>, space: Id, fecha: int, segments: seq<Segment>, totals: seq<int>,
                     prices: Option<CatalogPrices>, ghost before: seq<OrderRow>)
    returns (out: seq<OrderRow>)
    requires Keyed(rows, space) && |segments| == |totals| && Aggregates(rows, before)
    requires forall i | 0 <= i < |segments| :: segments[i].qty > 0
    ensures Keyed(out, space) && RowsTotal(out) == RowsTotal(rows) + Sum(totals)
    ensures Aggregates(out, before + SegmentRows(space, fecha, segments, totals, prices))
  {
    out := rows;
    ghost var added: seq<OrderRow> := [];
    assert before + added == before;
    for i := 0 to |segments|
      invariant Keyed(out, space) && RowsTotal(out) == RowsTotal(rows) + Sum(totals[..i])
      invariant Aggregates(out, before + added) &&
                added == SegmentRows(space, fecha, segments[..i], totals[..i], prices)
    {
      TotalsStep(totals, i);
      SegmentRowsStep(space, fecha, segments, totals, prices, i);
      out := AddSegmentRow(out, space, fecha, segments[i], totals[i], prices, before + added);
      Regroup(before, added, SegmentRow(space, fecha, segments[i], totals[i], prices));
      added := added + [SegmentRow(space, fecha, segments[i], totals[i], prices)];
    }
    assert totals[..|segments|] == totals && segments[..|segments|] == segments;
  }

  /** Every segment of a block has a positive quantity. */
  lemma SegmentsOfBlock(minutes: nat, prices: Option<CatalogPrices>)
    ensures forall i | 0 <= i < |SegmentsOf(minutes, prices)| :: SegmentsOf(minutes, prices)[i].qty > 0
  {
    match prices
    case None =>
    case Some(p) =>
      PackagesArePositive(minutes, p);
      DaysArePositive(minutes, true, true, true);
  }

  lemma PackIsPositive(kind: Kind, n: nat)
    ensures forall s | s in PackSegment(kind, n) :: s.qty > 0
  {
  }

  lemma DaysArePositive(minutes: nat, twelve: bool, six: bool, charged: bool)
    ensures forall s | s in DaySegments(minutes, twelve, six, charged) :: s.qty > 0
  {
  }

  lemma PackagesArePositive(minutes: nat, p: CatalogPrices)
    ensures forall s | s in PackageSegments(minutes, p) :: s.qty > 0
  {
    PackIsPositive(Month, Months(minutes, p));
    PackIsPositive(Week, Weeks(minutes, p));
    DaysArePositive(Remainder(minutes, p), p.doceHoras > 0, p.seisHoras > 0, p.porHora > 0);
  }

  /** The rows of one block. `before` are the segments of the blocks before it. */
  method AddBlock(rows: seq<OrderRow>, space: Id, block: TableBlock, prices: Option<CatalogPrices>,
                  ghost before: seq<OrderRow>)
    returns (out: seq<OrderRow>)
    requires Keyed(rows, space) && Aggregates(rows, before)
    ensures Keyed(out, space) && RowsTotal(out) == RowsTotal(rows) + BlockTotal(block, prices)
    ensures Aggregates(out, before + BlockRows(space, block, prices))
  {
    var segments := BlockSegments(BlockMinutes(block.iv), prices);
    var totals := SegmentCharges(block, segments, prices);
    SegmentsOfBlock(BlockMinutes(block.iv), prices);
    out := AddSegments(rows, space, block.fecha, segments, totals, prices, before);
  }

  function Rank(kind: Kind): nat {
    match kind
    case Month => 0
    case Week => 1
    case H12 => 2
    case H6 => 3
    case Hour => 4
  }

  /** Rows are shown by first date, then by kind of package. */
  function DisplayKey(r: OrderRow): int {
    r.firstDate * 8 + Rank(r.id.kind)
  }

  lemma {:induction false} KeyedAsMultiset(rows: seq<OrderRow>, sorted: seq<OrderRow>, space: Id)
    requires Keyed(rows, space) && multiset(sorted) == multiset(rows)
    ensures Keyed(sorted, space)
    decreases |sorted|
  {
    if sorted != [] {
      var n := |sorted| - 1;
      var j := TakeOut(sorted, rows);
      var rest := rows[..j] + rows[j + 1..];
      KeyedAsMultiset(rest, sorted[..n], space);
      forall i | 0 <= i < n
        ensures sorted[i].id != sorted[n].id
      {
        assert sorted[..n][i] in multiset(rest);
      }
    }
  }

  /** The segments of all the blocks, a row for each. */
  function AllSegments(space: Id, blocks: seq<TableBlock>, prices: Option<CatalogPrices>): seq<OrderRow>
    decreases |blocks|
  {
    if blocks == [] then []
    else AllSegments(space, blocks[..|blocks| - 1], prices) + BlockRows(space, blocks[|blocks| - 1], prices)
  }

  lemma AllSegmentsStep(space: Id, blocks: seq<TableBlock>, prices: Option<CatalogPrices>, i: nat)
    requires i < |blocks|
    ensures AllSegments(space, blocks[..i + 1], prices) ==
            AllSegments(space, blocks[..i], prices) + BlockRows(space, blocks[i], prices)
  {
    assert blocks[..i + 1][..i] == blocks[..i];
  }

  /** for block in merged_blocks: add its rows. */
  method AddBlocks(space: Id, blocks: seq<TableBlock>, prices: Option<CatalogPrices>) returns (rows: seq<OrderRow>)
    ensures Keyed(rows, space) && RowsTotal(rows) == BlocksTotal(blocks, TotalOf(prices))
    ensures Aggregates(rows, AllSegments(space, blocks, prices))
  {
    rows := [];
    for i := 0 to |blocks|
      invariant Keyed(rows, space) && RowsTotal(rows) == BlocksTotal(blocks[..i], TotalOf(prices))
      invariant Aggregates(rows, AllSegments(space, blocks[..i], prices))
    {
      BlocksTotalStep(blocks, i, prices);
      AllSegmentsStep(space, blocks, prices, i);
      rows := AddBlock(rows, space, blocks[i], prices, AllSegments(space, blocks[..i], prices));
    }
    assert blocks[..|blocks|] == blocks;
  }

  lemma AggregatesSorted(rows: seq<OrderRow>, sorted: seq<OrderRow>, segments: seq<OrderRow>)
    requires Aggregates(rows, segments) && multiset(sorted) == multiset(rows)
    ensures Aggregates(sorted, segments)
  {
    forall r
      ensures r in rows <==> r in sorted
    {
      assert r in rows <==> r in multiset(rows);
      assert r in sorted <==> r in multiset(sorted);
    }
    forall s | s in segments
      ensures HasRow(sorted, s.id)
    {
      var r :| r in rows && r.id == s.id;
    }
  }

  lemma BlocksTotalStep(blocks: seq<TableBlock>, i: nat, prices: Option<CatalogPrices>)
    requires i < |blocks|
    ensures BlocksTotal(blocks[..i + 1], TotalOf(prices)) ==
            BlocksTotal(blocks[..i], TotalOf(prices)) + BlockTotal(blocks[i], prices)
  {
    assert blocks[..i + 1] == blocks[..i] + [blocks[i]];
    SumMapAppend(TotalOf(prices), blocks[..i], blocks[i]);
  }

  /** The table of one space: distinct keys in display order, aggregating the segments of its blocks. */
  ghost predicate IsSpaceTable(out: seq<OrderRow>, space: Id, items: seq<CartItem>, prices: Option<CatalogPrices>) {
    && Keyed(out, space) && SortedBy(DisplayKey, out)
    && exists blocks ::
         MergesDates(blocks, items) && SortedBy(BlockKey, blocks) && Aggregates(out, AllSegments(space, blocks, prices))
  }

  /** The rows of one space, in display order. */
  method SpaceRows(space: Id, items: seq<CartItem>, prices: Option<CatalogPrices>) returns (out: seq<OrderRow>)
    ensures IsSpaceTable(out, space, items, prices) && RowsTotal(out) == SumMap(PesosByDate(items, prices))
  {
    var blocks := MergeContiguousBlocks(items, prices);
    var rows := AddBlocks(space, blocks, prices);
    out := SortBy(DisplayKey, rows);
    SortBySorts(DisplayKey, rows);
    SumMapPermutation(RowTotal, out, rows);
    KeyedAsMultiset(rows, out, space);
    AggregatesSorted(rows, out, AllSegments(space, blocks, prices));
  }
}
