/** Pricing of the quote wizard (`crm/public_service.py`): slots are grouped by space and date, merged into
    blocks, priced by packages and the price allocated back to the slots. */
module Wizard {
  import opened Common
  import opened Lists
  import opened Rounding
  import opened Blocks
  import opened Packages

  /** A slot of the cart. The wizard ignores its price; the order table of an unpriced space uses it. */
  datatype CartItem = CartItem(space: Id, fecha: int, iv: Iv, precio: int)

  datatype Group = Group(space: Id, fecha: int)

  function GroupOf(it: CartItem): Group {
    Group(it.space, it.fecha)
  }

  function Groups(items: seq<CartItem>): set<Group> {
    set i | 0 <= i < |items| :: GroupOf(items[i])
  }

  /** The items of a group in input order, each with its index. */
  function RowsIn(items: seq<CartItem>, g: Group): seq<Row<int>>
    decreases |items|
  {
    if items == [] then []
    else
      var n := |items| - 1;
      RowsIn(items[..n], g) + (if GroupOf(items[n]) == g then [Row(items[n].iv, n)] else [])
  }

  /** _duration_hours: hundredths of an hour, half to even. */
  function Hundredths(minutes: int): int {
    RoundHalfEven(minutes * 100, 60)
  }

  function Duration(v: Iv): int {
    Hundredths(Length(v))
  }

  function BlockCents(b: Iv, r: PricingRule): int {
    if Duration(b) > 0 then PackageCents(Duration(b), r) else 0
  }

  function BlocksCents(blocks: seq<Iv>, r: PricingRule): int
    decreases |blocks|
  {
    if blocks == [] then 0
    else BlocksCents(blocks[..|blocks| - 1], r) + BlockCents(blocks[|blocks| - 1], r)
  }

  /** The package prices of the blocks of one group. */
  function GroupCents(items: seq<CartItem>, g: Group, r: PricingRule): int {
    BlocksCents(BlocksOf(Ivs(RowsIn(items, g))), r)
  }

  ghost function CentsByGroup(items: seq<CartItem>, rules: map<Group, PricingRule>): map<Group, int> {
    map g | g in Groups(items) && g in rules :: GroupCents(items, g, rules[g])
  }

  /** The total of a cart: the package prices of all its blocks. */
  ghost function WizardTotal(items: seq<CartItem>, rules: map<Group, PricingRule>): int {
    SumMap(CentsByGroup(items, rules))
  }

  predicate AllPositive(items: seq<CartItem>) {
    forall i | 0 <= i < |items| :: Length(items[i].iv) > 0
  }

  // ----- Rows -----

  lemma {:induction false} RowsInMembers(items: seq<CartItem>, g: Group, row: Row<int>)
    ensures row in RowsIn(items, g) <==>
            0 <= row.tag < |items| && GroupOf(items[row.tag]) == g && row.iv == items[row.tag].iv
    decreases |items|
  {
    if items != [] {
      RowsInMembers(items[..|items| - 1], g, row);
    }
  }

  ghost predicate DistinctTags(rows: seq<Row<int>>) {
    forall i, j | 0 <= i < j < |rows| :: rows[i].tag != rows[j].tag
  }

  lemma {:induction false} RowsInDistinct(items: seq<CartItem>, g: Group)
    ensures DistinctTags(RowsIn(items, g))
    decreases |items|
  {
    if items != [] {
      var n := |items| - 1;
      RowsInDistinct(items[..n], g);
      forall row { RowsInMembers(items[..n], g, row); }
    }
  }

  lemma {:induction false} DistinctAsMultiset(rows: seq<Row<int>>, sorted: seq<Row<int>>)
    requires DistinctTags(rows) && multiset(sorted) == multiset(rows)
    ensures DistinctTags(sorted)
    decreases |sorted|
  {
    if sorted != [] {
      var n := |sorted| - 1;
      var j := TakeOut(sorted, rows);
      DistinctAsMultiset(rows[..j] + rows[j + 1..], sorted[..n]);
      forall i | 0 <= i < n
        ensures sorted[i].tag != sorted[n].tag
      {
        assert sorted[..n][i] in multiset(rows[..j] + rows[j + 1..]);
      }
    }
  }

  // ----- One block -----

  /** The weights of a block: the durations of its slots. */
  function Weights(chain: seq<Row<int>>): (w: seq<int>)
    ensures |w| == |chain| && forall i {:trigger w[i]} | 0 <= i < |w| :: w[i] == Duration(chain[i].iv)
  {
    seq(|chain|, i requires 0 <= i < |chain| => Duration(chain[i].iv))
  }

  function SpanOf(chain: seq<Row<int>>): Iv
    requires chain != []
  {
    Iv(chain[0].iv.ini, chain[|chain| - 1].iv.fin)
  }

  /** Each slot of the block has its share of the block's package price. */
  ghost predicate Allocated(prices: seq<int>, chain: seq<Row<int>>, r: PricingRule) {
    && chain != []
    && forall j | 0 <= j < |chain| ::
         0 <= chain[j].tag < |prices| && prices[chain[j].tag] == Shares(BlockCents(SpanOf(chain), r), Weights(chain))[j]
  }

  lemma PartsStep(total: int, weights: seq<int>, sum: int, i: nat)
    requires sum > 0 && i < |weights|
    ensures
      var part := RoundHalfEven(total * weights[i], sum);
      && Parts(total, weights[..i + 1], sum) == Parts(total, weights[..i], sum) + [part]
      && Sum(Parts(total, weights[..i + 1], sum)) == Sum(Parts(total, weights[..i], sum)) + part
  {
    var parts := Parts(total, weights[..i + 1], sum);
    assert parts[..i] == Parts(total, weights[..i], sum);
  }

  /** _allocate_totals: proportional shares in cents, the last slot absorbing the rounding. */
  method AllocateTotals(total: int, weights: seq<int>) returns (out: seq<int>)
    ensures out == Shares(total, weights)
  {
    out := [];
    if weights == [] {
      return;
    }
    var sum := 0;
    for i := 0 to |weights|
      invariant sum == Sum(weights[..i])
    {
      assert weights[..i + 1][..i] == weights[..i];
      sum := sum + weights[i];
    }
    assert weights[..|weights|] == weights;
    if sum <= 0 {
      return seq(|weights|, _ => 0);
    }
    var acc, last := 0, |weights| - 1;
    for i := 0 to last
      invariant out == Parts(total, weights[..i], sum) && acc == Sum(out)
    {
      var part := RoundHalfEven(total * weights[i], sum);
      PartsStep(total, weights, sum, i);
      out := out + [part];
      acc := acc + part;
    }
    out := out + [total - acc];
  }

  /** A list of positive hours has positive weight. */
  lemma {:induction false} PositiveWeights(w: seq<int>)
    requires w != [] && forall i | 0 <= i < |w| :: w[i] > 0
    ensures Sum(w) > 0
    decreases |w|
  {
    if |w| > 1 {
      PositiveWeights(w[..|w| - 1]);
    } else {
      assert Sum(w[..0]) == 0;
    }
  }

  lemma PositiveDuration(v: Iv)
    requires Length(v) > 0
    ensures Duration(v) > 0
  {
  }

  lemma DurationIsLength(v: Iv)
    ensures Duration(v) > 0 <==> Length(v) > 0
  {
  }

  /** The block ends after it starts. */
  predicate HasLength(chain: seq<Row<int>>) {
    chain != [] && chain[0].iv.ini < chain[|chain| - 1].iv.fin
  }

  ghost predicate FirstHaveLength(blocks: seq<seq<Row<int>>>, k: nat) {
    k <= |blocks| && forall a | 0 <= a < k :: HasLength(blocks[a])
  }

  /** Price one block and write the shares at its indices. None when the block's duration is not positive. */
  method PriceBlock(prices: seq<int>, chain: seq<Row<int>>, r: PricingRule) returns (out: Option<seq<int>>)
    requires chain != [] && DistinctTags(chain) && forall j | 0 <= j < |chain| :: 0 <= chain[j].tag < |prices|
    ensures out.Some? <==> Duration(SpanOf(chain)) > 0
    ensures out.Some? ==> OnlyBlock(prices, out.value, chain) && Allocated(out.value, chain, r)
    ensures out.Some? && (forall j | 0 <= j < |chain| :: prices[chain[j].tag] == 0) ==>
              Sum(out.value) == Sum(prices) + Sum(Shares(BlockCents(SpanOf(chain), r), Weights(chain)))
  {
    var price := PackagePriceForDuration(Duration(SpanOf(chain)), r);
    if price == None {
      return None;
    }
    var shares := AllocateTotals(price.value, Weights(chain));
    var result := WriteShares(prices, chain, shares);
    out := Some(result);
  }

  /** for i, price in zip(block, allocated): prices[i] = price. */
  method WriteShares(prices: seq<int>, chain: seq<Row<int>>, shares: seq<int>) returns (out: seq<int>)
    requires |shares| == |chain| && DistinctTags(chain) && forall j | 0 <= j < |chain| :: 0 <= chain[j].tag < |prices|
    ensures OnlyBlock(prices, out, chain) && forall j | 0 <= j < |chain| :: out[chain[j].tag] == shares[j]
    ensures (forall j | 0 <= j < |chain| :: prices[chain[j].tag] == 0) ==> Sum(out) == Sum(prices) + Sum(shares)
  {
    out := prices;
    ghost var zero := forall j | 0 <= j < |chain| :: prices[chain[j].tag] == 0;
    for k := 0 to |chain|
      invariant |out| == |prices| && forall j | 0 <= j < k :: out[chain[j].tag] == shares[j]
      invariant forall i | 0 <= i < |prices| && (forall j | 0 <= j < k :: chain[j].tag != i) :: out[i] == prices[i]
      invariant zero ==> Sum(out) == Sum(prices) + Sum(shares[..k])
    {
      SumUpdate(out, chain[k].tag, shares[k]);
      assert shares[..k + 1][..k] == shares[..k];
      assert forall j | 0 <= j < k :: chain[j].tag != chain[k].tag;
      out := out[chain[k].tag := shares[k]];
    }
    assert shares[..|shares|] == shares;
  }

  // ----- One group -----

  /** The loop that splits sorted indices into blocks: the chains of the sorted slots. */
  method SplitBlocks(sorted: seq<Row<int>>) returns (blocks: seq<seq<Row<int>>>)
    requires sorted != []
    ensures blocks == Chains(sorted)
  {
    blocks := [];
    var current := [sorted[0]];
    ghost var runs, open := [], sorted[0].iv;
    for i := 1 to |sorted|
      invariant current != [] && ScanRows(sorted[..i]) == (blocks, current) && Scan(Ivs(sorted[..i])) == (runs, open)
      invariant open.fin == current[|current| - 1].iv.fin
    {
      ScanStep(sorted, i);
      var cur := sorted[i];
      if cur.iv.ini == current[|current| - 1].iv.fin {
        current := current + [cur];
        open := Iv(open.ini, cur.iv.fin);
      } else {
        runs, open := runs + [open], cur.iv;
        blocks := blocks + [current];
        current := [cur];
      }
    }
    assert sorted[..|sorted|] == sorted;
    blocks := blocks + [current];
  }

  /** No index appears twice in the blocks, within one or across two. */
  ghost predicate Scattered(blocks: seq<seq<Row<int>>>) {
    && (forall a | 0 <= a < |blocks| :: DistinctTags(blocks[a]))
    && (forall a, b, i, j | 0 <= a < b < |blocks| && 0 <= i < |blocks[a]| && 0 <= j < |blocks[b]| ::
          blocks[a][i].tag != blocks[b][j].tag)
  }

  lemma {:induction false} InConcat<T>(c: seq<seq<T>>, a: nat, i: nat)
    requires a < |c| && i < |c[a]|
    ensures c[a][i] in Concat(c)
    decreases |c|
  {
    var n := |c| - 1;
    if a < n {
      InConcat(c[..n], a, i);
    }
  }

  lemma DistinctParts(a: seq<Row<int>>, b: seq<Row<int>>)
    requires DistinctTags(a + b)
    ensures DistinctTags(a) && DistinctTags(b)
    ensures forall x, y | x in a && y in b :: x.tag != y.tag
  {
    assert forall i | 0 <= i < |a| :: (a + b)[i] == a[i];
    assert forall j | 0 <= j < |b| :: (a + b)[|a| + j] == b[j];
  }

  lemma {:induction false} BlocksScatter(blocks: seq<seq<Row<int>>>)
    requires DistinctTags(Concat(blocks))
    ensures Scattered(blocks)
    decreases |blocks|
  {
    if blocks != [] {
      var n := |blocks| - 1;
      DistinctParts(Concat(blocks[..n]), blocks[n]);
      BlocksScatter(blocks[..n]);
      forall a, i, j | 0 <= a < n && 0 <= i < |blocks[a]| && 0 <= j < |blocks[n]|
        ensures blocks[a][i].tag != blocks[n][j].tag
      {
        InConcat(blocks[..n], a, i);
      }
    }
  }

  /** What the blocks of a group are known to be. */
  ghost predicate BlocksFor(items: seq<CartItem>, g: Group, blocks: seq<seq<Row<int>>>, runs: seq<Iv>) {
    && Scattered(blocks) && AllFill(blocks, runs) && runs == BlocksOf(Ivs(RowsIn(items, g)))
    && forall a, i | 0 <= a < |blocks| && 0 <= i < |blocks[a]| ::
         0 <= blocks[a][i].tag < |items| && GroupOf(items[blocks[a][i].tag]) == g &&
         blocks[a][i].iv == items[blocks[a][i].tag].iv
  }

  lemma GroupBlocks(items: seq<CartItem>, g: Group, sorted: seq<Row<int>>)
    requires sorted == SortBy(RowKey<int>, RowsIn(items, g))
    ensures BlocksFor(items, g, Chains(sorted), Runs(Ivs(sorted)))
    ensures multiset(Concat(Chains(sorted))) == multiset(RowsIn(items, g))
  {
    var rows := RowsIn(items, g);
    SortBySorts(RowKey<int>, rows);
    SortedView(rows, sorted);
    MergePartitions(sorted);
    RowsInDistinct(items, g);
    DistinctAsMultiset(rows, sorted);
    BlocksScatter(Chains(sorted));
    forall a, i | 0 <= a < |Chains(sorted)| && 0 <= i < |Chains(sorted)[a]|
      ensures Chains(sorted)[a][i] in rows
    {
      InConcat(Chains(sorted), a, i);
      assert Chains(sorted)[a][i] in multiset(sorted);
    }
    forall row { RowsInMembers(items, g, row); }
  }

  /** A block of slots of positive length has a positive duration, and its shares add up to its price. */
  lemma PositiveBlock(items: seq<CartItem>, g: Group, blocks: seq<seq<Row<int>>>, runs: seq<Iv>, a: nat, r: PricingRule)
    requires AllPositive(items) && BlocksFor(items, g, blocks, runs) && a < |blocks|
    ensures blocks[a] != [] && SpanOf(blocks[a]) == runs[a] && Duration(runs[a]) > 0
    ensures Sum(Shares(BlockCents(runs[a], r), Weights(blocks[a]))) == BlockCents(runs[a], r)
  {
    var chain := blocks[a];
    assert Fills(chain, runs[a]);
    forall i | 0 <= i < |chain|
      ensures Length(chain[i].iv) > 0 && Weights(chain)[i] > 0
    {
      assert chain[i].iv == items[chain[i].tag].iv;
      PositiveDuration(chain[i].iv);
    }
    PositiveWeights(Weights(chain));
    SharesConserve(BlockCents(runs[a], r), Weights(chain));
    BlockLength(chain, runs[a]);
    PositiveLengths(Lengths(Ivs(chain)));
    PositiveDuration(runs[a]);
  }

  lemma PositiveLengths(w: seq<int>)
    requires w != [] && forall i | 0 <= i < |w| :: w[i] > 0
    ensures Sum(w) > 0
  {
    PositiveWeights(w);
  }

  lemma AllocatedKept(prices: seq<int>, prices': seq<int>, chain: seq<Row<int>>, r: PricingRule)
    requires Allocated(prices, chain, r) && |prices'| == |prices|
    requires forall j | 0 <= j < |chain| :: prices'[chain[j].tag] == prices[chain[j].tag]
    ensures Allocated(prices', chain, r)
  {
  }

  /** Only the indices of the block changed. */
  ghost predicate OnlyBlock(prices: seq<int>, prices': seq<int>, chain: seq<Row<int>>) {
    |prices'| == |prices| &&
    forall i | 0 <= i < |prices| && (forall j | 0 <= j < |chain| :: chain[j].tag != i) :: prices'[i] == prices[i]
  }

  ghost predicate OthersKept(items: seq<CartItem>, g: Group, before: seq<int>, prices: seq<int>) {
    |prices| == |before| == |items| &&
    forall i | 0 <= i < |items| && GroupOf(items[i]) != g :: prices[i] == before[i]
  }

  ghost predicate StillZero(blocks: seq<seq<Row<int>>>, prices: seq<int>, k: nat) {
    forall a, j | k <= a < |blocks| && 0 <= j < |blocks[a]| ::
      0 <= blocks[a][j].tag < |prices| && prices[blocks[a][j].tag] == 0
  }

  /** The prices of one group: blocks up to k are allocated, the others still unpriced, other groups as before. */
  ghost predicate Progress(items: seq<CartItem>, g: Group, r: PricingRule, blocks: seq<seq<Row<int>>>,
                           before: seq<int>, prices: seq<int>, k: nat)
  {
    && OthersKept(items, g, before, prices)
    && (forall a | 0 <= a < |blocks| && a < k :: Allocated(prices, blocks[a], r))
    && StillZero(blocks, prices, k)
  }

  lemma OthersStep(items: seq<CartItem>, g: Group, blocks: seq<seq<Row<int>>>, runs: seq<Iv>, before: seq<int>,
                   prices: seq<int>, prices': seq<int>, k: nat)
    requires BlocksFor(items, g, blocks, runs) && k < |blocks| && OthersKept(items, g, before, prices)
    requires OnlyBlock(prices, prices', blocks[k])
    ensures OthersKept(items, g, before, prices')
  {
  }

  lemma ZeroStep(blocks: seq<seq<Row<int>>>, prices: seq<int>, prices': seq<int>, k: nat)
    requires Scattered(blocks) && k < |blocks| && StillZero(blocks, prices, k) && OnlyBlock(prices, prices', blocks[k])
    ensures StillZero(blocks, prices', k + 1)
  {
  }

  lemma EarlierStep(blocks: seq<seq<Row<int>>>, prices: seq<int>, prices': seq<int>, a: nat, k: nat, r: PricingRule)
    requires Scattered(blocks) && a < k < |blocks| && Allocated(prices, blocks[a], r)
    requires OnlyBlock(prices, prices', blocks[k])
    ensures Allocated(prices', blocks[a], r)
  {
    AllocatedKept(prices, prices', blocks[a], r);
  }

  lemma ProgressStep(items: seq<CartItem>, g: Group, r: PricingRule, blocks: seq<seq<Row<int>>>, runs: seq<Iv>,
                     before: seq<int>, prices: seq<int>, prices': seq<int>, k: nat)
    requires BlocksFor(items, g, blocks, runs) && k < |blocks| && Progress(items, g, r, blocks, before, prices, k)
    requires Allocated(prices', blocks[k], r) && OnlyBlock(prices, prices', blocks[k])
    ensures Progress(items, g, r, blocks, before, prices', k + 1)
  {
    OthersStep(items, g, blocks, runs, before, prices, prices', k);
    ZeroStep(blocks, prices, prices', k);
    forall a: nat | a < k
      ensures Allocated(prices', blocks[a], r)
    {
      EarlierStep(blocks, prices, prices', a, k, r);
    }
  }

  /** One round of the loop over the blocks. */
  method PriceNextBlock(result: seq<int>, blocks: seq<seq<Row<int>>>, k: nat, r: PricingRule,
                        ghost items: seq<CartItem>, ghost g: Group, ghost runs: seq<Iv>, ghost before: seq<int>)
    returns (next: Option<seq<int>>)
    requires BlocksFor(items, g, blocks, runs) && k < |blocks| && Progress(items, g, r, blocks, before, result, k)
    ensures next.Some? <==> HasLength(blocks[k])
    ensures AllPositive(items) ==> next.Some? && Sum(next.value) == Sum(result) + BlockCents(runs[k], r)
    ensures next.Some? ==> Progress(items, g, r, blocks, before, next.value, k + 1)
  {
    BlockIsUsable(items, g, blocks, runs, k);
    assert forall j | 0 <= j < |blocks[k]| :: result[blocks[k][j].tag] == 0;
    DurationIsLength(SpanOf(blocks[k]));
    next := PriceBlock(result, blocks[k], r);
    if AllPositive(items) { PositiveBlock(items, g, blocks, runs, k, r); }
    if next.Some? { ProgressStep(items, g, r, blocks, runs, before, result, next.value, k); }
  }

  /** for block in blocks: price it and write its shares. */
  method PriceBlocks(prices: seq<int>, blocks: seq<seq<Row<int>>>, r: PricingRule,
                     ghost items: seq<CartItem>, ghost g: Group, ghost runs: seq<Iv>)
    returns (out: Option<seq<int>>)
    requires BlocksFor(items, g, blocks, runs) && Progress(items, g, r, blocks, prices, prices, 0)
    ensures AllPositive(items) ==> out.Some? && Sum(out.value) == Sum(prices) + BlocksCents(runs, r)
    ensures out.Some? <==> FirstHaveLength(blocks, |blocks|)
    ensures out.Some? ==> Progress(items, g, r, blocks, prices, out.value, |blocks|)
  {
    var result := prices;
    for k := 0 to |blocks|
      invariant Progress(items, g, r, blocks, prices, result, k)
      invariant AllPositive(items) ==> Sum(result) == Sum(prices) + BlocksCents(runs[..k], r)
      invariant FirstHaveLength(blocks, k)
    {
      var next := PriceNextBlock(result, blocks, k, r, items, g, runs, prices);
      if next == None {
        return None;
      }
      CentsStep(runs, k, r);
      result := next.value;
    }
    assert runs[..|blocks|] == runs;
    out := Some(result);
  }

  lemma CentsStep(runs: seq<Iv>, k: nat, r: PricingRule)
    requires k < |runs|
    ensures BlocksCents(runs[..k + 1], r) == BlocksCents(runs[..k], r) + BlockCents(runs[k], r)
  {
    assert runs[..k + 1][..k] == runs[..k];
  }

  lemma BlockIsUsable(items: seq<CartItem>, g: Group, blocks: seq<seq<Row<int>>>, runs: seq<Iv>, k: nat)
    requires BlocksFor(items, g, blocks, runs) && k < |blocks|
    ensures |blocks| == |runs| && blocks[k] != [] && SpanOf(blocks[k]) == runs[k] && DistinctTags(blocks[k])
    ensures forall j | 0 <= j < |blocks[k]| :: 0 <= blocks[k][j].tag < |items|
  {
    assert Fills(blocks[k], runs[k]);
  }

  /** Every block of the group ends after it starts. */
  ghost predicate GroupHasLength(items: seq<CartItem>, g: Group) {
    var blocks := Chains(SortBy(RowKey<int>, RowsIn(items, g)));
    FirstHaveLength(blocks, |blocks|)
  }

  /** Price all the blocks of a group. */
  method PriceGroup(prices: seq<int>, rows: seq<Row<int>>, r: PricingRule, ghost items: seq<CartItem>, ghost g: Group)
    returns (out: Option<seq<int>>)
    requires rows == RowsIn(items, g) && rows != [] && |prices| == |items|
    requires forall i | 0 <= i < |items| && GroupOf(items[i]) == g :: prices[i] == 0
    ensures AllPositive(items) ==> out.Some? && Sum(out.value) == Sum(prices) + GroupCents(items, g, r)
    ensures out.Some? <==> GroupHasLength(items, g)
    ensures out.Some? ==> |out.value| == |prices| && GroupPriced(items, g, r, out.value)
    ensures out.Some? ==> forall i | 0 <= i < |items| && GroupOf(items[i]) != g :: out.value[i] == prices[i]
  {
    var sorted := SortBy(RowKey<int>, rows);
    SortBySorts(RowKey<int>, rows);
    SortedNonEmpty(rows, sorted);
    GroupBlocks(items, g, sorted);
    ghost var runs := Runs(Ivs(sorted));
    var blocks := SplitBlocks(sorted);
    ProgressStarts(items, g, r, blocks, runs, prices);
    out := PriceBlocks(prices, blocks, r, items, g, runs);
    if out.Some? { ProgressEnds(items, g, r, blocks, prices, out.value); }
  }

  lemma ProgressStarts(
    items: seq<CartItem>, g: Group, r: PricingRule, blocks: seq<seq<Row<int>>>, runs: seq<Iv>, prices: seq<int>
  )
    requires BlocksFor(items, g, blocks, runs) && |prices| == |items|
    requires forall i | 0 <= i < |items| && GroupOf(items[i]) == g :: prices[i] == 0
    ensures Progress(items, g, r, blocks, prices, prices, 0)
  {
  }

  lemma ProgressEnds(
    items: seq<CartItem>, g: Group, r: PricingRule, blocks: seq<seq<Row<int>>>, before: seq<int>, prices: seq<int>
  )
    requires blocks == Chains(SortBy(RowKey<int>, RowsIn(items, g)))
    requires Progress(items, g, r, blocks, before, prices, |blocks|)
    ensures GroupPriced(items, g, r, prices)
  {
  }

  lemma SortedNonEmpty(rows: seq<Row<int>>, sorted: seq<Row<int>>)
    requires multiset(rows) == multiset(sorted) && rows != []
    ensures sorted != []
  {
    assert rows[0] in multiset(sorted);
  }

  // ----- The whole cart -----

  datatype PricingError = NoPricingRule(group: Group) | NonPositiveDuration

  /** The groups of the cart with their rows, in input order. */
  method GroupItems(items: seq<CartItem>) returns (groups: map<Group, seq<Row<int>>>)
    ensures groups.Keys == Groups(items) && forall g | g in groups :: groups[g] == RowsIn(items, g)
  {
    groups := map[];
    for i := 0 to |items|
      invariant groups.Keys == Groups(items[..i]) &&
                forall g :: RowsIn(items[..i], g) == (if g in groups then groups[g] else [])
    {
      var g := GroupOf(items[i]);
      forall h { GroupsStep(items, i, h); }
      groups := groups[g := (if g in groups then groups[g] else []) + [Row(items[i].iv, i)]];
    }
    assert items[..|items|] == items;
  }

  lemma GroupsStep(items: seq<CartItem>, i: nat, g: Group)
    requires i < |items|
    ensures Groups(items[..i + 1]) == Groups(items[..i]) + {GroupOf(items[i])}
    ensures RowsIn(items[..i + 1], g) ==
            RowsIn(items[..i], g) + (if GroupOf(items[i]) == g then [Row(items[i].iv, i)] else [])
  {
    var prefix := items[..i + 1];
    assert prefix[..i] == items[..i] && prefix[i] == items[i];
    forall j | 0 <= j < i
      ensures GroupOf(items[..i][j]) in Groups(prefix)
    {
      assert prefix[j] == items[..i][j];
    }
    assert GroupOf(prefix[i]) in Groups(prefix);
    assert forall j | 0 <= j < i :: prefix[j] == items[..i][j];
  }

  /** Every block of the group is allocated. */
  ghost predicate GroupPriced(items: seq<CartItem>, g: Group, r: PricingRule, prices: seq<int>) {
    forall chain | chain in Chains(SortBy(RowKey<int>, RowsIn(items, g))) :: Allocated(prices, chain, r)
  }

  lemma RowsInNonEmpty(items: seq<CartItem>, g: Group)
    requires g in Groups(items)
    ensures RowsIn(items, g) != []
  {
    var i :| 0 <= i < |items| && GroupOf(items[i]) == g;
    RowsInMembers(items, g, Row(items[i].iv, i));
  }

  /** Pricing another group leaves a priced group as it is. */
  lemma GroupPricedKept(items: seq<CartItem>, g: Group, r: PricingRule, prices: seq<int>, prices': seq<int>)
    requires GroupPriced(items, g, r, prices) && |prices| == |prices'| == |items|
    requires forall i | 0 <= i < |items| && GroupOf(items[i]) == g :: prices'[i] == prices[i]
    ensures GroupPriced(items, g, r, prices')
  {
    var sorted := SortBy(RowKey<int>, RowsIn(items, g));
    GroupBlocks(items, g, sorted);
    forall chain | chain in Chains(sorted)
      ensures Allocated(prices', chain, r)
    {
      var a :| 0 <= a < |Chains(sorted)| && Chains(sorted)[a] == chain;
      AllocatedKept(prices, prices', chain, r);
    }
  }

  /** These groups have a rule and are priced. */
  ghost predicate GroupsPriced(
    items: seq<CartItem>, rules: map<Group, PricingRule>, done: set<Group>, prices: seq<int>
  ) {
    forall g | g in done :: g in rules && GroupPriced(items, g, rules[g], prices)
  }

  lemma GroupsPricedStep(items: seq<CartItem>, rules: map<Group, PricingRule>, done: set<Group>, g: Group,
                         prices: seq<int>, prices': seq<int>)
    requires GroupsPriced(items, rules, done, prices) && g !in done && g in rules
    requires GroupPriced(items, g, rules[g], prices') && |prices| == |prices'| == |items|
    requires forall i | 0 <= i < |items| && GroupOf(items[i]) != g :: prices'[i] == prices[i]
    ensures GroupsPriced(items, rules, done + {g}, prices')
  {
    forall h | h in done
      ensures GroupPriced(items, h, rules[h], prices')
    {
      GroupPricedKept(items, h, rules[h], prices, prices');
    }
  }

  /** Some groups are priced, the others still untouched. */
  ghost predicate Partly(
    items: seq<CartItem>, rules: map<Group, PricingRule>, todo: set<Group>, done: set<Group>, prices: seq<int>
  ) {
    && todo + done == Groups(items) && todo !! done && |prices| == |items|
    && (forall i | 0 <= i < |items| && GroupOf(items[i]) in todo :: prices[i] == 0)
    && GroupsPriced(items, rules, done, prices)
    && done <= CentsByGroup(items, rules).Keys
    && (forall g | g in done :: GroupHasLength(items, g))
    && (AllPositive(items) ==> Sum(prices) == SumAt(CentsByGroup(items, rules), done))
  }

  lemma PartlyStep(items: seq<CartItem>, rules: map<Group, PricingRule>, todo: set<Group>, done: set<Group>, g: Group,
                   prices: seq<int>, prices': seq<int>)
    requires Partly(items, rules, todo, done, prices) && g in todo && g in rules && |prices'| == |prices|
    requires GroupPriced(items, g, rules[g], prices') && GroupHasLength(items, g)
    requires forall i | 0 <= i < |items| && GroupOf(items[i]) != g :: prices'[i] == prices[i]
    requires AllPositive(items) ==> Sum(prices') == Sum(prices) + GroupCents(items, g, rules[g])
    ensures Partly(items, rules, todo - {g}, done + {g}, prices')
  {
    GroupsPricedStep(items, rules, done, g, prices, prices');
    assert g in Groups(items);
    assert g in CentsByGroup(items, rules) && CentsByGroup(items, rules)[g] == GroupCents(items, g, rules[g]);
    SumAdd(CentsByGroup(items, rules), done, g);
    assert (todo - {g}) + (done + {g}) == todo + done;
  }

  /** price_wizard_items. It fails exactly when a group has no rule or some block does not end after it starts,
      so for slots of positive length only when a group has no rule; otherwise every
      slot has its share of its block's package price, and the prices add up to the cart's total. */
  method PriceWizardItems(
    items: seq<CartItem>, rules: map<Group, PricingRule>
  ) returns (r: Result<seq<int>, PricingError>)
    ensures r.Ok? <==> Groups(items) <= rules.Keys && forall g | g in Groups(items) :: GroupHasLength(items, g)
    ensures AllPositive(items) ==> (r.Ok? <==> Groups(items) <= rules.Keys)
    ensures r.Ok? ==> |r.value| == |items| && GroupsPriced(items, rules, Groups(items), r.value)
    ensures r.Ok? && AllPositive(items) ==> Sum(r.value) == WizardTotal(items, rules)
  {
    var prices := seq(|items|, _ => 0);
    SumOfZeros(prices);
    var groups := GroupItems(items);
    var todo := groups.Keys;
    ghost var done: set<Group> := {};
    while todo != {}
      invariant Partly(items, rules, todo, done, prices)
      decreases todo
    {
      var g :| g in todo;
      assert g in todo + done;
      if g !in rules {
        return Err(NoPricingRule(g));
      }
      RowsInNonEmpty(items, g);
      var next := PriceGroup(prices, groups[g], rules[g], items, g);
      if next == None {
        return Err(NonPositiveDuration);
      }
      PartlyStep(items, rules, todo, done, g, prices, next.value);
      todo, done := todo - {g}, done + {g};
      prices := next.value;
    }
    assert done == Groups(items);
    assert CentsByGroup(items, rules).Keys == done;
    r := Ok(prices);
  }

  /** A share is within half a cent of its exact proportion, the last of a block of n within (n - 1) / 2. */
  lemma AllocationIsClose(prices: seq<int>, chain: seq<Row<int>>, r: PricingRule, j: nat)
    requires Allocated(prices, chain, r) && j < |chain| && Sum(Weights(chain)) > 0
    ensures
      var w := Weights(chain);
      var error := Abs(prices[chain[j].tag] * Sum(w) - BlockCents(SpanOf(chain), r) * w[j]);
      2 * error <= (if j < |chain| - 1 then Sum(w) else (|chain| - 1) * Sum(w))
  {
    SharesAreClose(BlockCents(SpanOf(chain), r), Weights(chain), j);
  }
}
