/** What the prices of the wizard say of the cart: each slot belongs to a block of touching slots that is charged
    once, by packages, and has its share of that charge. */
module WizardFacts {
  import opened Lists
  import opened Rounding
  import opened Blocks
  import opened Packages
  import opened Wizard

  // ----- The price of a duration -----

  /** The duration, in hundredths of an hour, taken apart into as many twelve-hour packs as fit, then as many
      six-hour packs, and loose time, each kind of pack only if it has a tariff. */
  predicate TakenApart(d: nat, a: nat, b: nat, loose: nat, r: PricingRule) {
    && 1200 * a + 600 * b + loose == d
    && (if r.base12h > 0 then 600 * b + loose < 1200 else a == 0)
    && (if r.base6h > 0 then loose < 600 else b == 0)
  }

  /** The cents nearest to the packs, with the loose time rounded to cents before. */
  ghost predicate NearestCents(cents: int, packs: int, loose: int) {
    exists x: int :: Nearest(x, loose, 10000) && Nearest(cents, packs + 100 * x, 100)
  }

  lemma NearestCentsIff(cents: int, packs: int, loose: int)
    ensures RoundHalfEven(packs + 100 * RoundHalfEven(loose, 10000), 100) == cents <==>
            NearestCents(cents, packs, loose)
  {
    var x := RoundHalfEven(loose, 10000);
    RoundIsNearest(loose, 10000);
    RoundsToNearestIff(cents, packs + 100 * x, 100);
    if NearestCents(cents, packs, loose) {
      var y: int :| Nearest(y, loose, 10000) && Nearest(cents, packs + 100 * y, 100);
      NearestIsUnique(x, y, loose, 10000);
    }
  }

  /** The price, in cents, of the packs and the loose time of the duration. */
  ghost predicate PackagePrice(cents: int, d: nat, r: PricingRule) {
    exists a: nat, b: nat, loose: nat ::
      TakenApart(d, a, b, loose, r) && NearestCents(cents, a * r.base12h + b * r.base6h, loose * r.extraHourRate)
  }

  lemma OnlyTakenApart(d: nat, a: nat, b: nat, loose: nat, r: PricingRule)
    ensures TakenApart(d, a, b, loose, r) <==> a == Packs12(d, r) && b == Packs6(d, r) && loose == Loose(d, r)
  {
    if TakenApart(d, a, b, loose, r) {
      if r.base12h > 0 { Quotient(d, 1200, a, 600 * b + loose); }
      if r.base6h > 0 { Quotient(600 * b + loose, 600, b, loose); }
    }
  }

  /** The wizard's price of a duration is this price and no other. */
  lemma PackagePriceIff(cents: int, d: nat, r: PricingRule)
    ensures PackageCents(d, r) == cents <==> PackagePrice(cents, d, r)
  {
    var a, b, loose := Packs12(d, r), Packs6(d, r), Loose(d, r);
    OnlyTakenApart(d, a, b, loose, r);
    NearestCentsIff(cents, a * r.base12h + b * r.base6h, loose * r.extraHourRate);
    if PackagePrice(cents, d, r) {
      var a': nat, b': nat, loose': nat :| TakenApart(d, a', b', loose', r) &&
        NearestCents(cents, a' * r.base12h + b' * r.base6h, loose' * r.extraHourRate);
      OnlyTakenApart(d, a', b', loose', r);
    }
  }

  // ----- The price of a slot -----

  /** Indices of slots of one space and date, each starting where the one before it ends. */
  ghost predicate Touching(items: seq<CartItem>, block: seq<int>) {
    && block != [] && (forall j | 0 <= j < |block| :: 0 <= block[j] < |items|)
    && (forall j | 0 <= j < |block| ::
          items[block[j]].space == items[block[0]].space && items[block[j]].fecha == items[block[0]].fecha)
    && (forall j, k | 0 <= j < k < |block| :: block[j] != block[k])
    && (forall j | 0 < j < |block| :: items[block[j - 1]].iv.fin == items[block[j]].iv.ini)
  }

  /** The durations of the slots in hundredths of an hour. */
  ghost predicate Durations(items: seq<CartItem>, block: seq<int>, w: seq<int>)
    requires Touching(items, block)
  {
    |w| == |block| && forall j | 0 <= j < |block| :: Nearest(w[j], 100 * Length(items[block[j]].iv), 60)
  }

  /** The package price of the time from the first start to the last end. */
  ghost predicate BlockPrice(items: seq<CartItem>, block: seq<int>, total: int, r: PricingRule)
    requires Touching(items, block)
  {
    exists d: nat :: Nearest(d, 100 * (items[block[|block| - 1]].iv.fin - items[block[0]].iv.ini), 60) &&
      PackagePrice(total, d, r)
  }

  function PriceAt(prices: seq<int>): int -> int {
    (i: int) => if 0 <= i < |prices| then prices[i] else 0
  }

  /** The prices of the slots add up to the total, and each but the last is within half a cent of its share by
      duration, the last within half a cent for every other. */
  ghost predicate Fair(prices: seq<int>, block: seq<int>, total: int, w: seq<int>)
    requires block != [] && |w| == |block|
  {
    && Sum(MapSeq(PriceAt(prices), block)) == total
    && forall j | 0 <= j < |block| ::
         2 * Abs(PriceAt(prices)(block[j]) * Sum(w) - total * w[j]) <=
         if j < |block| - 1 then Sum(w) else (|block| - 1) * Sum(w)
  }

  /** The slot is in a block of touching slots that has the package price, fairly shared. */
  ghost predicate SlotPriced(items: seq<CartItem>, r: PricingRule, prices: seq<int>, i: int) {
    exists block: seq<int>, total: int, w: seq<int> ::
      Touching(items, block) && i in block && Durations(items, block, w) && BlockPrice(items, block, total, r) &&
      Fair(prices, block, total, w)
  }

  /** The indices of a block's rows. */
  function Indices(chain: seq<Row<int>>): (r: seq<int>)
    ensures |r| == |chain| && forall i {:trigger r[i]} | 0 <= i < |r| :: r[i] == chain[i].tag
  {
    Tags(chain)
  }

  lemma ChainTouches(items: seq<CartItem>, g: Group, blocks: seq<seq<Row<int>>>, runs: seq<Iv>, a: nat)
    requires BlocksFor(items, g, blocks, runs) && a < |blocks|
    ensures Touching(items, Indices(blocks[a])) && Durations(items, Indices(blocks[a]), Weights(blocks[a]))
    ensures runs[a] == SpanOf(blocks[a])
    ensures runs[a] == Iv(items[Indices(blocks[a])[0]].iv.ini, items[Indices(blocks[a])[|blocks[a]| - 1]].iv.fin)
  {
    var chain := blocks[a];
    assert Fills(chain, runs[a]) && DistinctTags(chain);
    forall j | 0 <= j < |chain|
      ensures 0 <= chain[j].tag < |items| && chain[j].iv == items[chain[j].tag].iv
      ensures GroupOf(items[chain[j].tag]) == g
      ensures Nearest(Weights(chain)[j], 100 * Length(chain[j].iv), 60)
    {
      RoundIsNearest(Length(chain[j].iv) * 100, 60);
    }
  }

  lemma DurationIsNearest(v: Iv)
    ensures Nearest(Duration(v), 100 * (v.fin - v.ini), 60)
  {
    RoundIsNearest(Length(v) * 100, 60);
  }

  lemma BlockIsPriced(items: seq<CartItem>, g: Group, blocks: seq<seq<Row<int>>>, runs: seq<Iv>, a: nat, r: PricingRule)
    requires AllPositive(items) && BlocksFor(items, g, blocks, runs) && a < |blocks|
    ensures Touching(items, Indices(blocks[a])) && BlockPrice(items, Indices(blocks[a]), BlockCents(runs[a], r), r)
  {
    ChainTouches(items, g, blocks, runs, a);
    PositiveBlock(items, g, blocks, runs, a, r);
    DurationIsNearest(runs[a]);
    PackagePriceIff(BlockCents(runs[a], r), Duration(runs[a]), r);
  }

  lemma AllocatedIsFair(prices: seq<int>, chain: seq<Row<int>>, r: PricingRule)
    requires Allocated(prices, chain, r) && Sum(Weights(chain)) > 0
    ensures Fair(prices, Indices(chain), BlockCents(SpanOf(chain), r), Weights(chain))
  {
    var total, w := BlockCents(SpanOf(chain), r), Weights(chain);
    SharesConserve(total, w);
    assert MapSeq(PriceAt(prices), Indices(chain)) == Shares(total, w);
    forall j | 0 <= j < |chain|
      ensures 2 * Abs(PriceAt(prices)(Indices(chain)[j]) * Sum(w) - total * w[j]) <=
              if j < |chain| - 1 then Sum(w) else (|chain| - 1) * Sum(w)
    {
      AllocationIsClose(prices, chain, r, j);
    }
  }

  lemma BlockIsFair(items: seq<CartItem>, g: Group, blocks: seq<seq<Row<int>>>, runs: seq<Iv>, a: nat, r: PricingRule,
                    prices: seq<int>)
    requires AllPositive(items) && BlocksFor(items, g, blocks, runs) && a < |blocks| && Allocated(prices, blocks[a], r)
    ensures Fair(prices, Indices(blocks[a]), BlockCents(runs[a], r), Weights(blocks[a]))
  {
    ChainTouches(items, g, blocks, runs, a);
    WeightsArePositive(items, blocks[a]);
    AllocatedIsFair(prices, blocks[a], r);
  }

  lemma WeightsArePositive(items: seq<CartItem>, chain: seq<Row<int>>)
    requires AllPositive(items) && chain != []
    requires forall j | 0 <= j < |chain| :: 0 <= chain[j].tag < |items| && chain[j].iv == items[chain[j].tag].iv
    ensures Sum(Weights(chain)) > 0
  {
    forall j | 0 <= j < |chain|
      ensures Weights(chain)[j] > 0
    {
      PositiveDuration(chain[j].iv);
    }
    PositiveWeights(Weights(chain));
  }

  lemma {:induction false} InSomeChain<T>(c: seq<seq<T>>, x: T) returns (a: nat)
    requires x in Concat(c)
    ensures a < |c| && x in c[a]
    decreases |c|
  {
    var n := |c| - 1;
    if x in Concat(c[..n]) {
      a := InSomeChain(c[..n], x);
    } else {
      a := n;
    }
  }

  /** Every slot of a priced cart is priced within its block. */
  lemma EverySlotIsPriced(items: seq<CartItem>, rules: map<Group, PricingRule>, prices: seq<int>, i: nat)
    requires AllPositive(items) && GroupsPriced(items, rules, Groups(items), prices) && i < |items|
    ensures GroupOf(items[i]) in rules && SlotPriced(items, rules[GroupOf(items[i])], prices, i)
  {
    var g := GroupOf(items[i]);
    assert g in Groups(items);
    var sorted := SortBy(RowKey<int>, RowsIn(items, g));
    var blocks, runs := Chains(sorted), Runs(Ivs(sorted));
    GroupBlocks(items, g, sorted);
    var row: Row<int> := Row(items[i].iv, i);
    RowsInMembers(items, g, row);
    assert row in multiset(Concat(blocks));
    var a := InSomeChain(blocks, row);
    SlotOfBlock(items, g, blocks, runs, a, rules[g], prices, i);
  }

  lemma SlotOfBlock(items: seq<CartItem>, g: Group, blocks: seq<seq<Row<int>>>, runs: seq<Iv>, a: nat, r: PricingRule,
                    prices: seq<int>, i: nat)
    requires AllPositive(items) && BlocksFor(items, g, blocks, runs) && a < |blocks| && i < |items|
    requires Allocated(prices, blocks[a], r) && Row(items[i].iv, i) in blocks[a]
    ensures SlotPriced(items, r, prices, i)
  {
    ChainTouches(items, g, blocks, runs, a);
    BlockIsPriced(items, g, blocks, runs, a, r);
    BlockIsFair(items, g, blocks, runs, a, r, prices);
    var j :| 0 <= j < |blocks[a]| && blocks[a][j] == Row(items[i].iv, i);
    assert Indices(blocks[a])[j] == i;
  }
}
