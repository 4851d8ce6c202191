/** The wizard's total and the subtotal of the "Detalle de Espacios" table are the same amount: two independent
    groupings, mergers, decompositions and roundings of one cart. */
module Alignment {
  import opened Common
  import opened Lists
  import opened Rounding
  import opened Blocks
  import opened Packages
  import opened Tariffs
  import opened Wizard
  import opened WizardFacts
  import opened OrderBlocks
  import opened OrderTable
  import opened DetailTable

  /** Slots of whole hours. */
  predicate WholeHours(items: seq<CartItem>) {
    forall i | 0 <= i < |items| :: Length(items[i].iv) % 60 == 0
  }

  /** The rule the wizard finds for each group: the one of its space, whatever the date. */
  function RulesByGroup(items: seq<CartItem>, rules: map<Id, PricingRule>): map<Group, PricingRule> {
    map g | g in Groups(items) && g.space in rules :: rules[g.space]
  }

  /** The catalog prices the table finds for each space. */
  function PricingBySpace(rules: map<Id, PricingRule>): map<Id, CatalogPrices> {
    map s | s in rules :: CatalogOf(rules[s])
  }

  /** The wizard's cents are the table's pesos. */
  ghost predicate Aligned(items: seq<CartItem>, rules: map<Id, PricingRule>) {
    WizardTotal(items, RulesByGroup(items, rules)) == 100 * TableSubtotal(items, PricingBySpace(rules))
  }

  // ----- Blocks of whole hours -----

  predicate IsWholeHours(v: Iv) {
    Length(v) > 0 && Length(v) % 60 == 0
  }

  lemma {:induction false} SumOfWholeHours(w: seq<int>)
    requires w != [] && forall i | 0 <= i < |w| :: w[i] > 0 && w[i] % 60 == 0
    ensures Sum(w) > 0 && Sum(w) % 60 == 0
    decreases |w|
  {
    var n := |w| - 1;
    if n > 0 {
      SumOfWholeHours(w[..n]);
      WholeHoursAdd(Sum(w[..n]), w[n]);
    } else {
      assert Sum(w[..0]) == 0;
    }
  }

  lemma WholeHoursAdd(a: int, b: int)
    requires a % 60 == 0 && b % 60 == 0
    ensures (a + b) % 60 == 0
  {
  }

  lemma BlockOfWholeHours(items: seq<CartItem>, g: Group, chain: seq<Row<int>>, block: Iv)
    requires AllPositive(items) && WholeHours(items) && Fills(chain, block)
    requires forall i | 0 <= i < |chain| :: 0 <= chain[i].tag < |items| && chain[i].iv == items[chain[i].tag].iv
    ensures IsWholeHours(block)
  {
    BlockLength(chain, block);
    SumOfWholeHours(Lengths(Ivs(chain)));
  }

  /** Every block of a cart of whole-hour slots has whole hours. */
  lemma BlocksOfWholeHours(items: seq<CartItem>, g: Group)
    requires AllPositive(items) && WholeHours(items)
    ensures forall a | 0 <= a < |BlocksOf(Ivs(RowsIn(items, g)))| :: IsWholeHours(BlocksOf(Ivs(RowsIn(items, g)))[a])
  {
    var sorted := SortBy(RowKey<int>, RowsIn(items, g));
    GroupBlocks(items, g, sorted);
    var runs := Runs(Ivs(sorted));
    forall a | 0 <= a < |runs|
      ensures IsWholeHours(runs[a])
    {
      assert Fills(Chains(sorted)[a], runs[a]);
      BlockOfWholeHours(items, g, Chains(sorted)[a], runs[a]);
    }
  }

  lemma CentsOfHours(b: Iv, h: nat, r: PricingRule)
    requires Length(b) == 60 * h && h > 0
    ensures BlockCents(b, r) == PackageCents(100 * h, r)
  {
    RoundExact(100 * h, 60);
    assert Length(b) * 100 == (100 * h) * 60;
  }

  lemma PesosOfHours(b: Iv, h: nat, p: CatalogPrices)
    requires Length(b) == 60 * h && h > 0
    ensures RunPesos(p)(b) == BlockPesos(60 * h, p)
  {
  }

  /** Wizard and table charge a block of whole hours the same. */
  lemma BlockAligns(b: Iv, h: nat, r: PricingRule)
    requires Length(b) == 60 * h && h > 0 && SameForHours(h, r)
    ensures BlockCents(b, r) == 100 * RunPesos(CatalogOf(r))(b)
  {
    CentsOfHours(b, h, r);
    PesosOfHours(b, h, CatalogOf(r));
  }

  lemma BlocksPesosStep(blocks: seq<Iv>, p: CatalogPrices)
    requires blocks != []
    ensures BlocksPesos(blocks, p) == BlocksPesos(blocks[..|blocks| - 1], p) + RunPesos(p)(blocks[|blocks| - 1])
  {
    assert MapSeq(RunPesos(p), blocks)[..|blocks| - 1] == MapSeq(RunPesos(p), blocks[..|blocks| - 1]);
  }

  lemma BlocksCentsStep(blocks: seq<Iv>, r: PricingRule)
    requires blocks != []
    ensures BlocksCents(blocks, r) == BlocksCents(blocks[..|blocks| - 1], r) + BlockCents(blocks[|blocks| - 1], r)
  {
  }

  lemma SameWhenAligned(h: nat, r: PricingRule)
    requires TariffsAlign(r) && 0 < h < 24
    ensures SameForHours(h, r)
  {
    BlocksAlignIff(r);
  }

  lemma HourBlockAligns(b: Iv, r: PricingRule)
    requires TariffsAlign(r) && IsWholeHours(b)
    ensures BlockCents(b, r) == 100 * RunPesos(CatalogOf(r))(b)
  {
    var h := Length(b) / 60;
    SameWhenAligned(h, r);
    BlockAligns(b, h, r);
  }

  lemma {:induction false} BlockListAligns(blocks: seq<Iv>, r: PricingRule)
    requires TariffsAlign(r) && forall a | 0 <= a < |blocks| :: IsWholeHours(blocks[a])
    ensures BlocksCents(blocks, r) == 100 * BlocksPesos(blocks, CatalogOf(r))
    decreases |blocks|
  {
    if blocks != [] {
      BlockListAligns(blocks[..|blocks| - 1], r);
      HourBlockAligns(blocks[|blocks| - 1], r);
      BlocksPesosStep(blocks, CatalogOf(r));
      BlocksCentsStep(blocks, r);
    }
  }

  // ----- Carts -----

  /** What alignment needs: slots of whole hours and positive length, and for each space of the cart one rule
      whose tariffs align, as those in whole pesos do, zero tariffs included. */
  ghost predicate Alignable(items: seq<CartItem>, rules: map<Id, PricingRule>) {
    && AllPositive(items) && WholeHours(items)
    && forall g | g in Groups(items) :: g.space in rules && TariffsAlign(rules[g.space])
  }

  lemma GroupAligns(items: seq<CartItem>, g: Group, rules: map<Id, PricingRule>)
    requires Alignable(items, rules) && g in Groups(items)
    ensures GroupCents(items, g, rules[g.space]) == 100 * GroupPesos(items, g, PricingBySpace(rules))
  {
    BlocksOfWholeHours(items, g);
    BlockListAligns(BlocksOf(Ivs(RowsIn(items, g))), rules[g.space]);
    RowsAreItems(items, g);
  }

  lemma EntriesAlign(items: seq<CartItem>, rules: map<Id, PricingRule>, g: Group)
    requires Alignable(items, rules) && g in Groups(items)
    ensures g in CentsByGroup(items, RulesByGroup(items, rules))
    ensures CentsByGroup(items, RulesByGroup(items, rules))[g] == 100 * PesosByGroup(items, PricingBySpace(rules))[g]
  {
    GroupAligns(items, g, rules);
  }

  lemma AllEntriesAlign(items: seq<CartItem>, rules: map<Id, PricingRule>)
    requires Alignable(items, rules)
    ensures HundredTimes(CentsByGroup(items, RulesByGroup(items, rules)), PesosByGroup(items, PricingBySpace(rules)))
  {
    forall g | g in Groups(items)
      ensures g in CentsByGroup(items, RulesByGroup(items, rules))
      ensures CentsByGroup(items, RulesByGroup(items, rules))[g] == 100 * PesosByGroup(items, PricingBySpace(rules))[g]
    {
      EntriesAlign(items, rules, g);
    }
  }

  ghost predicate HundredTimes(cents: map<Group, int>, pesos: map<Group, int>) {
    cents.Keys == pesos.Keys && forall g | g in pesos :: cents[g] == 100 * pesos[g]
  }

  lemma SumsAlign(cents: map<Group, int>, pesos: map<Group, int>)
    requires HundredTimes(cents, pesos)
    ensures SumMap(cents) == 100 * SumMap(pesos)
  {
    SumScale(cents, pesos, 100, pesos.Keys);
  }

  /** For any such cart, in any order, the prices of the wizard add up to the subtotal of the table. */
  lemma WizardAgreesWithTable(items: seq<CartItem>, rules: map<Id, PricingRule>)
    requires Alignable(items, rules)
    ensures Aligned(items, rules)
  {
    AllEntriesAlign(items, rules);
    SumsAlign(CentsByGroup(items, RulesByGroup(items, rules)), PesosByGroup(items, PricingBySpace(rules)));
  }

  /** In particular with tariffs in whole pesos. */
  lemma WholePesosAgree(items: seq<CartItem>, rules: map<Id, PricingRule>)
    requires AllPositive(items) && WholeHours(items)
    requires forall g | g in Groups(items) :: g.space in rules && WholePesos(rules[g.space])
    ensures Aligned(items, rules)
  {
    forall g | g in Groups(items)
      ensures TariffsAlign(rules[g.space])
    {
      WholePesosAlways(rules[g.space]);
    }
    WizardAgreesWithTable(items, rules);
  }

  /** Every slot is in a block of touching slots that has its package price, fairly shared. */
  ghost predicate AllSlotsPriced(items: seq<CartItem>, rules: map<Id, PricingRule>, prices: seq<int>) {
    forall i | 0 <= i < |items| ::
      items[i].space in rules && SlotPriced(items, rules[items[i].space], prices, i)
  }

  lemma SlotsPriced(items: seq<CartItem>, rules: map<Id, PricingRule>, prices: seq<int>)
    requires AllPositive(items) && GroupsPriced(items, RulesByGroup(items, rules), Groups(items), prices)
    ensures AllSlotsPriced(items, rules, prices)
  {
    forall i | 0 <= i < |items|
      ensures items[i].space in rules && SlotPriced(items, rules[items[i].space], prices, i)
    {
      EverySlotIsPriced(items, RulesByGroup(items, rules), prices, i);
    }
  }

  lemma AlignableHasRules(items: seq<CartItem>, rules: map<Id, PricingRule>)
    requires Alignable(items, rules)
    ensures AllPositive(items) && Groups(items) <= RulesByGroup(items, rules).Keys
    ensures WizardTotal(items, RulesByGroup(items, rules)) == 100 * TableSubtotal(items, PricingBySpace(rules))
  {
    WizardAgreesWithTable(items, rules);
  }

  /** The wizard and the table on one cart: wherever alignment applies the wizard prices every slot, and the
      prices it returns add up, in cents, to the totals of the rows, in pesos. */
  method PriceAndTabulate(items: seq<CartItem>, rules: map<Id, PricingRule>, place: Id -> int)
    returns (prices: Result<seq<int>, PricingError>, rows: seq<OrderRow>)
    ensures Alignable(items, rules) ==> prices.Ok? && Sum(prices.value) == 100 * RowsTotal(rows)
    ensures prices.Ok? && AllPositive(items) ==>
              AllSlotsPriced(items, rules, prices.value)
  {
    prices := PriceWizardItems(items, RulesByGroup(items, rules));
    if prices.Ok? && AllPositive(items) { SlotsPriced(items, rules, prices.value); }
    ghost var spaces, tables;
    rows, spaces, tables := BuildOrderTableRows(items, PricingBySpace(rules), place);
    if Alignable(items, rules) { AlignableHasRules(items, rules); }
  }

  // ----- Exactly these tariffs -----

  /** Every cart of whole-hour slots of the space is aligned. */
  ghost predicate CartsAlign(space: Id, r: PricingRule) {
    forall items | HourCart(space, items) :: Aligned(items, map[space := r])
  }

  /** A cart of whole-hour slots of one space. */
  predicate HourCart(space: Id, items: seq<CartItem>) {
    AllPositive(items) && WholeHours(items) && forall i | 0 <= i < |items| :: items[i].space == space
  }

  /** The cart of one slot, from midnight, of less than a day. */
  function OneSlot(space: Id, h: nat): seq<CartItem>
    requires h < 24
  {
    [CartItem(space, 0, Iv(0, 60 * h), 0)]
  }

  lemma OneGroup(space: Id, h: nat)
    requires h < 24
    ensures Groups(OneSlot(space, h)) == {Group(space, 0)}
    ensures Ivs(RowsIn(OneSlot(space, h), Group(space, 0))) == [Iv(0, 60 * h)]
  {
    var items := OneSlot(space, h);
    assert GroupOf(items[0]) == Group(space, 0);
    assert items[..0] == [];
    assert RowsIn(items, Group(space, 0)) == [Row(items[0].iv, 0)];
  }

  lemma OneBlock(v: Iv)
    ensures BlocksOf([v]) == [v]
  {
    assert [v][..0] == [];
    assert SortBy(IvKey, [v]) == [v];
  }

  lemma OneKey<K>(m: map<K, int>, k: K)
    requires m.Keys == {k}
    ensures SumMap(m) == m[k]
  {
    SumTake(m, {k}, k);
    assert {k} - {k} == {};
  }

  lemma OneBlockCents(v: Iv, r: PricingRule)
    ensures BlocksCents([v], r) == BlockCents(v, r)
  {
    assert [v][..0] == [];
  }

  lemma OneSlotCents(space: Id, h: nat, r: PricingRule)
    requires 0 < h < 24
    ensures WizardTotal(OneSlot(space, h), RulesByGroup(OneSlot(space, h), map[space := r])) == PackageCents(100 * h, r)
  {
    var items, g, v := OneSlot(space, h), Group(space, 0), Iv(0, 60 * h);
    OneGroup(space, h);
    OneBlock(v);
    CentsOfHours(v, h, r);
    OneBlockCents(v, r);
    OneKey(CentsByGroup(items, RulesByGroup(items, map[space := r])), g);
  }

  lemma OneSlotPesos(space: Id, h: nat, r: PricingRule)
    requires 0 < h < 24
    ensures TableSubtotal(OneSlot(space, h), PricingBySpace(map[space := r])) == BlockPesos(60 * h, CatalogOf(r))
  {
    var items, g, v := OneSlot(space, h), Group(space, 0), Iv(0, 60 * h);
    OneGroup(space, h);
    OneBlock(v);
    RowsAreItems(items, g);
    SumMapAppend(RunPesos(CatalogOf(r)), [], v);
    assert [] + [v] == [v];
    PesosOfHours(v, h, CatalogOf(r));
    OneKey(PesosByGroup(items, PricingBySpace(map[space := r])), g);
  }

  lemma OneSlotIsAligned(space: Id, h: nat, r: PricingRule)
    requires 0 < h < 24 && CartsAlign(space, r)
    ensures Aligned(OneSlot(space, h), map[space := r])
  {
    assert HourCart(space, OneSlot(space, h));
  }

  lemma AlignedAmounts(items: seq<CartItem>, rules: map<Id, PricingRule>, cents: int, pesos: int)
    requires Aligned(items, rules)
    requires WizardTotal(items, RulesByGroup(items, rules)) == cents &&
             TableSubtotal(items, PricingBySpace(rules)) == pesos
    ensures cents == 100 * pesos
  {
  }

  lemma OneSlotAligns(space: Id, h: nat, r: PricingRule)
    requires 0 < h < 24 && CartsAlign(space, r)
    ensures SameForHours(h, r)
  {
    OneSlotCents(space, h, r);
    OneSlotPesos(space, h, r);
    OneSlotIsAligned(space, h, r);
    AlignedAmounts(OneSlot(space, h), map[space := r], PackageCents(100 * h, r), BlockPesos(60 * h, CatalogOf(r)));
  }

  /** The two modules agree on every cart of whole-hour slots of a space if and only if its tariffs align. */
  lemma CartsAlignIff(space: Id, r: PricingRule)
    ensures CartsAlign(space, r) <==> TariffsAlign(r)
  {
    if TariffsAlign(r) {
      forall items | HourCart(space, items)
        ensures Aligned(items, map[space := r])
      {
        assert Alignable(items, map[space := r]);
        WizardAgreesWithTable(items, map[space := r]);
      }
    }
    if CartsAlign(space, r) {
      forall h: nat | 0 < h < 24
        ensures SameForHours(h, r)
      {
        OneSlotAligns(space, h, r);
      }
      BlocksAlignIff(r);
    }
  }
}
