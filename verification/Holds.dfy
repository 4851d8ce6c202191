/** Soft holds and time: a hold checks only its own rows, so it may be laid across a slot that is already taken.
    When exactly the taken slots of a space stay disjoint. */
module Holds {
  import opened Common
  import opened Inventory
  import opened InventoryInvariants
  import opened Booking
  import opened BookingInvariants
  import opened Runs

  /** Held by a reservation or by a quote. */
  predicate Taken(e: SlotStatus) {
    Held(e) || e == SoftHold
  }

  /** No two taken rows of one space overlap. */
  ghost predicate TakenApart(t: Table) {
    forall k, x | Taken(At(t, k).estado) && Taken(At(t, x).estado) && k != x :: !Overlaps(k, x)
  }

  /** No slot of the hold overlaps a taken row, or another slot of the hold. */
  ghost predicate ClearHold(t: Table, keys: seq<Key>) {
    forall k, x | k in keys && x != k && Overlaps(k, x) :: !Taken(At(t, x).estado) && x !in keys
  }

  lemma AtHold(t: Table, keys: seq<Key>, quote: Id, x: Key)
    ensures At(HoldTable(t, keys, quote), x) ==
            if x in keys then At(t, x).(estado := SoftHold, quote := Some(quote)) else At(t, x)
  {
  }

  /** Placing a hold keeps the taken rows disjoint if and only if the hold is clear. */
  lemma HoldKeepsTakenApartIff(t: Table, keys: seq<Key>, quote: Id)
    requires TakenApart(t)
    ensures TakenApart(HoldTable(t, keys, quote)) <==> ClearHold(t, keys)
  {
    var t' := HoldTable(t, keys, quote);
    forall x
      ensures Taken(At(t', x).estado) <==> x in keys || Taken(At(t, x).estado)
    {
      AtHold(t, keys, quote, x);
    }
  }

  /** Placing a hold and dropping it gives every row back, when the quote held nothing before. */
  lemma HoldThenDrop(t: Table, keys: seq<Key>, quote: Id)
    requires HoldOk(t, keys) && forall k | k in t :: t[k].quote != Some(quote)
    ensures forall x :: At(DropHoldTable(HoldTable(t, keys, quote), quote), x) == At(t, x)
  {
    forall x
      ensures At(DropHoldTable(HoldTable(t, keys, quote), quote), x) == At(t, x)
    {
      AtHold(t, keys, quote, x);
      assert x in keys ==> Holdable(At(t, x));
    }
  }

  // ----- The other steps -----

  lemma FewerTaken(t: Table, t': Table)
    requires TakenApart(t) && forall x :: Taken(At(t', x).estado) ==> Taken(At(t, x).estado)
    ensures TakenApart(t')
  {
  }

  lemma ClaimKeepsTakenApart(c: Config, t: Table, k: Key, rid: Id)
    requires TakenApart(t) && ClaimOk(c, t, k)
    ensures TakenApart(ClaimTable(c, t, k, rid))
  {
    var t' := ClaimTable(c, t, k, rid);
    forall x
      ensures Taken(At(t', x).estado) ==> x == k || Taken(At(t, x).estado)
      ensures x != k && Taken(At(t, x).estado) ==> !Overlaps(x, k)
    {
      AtClaim(c, t, k, rid, x);
    }
    OneMoreTaken(t, t', k);
  }

  lemma OneMoreTaken(t: Table, t': Table, k: Key)
    requires TakenApart(t)
    requires forall x :: Taken(At(t', x).estado) ==> x == k || Taken(At(t, x).estado)
    requires forall x | x != k && Taken(At(t, x).estado) :: !Overlaps(x, k)
    ensures TakenApart(t')
  {
  }

  lemma {:induction false} CreateAllKeepsTakenApart(
    c: Config, s: State, user: Id, group: Option<Id>, items: seq<Item>, now: int
  )
    requires TakenApart(s.rows) && CreateAll(c, s, user, group, items, now).Some?
    ensures TakenApart(CreateAll(c, s, user, group, items, now).value.rows)
    decreases |items|
  {
    if items != [] {
      var n := |items| - 1;
      CreateAllKeepsTakenApart(c, s, user, group, items[..n], now);
      var s' := CreateAll(c, s, user, group, items[..n], now).value;
      ClaimKeepsTakenApart(c, s'.rows, items[n].key, items[n].rid);
    }
  }

  lemma CloseKeepsTakenApart(c: Config, s: State, rid: Id, status: Status)
    requires TakenApart(s.rows) && rid in s.reservations
    ensures TakenApart(Close(c, s, rid, status).rows)
  {
    var k := s.reservations[rid].key;
    if OwnsRow(s, rid) {
      forall x { FreeOnlyOpens(c, s.rows, k, x); }
      FewerTaken(s.rows, FreeTable(c, s.rows, k));
    }
  }

  lemma {:induction false} CancelEachKeepsTakenApart(c: Config, s: State, order: seq<Id>)
    requires TakenApart(s.rows)
    ensures TakenApart(CancelEach(c, s, order).rows)
    decreases |order|
  {
    if order != [] {
      var n := |order| - 1;
      CancelEachKeepsTakenApart(c, s, order[..n]);
      var s' := CancelEach(c, s, order[..n]);
      if order[n] in s'.reservations { CloseKeepsTakenApart(c, s', order[n], Cancelled); }
    }
  }

  lemma ConfirmKeepsTakenApart(c: Config, s: State, rid: Id)
    requires Inv(c, s) && TakenApart(s.rows)
    ensures TakenApart(Next(c, s, ConfirmPayment(rid)).rows)
  {
    if rid in s.reservations && OwnsRow(s, rid) {
      var k := s.reservations[rid].key;
      assert Held(s.rows[k].estado);
      FewerTaken(s.rows, ConfirmTable(s.rows, k));
    }
  }

  lemma DropKeepsTakenApart(t: Table, quote: Id)
    requires TakenApart(t)
    ensures TakenApart(DropHoldTable(t, quote))
  {
    FewerTaken(t, DropHoldTable(t, quote));
  }

  lemma SweepKeepsTakenApart(c: Config, s: State, i: nat, rid: Id)
    requires TakenApart(s.rows)
    ensures TakenApart(Next(c, s, SweepStep(i, rid)).rows)
  {
    if i < |s.sweeps| && rid in s.reservations {
      CloseKeepsTakenApart(c, s.(sweeps := s.sweeps[i := Visited(s, s.sweeps[i], rid)]), rid, Expired);
    }
  }

  lemma CancelKeepsTakenApart(c: Config, s: State, role: Role, user: Id, rid: Id, order: seq<Id>)
    requires TakenApart(s.rows)
    ensures TakenApart(Next(c, s, Cancel(role, user, rid, order)).rows)
  {
    CancelEachKeepsTakenApart(c, s, order);
    if rid in s.reservations { CloseKeepsTakenApart(c, s, rid, Cancelled); }
  }

  /** Only a hold can make taken rows overlap. */
  lemma StepKeepsTakenApart(c: Config, s: State, a: Action)
    requires Inv(c, s) && TakenApart(s.rows) && !a.PlaceHold?
    ensures TakenApart(Next(c, s, a).rows)
  {
    match a
    case Create(_, user, item, now) =>
      if CreateOne(c, s, user, None, item, now).Some? { ClaimKeepsTakenApart(c, s.rows, item.key, item.rid); }
    case CreateEvent(_, user, group, items, now) =>
      if CreateAll(c, s, user, Some(group), items, now).Some? {
        CreateAllKeepsTakenApart(c, s, user, Some(group), items, now);
      }
    case ConfirmPayment(rid) => ConfirmKeepsTakenApart(c, s, rid);
    case RejectPayment(rid) =>
      if rid in s.reservations { CloseKeepsTakenApart(c, s, rid, Expired); }
    case Cancel(role, user, rid, order) => CancelKeepsTakenApart(c, s, role, user, rid, order);
    case DropHold(quote) => DropKeepsTakenApart(s.rows, quote);
    case SweepStep(i, rid) => SweepKeepsTakenApart(c, s, i, rid);
    case _ =>
  }

  // ----- Runs -----

  /** Taken rows are disjoint in every state of the run. */
  ghost predicate ApartThroughout(c: Config, s0: State, run: seq<Action>)
    decreases |run|
  {
    TakenApart(Exec(c, s0, run).rows) && (run == [] || ApartThroughout(c, s0, run[..|run| - 1]))
  }

  /** Unless it is refused, the hold is clear. */
  ghost predicate ClearStep(s: State, a: Action) {
    a.PlaceHold? && HoldOk(s.rows, a.keys) ==> ClearHold(s.rows, a.keys)
  }

  /** Every hold of the run was clear when it was placed. */
  ghost predicate HoldsClear(c: Config, s0: State, run: seq<Action>)
    decreases |run|
  {
    run == [] ||
    (ClearStep(Exec(c, s0, run[..|run| - 1]), run[|run| - 1]) && HoldsClear(c, s0, run[..|run| - 1]))
  }

  lemma NextTakenApartIff(c: Config, s: State, a: Action)
    requires Inv(c, s) && TakenApart(s.rows)
    ensures TakenApart(Next(c, s, a).rows) <==> ClearStep(s, a)
  {
    if a.PlaceHold? {
      HoldKeepsTakenApartIff(s.rows, a.keys, a.quote);
    } else {
      StepKeepsTakenApart(c, s, a);
    }
  }

  /** In every run, reserved and soft-held rows of a space are disjoint throughout if and only if every hold was
      clear when it was placed. */
  lemma {:induction false} ApartThroughoutIff(c: Config, s0: State, run: seq<Action>)
    requires Acyclic(c) && Init(s0)
    ensures ApartThroughout(c, s0, run) <==> HoldsClear(c, s0, run)
    decreases |run|
  {
    if run == [] {
      assert forall x :: !Taken(At(s0.rows, x).estado);
    } else {
      var prefix := run[..|run| - 1];
      ApartThroughoutIff(c, s0, prefix);
      RunKeepsInv(c, s0, prefix);
      if TakenApart(Exec(c, s0, prefix).rows) {
        NextTakenApartIff(c, Exec(c, s0, prefix), run[|run| - 1]);
      }
    }
  }

  lemma HoldOnClaimed(c: Config, k: Key, x: Key, quote: Id)
    requires x != k && Overlaps(x, k)
    ensures
      var t := ClaimTable(c, map[], k, 0);
      HoldOk(t, [x]) && At(HoldTable(t, [x], quote), k).estado == TtlBlocked &&
      At(HoldTable(t, [x], quote), x).estado == SoftHold
  {
    var t := ClaimTable(c, map[], k, 0);
    AtClaim(c, map[], k, 0, k);
    AtClaim(c, map[], k, 0, x);
    assert Holdable(At(t, x));
    AtHold(t, [x], quote, k);
    AtHold(t, [x], quote, x);
  }

  lemma StepHolds(c: Config, s: State, quote: Id, keys: seq<Key>)
    requires HoldOk(s.rows, keys)
    ensures Next(c, s, PlaceHold(quote, keys)).rows == HoldTable(s.rows, keys, quote)
  {
  }

  /** A hold laid across a reserved slot of the same space is not refused. */
  lemma HoldAcrossReserved(c: Config, k: Key, x: Key, quote: Id)
    requires Granular(c, k) && x != k && Overlaps(x, k)
    ensures
      var t := Exec(c, EMPTY, [Create(Staff, 0, Item(0, k), 0), PlaceHold(quote, [x])]).rows;
      Init(EMPTY) && At(t, k).estado == TtlBlocked && At(t, x).estado == SoftHold
  {
    var a, b := Create(Staff, 0, Item(0, k), 0), PlaceHold(quote, [x]);
    EmptyTableClaims(c, k);
    StaffCreates(c, EMPTY, 0, Item(0, k), 0);
    TwoSteps(c, a, b);
    HoldOnClaimed(c, k, x, quote);
    StepHolds(c, Next(c, EMPTY, a), quote, [x]);
  }
}
