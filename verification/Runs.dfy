/** Safety over whole runs: what holds in every state a sequence of steps can reach from an empty inventory,
    and exactly for which hierarchies and session settings. */
module Runs {
  import opened Common
  import opened Inventory
  import opened InventoryInvariants
  import opened Hierarchy
  import opened Booking
  import opened BookingInvariants

  // ----- Agreement of reservations and rows -----

  /** The rows that carry this reservation's id. */
  ghost function RowsOf(s: State, rid: Id): set<Key> {
    set k | k in s.rows && s.rows[k].reservation == Some(rid)
  }

  /** In every run: an active reservation owns exactly one row, at its key and TTL_BLOCKED; a confirmed one
      exactly one, RESERVED; an expired or cancelled one none. Every row with a reservation id names a
      reservation of the table, and no row has both a reservation and a quote. */
  lemma ReservationsAgreeWithRows(c: Config, s0: State, run: seq<Action>)
    requires Acyclic(c) && Init(s0)
    ensures
      var s := Exec(c, s0, run);
      && (forall rid | rid in s.reservations ::
            var r := s.reservations[rid];
            if Terminal(r.status) then RowsOf(s, rid) == {}
            else RowsOf(s, rid) == {r.key} &&
                 s.rows[r.key].estado == (if r.status == Confirmed then Reserved else TtlBlocked))
      && (forall k | k in s.rows && s.rows[k].reservation.Some? :: s.rows[k].reservation.value in s.reservations)
      && (forall k | k in s.rows :: s.rows[k].reservation == None || s.rows[k].quote == None)
  {
    var s := Exec(c, s0, run);
    RunKeepsInv(c, s0, run);
    forall rid | rid in s.reservations
      ensures
        var r := s.reservations[rid];
        if Terminal(r.status) then RowsOf(s, rid) == {}
        else RowsOf(s, rid) == {r.key} &&
             s.rows[r.key].estado == (if r.status == Confirmed then Reserved else TtlBlocked)
    {
      if Live(s.reservations[rid].status) {
        assert OwnsRow(s, rid);
        assert RowsOf(s, rid) == {s.reservations[rid].key};
      }
    }
  }

  /** In every run two distinct reserved rows of one space and date never overlap in time, whatever their
      start and end. */
  lemma HeldRowsNeverOverlap(c: Config, s0: State, run: seq<Action>, a: Key, b: Key)
    requires Acyclic(c) && Init(s0) && a != b
    requires Held(At(Exec(c, s0, run).rows, a).estado) && Held(At(Exec(c, s0, run).rows, b).estado)
    requires a.space == b.space && a.slot.fecha == b.slot.fecha
    ensures a.slot.fin <= b.slot.ini || b.slot.fin <= a.slot.ini
  {
    var t := Exec(c, s0, run).rows;
    assert HeldApart(t) by { RunKeepsInv(c, s0, run); }
    assert !Overlaps(a, b);
  }

  // ----- Exclusion up and down the hierarchy -----

  /** Two bookable slots of a space and a proper ancestor that the shadow blocks do not separate. */
  ghost predicate Unguarded(c: Config, k: Key, n: nat, y: Id) {
    && n > 0 && Ancestor(c, k.space, n) == Some(y) && !Guarded(c, k, n, y)
    && Granular(c, k) && Granular(c, Key(y, k.slot))
  }

  ghost predicate AlwaysExclusive(c: Config) {
    forall s0, run | Init(s0) :: Exclusive(c, Exec(c, s0, run).rows)
  }

  const EMPTY := State(map[], map[], [])

  lemma {:induction false} AncestorsCompose(c: Config, a: Id, m: nat, b: Id, n: nat)
    requires Ancestor(c, a, m) == Some(b)
    ensures Ancestor(c, a, m + n) == Ancestor(c, b, n)
    decreases m
  {
    if m > 0 {
      AncestorsCompose(c, c.parent[a], m - 1, b, n);
    }
  }

  lemma ParentIsAncestor(c: Config, s: Id)
    requires s in c.parent
    ensures Ancestor(c, s, 1) == Some(c.parent[s])
  {
    assert Ancestor(c, c.parent[s], 0) == Some(c.parent[s]);
  }

  /** Going up never leads back. */
  lemma NoReturn(c: Config, a: Id, m: nat, b: Id, n: nat)
    requires Acyclic(c) && Ancestor(c, a, m) == Some(b) && m + n > 0
    ensures Ancestor(c, b, n) != Some(a)
  {
    AncestorsCompose(c, a, m, b, n);
  }

  /** y is above a at distance m > 0, so it is not a, and a is not its parent. */
  lemma AboveIsElsewhere(c: Config, a: Id, m: nat, y: Id)
    requires Acyclic(c) && Ancestor(c, a, m) == Some(y) && m > 0
    ensures y != a && (y in c.parent ==> c.parent[y] != a)
  {
    NoReturn(c, a, m, y, 0);
    NoReturn(c, a, m, y, 1);
    if y in c.parent { ParentIsAncestor(c, y); }
  }

  lemma EmptyTableClaims(c: Config, k: Key)
    requires Granular(c, k)
    ensures ClaimOk(c, map[], k)
  {
  }

  /** After the ancestor was claimed, nothing around the descendant has changed. */
  lemma DescendantUntouched(c: Config, k: Key, n: nat, y: Id, x: Key)
    requires Acyclic(c) && Unguarded(c, k, n, y)
    requires x == k || IsParent(c, k, x) || IsChild(c, k, x)
    ensures At(ClaimTable(c, map[], Key(y, k.slot), 0), x).estado == Available
  {
    var p := c.parent[k.space];
    AtClaim(c, map[], Key(y, k.slot), 0, x);
    ParentIsAncestor(c, k.space);
    AncestorsCompose(c, k.space, 1, p, n - 1);
    AboveIsElsewhere(c, k.space, n, y);
    AboveIsElsewhere(c, p, n - 1, y);
    if IsParent(c, k, x) {
      if n > 2 {
        ParentIsAncestor(c, p);
        AncestorsCompose(c, p, 1, c.parent[p], n - 2);
        AboveIsElsewhere(c, c.parent[p], n - 2, y);
      }
    } else if IsChild(c, k, x) {
      ParentIsAncestor(c, x.space);
      AncestorsCompose(c, x.space, 1, k.space, n);
      AboveIsElsewhere(c, x.space, n + 1, y);
    }
  }

  lemma BothCanBeClaimed(c: Config, k: Key, n: nat, y: Id)
    requires Acyclic(c) && Unguarded(c, k, n, y)
    ensures
      var top := Key(y, k.slot);
      ClaimOk(c, map[], top) && ClaimOk(c, ClaimTable(c, map[], top, 0), k) && top != k
  {
    var top := Key(y, k.slot);
    var t := ClaimTable(c, map[], top, 0);
    EmptyTableClaims(c, top);
    AtClaim(c, map[], top, 0, top);
    DescendantUntouched(c, k, n, y, k);
    AtClaim(c, map[], top, 0, k);
    assert At(t, k).reservation == None;
    forall x | IsParent(c, k, x)
      ensures At(t, x).estado == Available
    {
      DescendantUntouched(c, k, n, y, x);
    }
    forall x | IsChild(c, k, x)
      ensures At(t, x).estado == Available
    {
      DescendantUntouched(c, k, n, y, x);
    }
    assert forall x | x in t :: x.slot == k.slot;
  }

  lemma TwoSteps(c: Config, a: Action, b: Action)
    ensures Exec(c, EMPTY, [a, b]) == Next(c, Next(c, EMPTY, a), b)
  {
    assert [a][..0] == [] && [a, b][..1] == [a];
    assert Exec(c, EMPTY, [a]) == Next(c, EMPTY, a);
  }

  lemma StaffCreates(c: Config, s: State, user: Id, item: Item, now: int)
    requires FreshId(s, item.rid) && ClaimOk(c, s.rows, item.key)
    ensures
      var s' := Next(c, s, Create(Staff, user, item, now));
      && s'.rows == ClaimTable(c, s.rows, item.key, item.rid)
      && s'.reservations == s.reservations[item.rid := NewReservation(c, user, None, item.key, now)]
  {
  }

  /** Two bookings by the back office, one after the other. */
  function TwoBookings(first: Key, second: Key): seq<Action> {
    [Create(Staff, 0, Item(0, first), 0), Create(Staff, 0, Item(1, second), 0)]
  }

  /** A run that books the ancestor and then the descendant. */
  lemma UnguardedRun(c: Config, k: Key, n: nat, y: Id)
    requires Acyclic(c) && Unguarded(c, k, n, y)
    ensures
      var t := Exec(c, EMPTY, TwoBookings(Key(y, k.slot), k)).rows;
      Held(At(t, k).estado) && Held(At(t, Key(y, k.slot)).estado)
  {
    var top := Key(y, k.slot);
    var a, b := Item(0, top), Item(1, k);
    BothCanBeClaimed(c, k, n, y);
    StaffCreates(c, EMPTY, 0, a, 0);
    StaffCreates(c, Next(c, EMPTY, Create(Staff, 0, a, 0)), 0, b, 0);
    TwoSteps(c, Create(Staff, 0, a, 0), Create(Staff, 0, b, 0));
    BothHeld(c, top, k);
  }

  lemma BothHeld(c: Config, top: Key, k: Key)
    requires top != k && ClaimOk(c, ClaimTable(c, map[], top, 0), k)
    ensures
      var t := ClaimTable(c, ClaimTable(c, map[], top, 0), k, 1);
      Held(At(t, k).estado) && Held(At(t, top).estado)
  {
    AtClaim(c, map[], top, 0, top);
    AtClaim(c, ClaimTable(c, map[], top, 0), k, 1, k);
    AtClaim(c, ClaimTable(c, map[], top, 0), k, 1, top);
  }

  /** Exactly when no run ever lets a space and one of its ancestors be held for the same slot: when every
      bookable pair is parent and child, or grandchild and root. */
  lemma ExclusiveInEveryRunIff(c: Config)
    requires Acyclic(c)
    ensures AlwaysExclusive(c) <==> !exists k, n: nat, y :: Unguarded(c, k, n, y)
  {
    if exists k, n: nat, y :: Unguarded(c, k, n, y) {
      var k, n: nat, y :| Unguarded(c, k, n, y);
      UnguardedRun(c, k, n, y);
      assert Init(EMPTY) && !Exclusive(c, Exec(c, EMPTY, TwoBookings(Key(y, k.slot), k)).rows);
    } else {
      forall s0, run | Init(s0)
        ensures Exclusive(c, Exec(c, s0, run).rows)
      {
        var t := Exec(c, s0, run).rows;
        assert Marked(c, t) && Placed(c, t) by { RunKeepsInv(c, s0, run); }
        forall k: Key, n: nat, y: Id | n > 0 && Ancestor(c, k.space, n) == Some(y) &&
            Held(At(t, k).estado) && Held(At(t, Key(y, k.slot)).estado)
          ensures false
        {
          assert !Unguarded(c, k, n, y);
          GuardedPairsExclude(c, t, k, n, y);
        }
      }
    }
  }

  /** With at most three levels exclusion holds in every run, soft holds and sweeps included. */
  lemma ThreeLevelsAlwaysExclusive(c: Config)
    requires Acyclic(c) && ThreeLevels(c)
    ensures AlwaysExclusive(c)
  {
    forall k, n: nat, y | Unguarded(c, k, n, y)
      ensures false
    {
      ThreeLevelsAreGuarded(c, k, n, y);
    }
    ExclusiveInEveryRunIff(c);
  }

  /** Three levels is the most: in a chain of four whose second and last space share a bookable slot, some
      run books both, because a claim on a space that has a parent does not mark its children. */
  lemma FourLevelsAreTooMany(c: Config, slot: Slot, top: Id, second: Id, third: Id, last: Id)
    requires Acyclic(c) && last in c.parent && c.parent[last] == third && third in c.parent
    requires c.parent[third] == second && second in c.parent && c.parent[second] == top
    requires Granular(c, Key(second, slot)) && Granular(c, Key(last, slot))
    ensures Init(EMPTY) && !AlwaysExclusive(c)
    ensures
      var t := Exec(c, EMPTY, TwoBookings(Key(second, slot), Key(last, slot))).rows;
      Held(At(t, Key(second, slot)).estado) && Held(At(t, Key(last, slot)).estado)
  {
    ParentIsAncestor(c, last);
    ParentIsAncestor(c, third);
    AncestorsCompose(c, last, 1, third, 1);
    assert Unguarded(c, Key(last, slot), 2, second);
    UnguardedRun(c, Key(last, slot), 2, second);
    ExclusiveInEveryRunIff(c);
  }

  // ----- Exclusion across different slots -----

  /** A space and one of its ancestors, at two different slots that overlap. */
  ghost predicate AcrossSlots(c: Config, k: Key, n: nat, x: Key) {
    n > 0 && Ancestor(c, k.space, n) == Some(x.space) && k.slot != x.slot && SlotsOverlap(k.slot, x.slot)
  }

  ghost predicate ApartAcrossSlots(c: Config, t: Table) {
    forall k, n: nat, x | AcrossSlots(c, k, n, x) :: !(Held(At(t, k).estado) && Held(At(t, x).estado))
  }

  ghost predicate AlwaysApartAcrossSlots(c: Config) {
    forall s0, run | Init(s0) :: ApartAcrossSlots(c, Exec(c, s0, run).rows)
  }

  /** Such a pair, both bookable, other than a root and its own child. */
  ghost predicate Loose(c: Config, k: Key, n: nat, x: Key) {
    AcrossSlots(c, k, n, x) && Granular(c, k) && Granular(c, x) && !(n == 1 && IsRoot(c, x))
  }

  lemma NoReturnUnlessHere(c: Config, a: Id, m: nat, y: Id)
    requires Acyclic(c) && Ancestor(c, a, m) == Some(y)
    ensures a == y <==> m == 0
  {
    if m > 0 { AboveIsElsewhere(c, a, m, y); }
  }

  /** After the ancestor was claimed, the descendant's own rows and everything at its slot are available. */
  lemma LooseSideUntouched(c: Config, k: Key, n: nat, x: Key, z: Key)
    requires Acyclic(c) && Loose(c, k, n, x) && (z.slot == k.slot || z.space == k.space)
    ensures At(ClaimTable(c, map[], x, 0), z) == Row(Available, None, None)
  {
    ParentIsAncestor(c, k.space);
    AncestorsCompose(c, k.space, 1, c.parent[k.space], n - 1);
    NoReturnUnlessHere(c, c.parent[k.space], n - 1, x.space);
    AboveIsElsewhere(c, k.space, n, x.space);
    AtClaim(c, map[], x, 0, z);
  }

  lemma LoosePairClaims(c: Config, k: Key, n: nat, x: Key)
    requires Acyclic(c) && Loose(c, k, n, x)
    ensures ClaimOk(c, map[], x) && ClaimOk(c, ClaimTable(c, map[], x, 0), k) && x != k
  {
    var t := ClaimTable(c, map[], x, 0);
    EmptyTableClaims(c, x);
    forall z: Key | z.slot == k.slot || z.space == k.space
      ensures At(t, z) == Row(Available, None, None)
    {
      LooseSideUntouched(c, k, n, x, z);
    }
  }

  lemma LooseRun(c: Config, k: Key, n: nat, x: Key)
    requires Acyclic(c) && Loose(c, k, n, x)
    ensures
      var t := Exec(c, EMPTY, TwoBookings(x, k)).rows;
      Held(At(t, k).estado) && Held(At(t, x).estado)
  {
    var run := TwoBookings(x, k);
    LoosePairClaims(c, k, n, x);
    StaffCreates(c, EMPTY, 0, Item(0, x), 0);
    StaffCreates(c, Next(c, EMPTY, run[0]), 0, Item(1, k), 0);
    TwoSteps(c, run[0], run[1]);
    BothHeld(c, x, k);
  }

  /** Exactly when exclusion also covers overlapping slots whose start or end differ: when every bookable
      pair of that kind is a root and its child. Two levels have this; a third level loses it, because the
      checks on parent and children look only at the very same slot. */
  lemma ApartAcrossSlotsInEveryRunIff(c: Config)
    requires Acyclic(c)
    ensures AlwaysApartAcrossSlots(c) <==> !exists k, n: nat, x :: Loose(c, k, n, x)
  {
    if exists k, n: nat, x :: Loose(c, k, n, x) {
      var k, n: nat, x :| Loose(c, k, n, x);
      LooseRun(c, k, n, x);
      assert Init(EMPTY) && AcrossSlots(c, k, n, x) && !ApartAcrossSlots(c, Exec(c, EMPTY, TwoBookings(x, k)).rows);
    } else {
      forall s0, run | Init(s0)
        ensures ApartAcrossSlots(c, Exec(c, s0, run).rows)
      {
        var t := Exec(c, s0, run).rows;
        assert Placed(c, t) && RootsApart(c, t) by { RunKeepsInv(c, s0, run); }
        forall k, n: nat, x | AcrossSlots(c, k, n, x)
          ensures !(Held(At(t, k).estado) && Held(At(t, x).estado))
        {
          assert !Loose(c, k, n, x);
          if n == 1 {
            assert Ancestor(c, c.parent[k.space], 0) == Some(x.space);
            assert IsRoot(c, x) ==> UnderRoot(c, k, x);
          }
        }
      }
    }
  }

  // ----- Exactness of the shadow blocks -----

  ghost predicate WithoutHolds(run: seq<Action>) {
    forall i | 0 <= i < |run| :: !run[i].PlaceHold?
  }

  ghost predicate AlwaysExact(c: Config) {
    forall s0, run | Init(s0) && WithoutHolds(run) :: ExactShadows(c, Exec(c, s0, run).rows)
  }

  /** A child space can be booked at all. */
  ghost predicate SomeChildBookable(c: Config) {
    exists k: Key :: k.space in c.parent && Granular(c, k)
  }

  ghost predicate NothingSoftHeld(t: Table) {
    forall x :: At(t, x).estado != SoftHold
  }

  ghost predicate Clean(c: Config, s: State) {
    NoStaleShadows(c, s.rows) && NothingSoftHeld(s.rows)
  }

  lemma CreateOneKeepsClean(c: Config, s: State, user: Id, group: Option<Id>, item: Item, now: int)
    requires Clean(c, s) && CreateOne(c, s, user, group, item, now).Some?
    ensures Clean(c, CreateOne(c, s, user, group, item, now).value)
  {
    ClaimLeavesNoStaleShadow(c, s.rows, item.key, item.rid);
    forall x { AtClaim(c, s.rows, item.key, item.rid, x); }
  }

  lemma {:induction false} CreateAllKeepsClean(
    c: Config, s: State, user: Id, group: Option<Id>, items: seq<Item>, now: int
  )
    requires Clean(c, s) && CreateAll(c, s, user, group, items, now).Some?
    ensures Clean(c, CreateAll(c, s, user, group, items, now).value)
    decreases |items|
  {
    if items != [] {
      var n := |items| - 1;
      CreateAllKeepsClean(c, s, user, group, items[..n], now);
      CreateOneKeepsClean(c, CreateAll(c, s, user, group, items[..n], now).value, user, group, items[n], now);
    }
  }

  lemma FreeKeepsClean(c: Config, t: Table, k: Key)
    requires Sound(c, t) && NoStaleShadows(c, t) && NothingSoftHeld(t)
    requires k in t && Held(t[k].estado) && (c.autoflush || !SomeChildBookable(c))
    ensures NoStaleShadows(c, FreeTable(c, t, k)) && NothingSoftHeld(FreeTable(c, t, k))
  {
    assert Held(At(t, k).estado) && Granular(c, k);
    FreeLeavesNoStaleShadow(c, t, k);
    forall x { FreeOnlyOpens(c, t, k, x); }
  }

  lemma CloseKeepsClean(c: Config, s: State, rid: Id, status: Status)
    requires Inv(c, s) && Clean(c, s) && rid in s.reservations
    requires c.autoflush || !SomeChildBookable(c)
    ensures Clean(c, Close(c, s, rid, status))
  {
    if OwnsRow(s, rid) {
      FreeKeepsClean(c, s.rows, s.reservations[rid].key);
    }
  }

  lemma {:induction false} CancelEachKeepsClean(c: Config, s: State, order: seq<Id>)
    requires Inv(c, s) && Clean(c, s)
    requires c.autoflush || !SomeChildBookable(c)
    ensures Clean(c, CancelEach(c, s, order))
    decreases |order|
  {
    if order != [] {
      var n := |order| - 1;
      CancelEachKeepsClean(c, s, order[..n]);
      CancelEachKeepsInv(c, s, order[..n]);
      var s' := CancelEach(c, s, order[..n]);
      if order[n] in s'.reservations && CanCancel(s'.reservations[order[n]].status) {
        CloseKeepsClean(c, s', order[n], Cancelled);
      }
    }
  }

  lemma SameShadowsKeepClean(c: Config, t: Table, t': Table)
    requires NoStaleShadows(c, t) && NothingSoftHeld(t)
    requires forall x :: At(t', x).estado == At(t, x).estado || (Held(At(t', x).estado) && Held(At(t, x).estado))
    ensures NoStaleShadows(c, t') && NothingSoftHeld(t')
  {
    forall x | At(t', x).estado == BlockedByParent
      ensures exists h :: IsParent(c, x, h) && IsRoot(c, h) && Held(At(t', h).estado)
    {
      var h :| IsParent(c, x, h) && IsRoot(c, h) && Held(At(t, h).estado);
      assert Held(At(t', h).estado);
    }
    forall x | At(t', x).estado == BlockedByChild
      ensures exists h :: IsChild(c, x, h) && Held(At(t', h).estado)
    {
      var h :| IsChild(c, x, h) && Held(At(t, h).estado);
      assert Held(At(t', h).estado);
    }
  }

  lemma ConfirmKeepsClean(c: Config, s: State, rid: Id)
    requires Inv(c, s) && Clean(c, s)
    ensures Clean(c, Next(c, s, ConfirmPayment(rid)))
  {
    if rid in s.reservations && OwnsRow(s, rid) {
      var k := s.reservations[rid].key;
      assert Held(s.rows[k].estado);
      SameShadowsKeepClean(c, s.rows, ConfirmTable(s.rows, k));
    }
  }

  lemma DropKeepsClean(c: Config, s: State, quote: Id)
    requires Inv(c, s) && Clean(c, s)
    ensures Clean(c, Next(c, s, DropHold(quote)))
  {
    forall x | x in s.rows
      ensures s.rows[x].quote == None
    {
      assert At(s.rows, x).estado != SoftHold;
    }
    SameShadowsKeepClean(c, s.rows, DropHoldTable(s.rows, quote));
  }

  lemma SweepKeepsClean(c: Config, s: State, i: nat, rid: Id)
    requires Inv(c, s) && Clean(c, s) && i < |s.sweeps| && rid in s.sweeps[i].pending
    requires c.autoflush || !SomeChildBookable(c)
    ensures Clean(c, Next(c, s, SweepStep(i, rid)))
  {
    var s' := s.(sweeps := s.sweeps[i := Visited(s, s.sweeps[i], rid)]);
    SweepsKeepInv(c, s, s'.sweeps);
    if rid in s'.reservations { CloseKeepsClean(c, s', rid, Expired); }
  }

  lemma CancelKeepsClean(c: Config, s: State, role: Role, user: Id, rid: Id, order: seq<Id>)
    requires Inv(c, s) && Clean(c, s)
    requires c.autoflush || !SomeChildBookable(c)
    ensures Clean(c, Next(c, s, Cancel(role, user, rid, order)))
  {
    CancelEachKeepsClean(c, s, order);
    if rid in s.reservations { CloseKeepsClean(c, s, rid, Cancelled); }
  }

  lemma StepKeepsClean(c: Config, s: State, a: Action)
    requires Inv(c, s) && Clean(c, s) && !a.PlaceHold?
    requires c.autoflush || !SomeChildBookable(c)
    ensures Clean(c, Next(c, s, a))
  {
    match a
    case Create(_, user, item, now) =>
      if CreateOne(c, s, user, None, item, now).Some? { CreateOneKeepsClean(c, s, user, None, item, now); }
    case CreateEvent(_, user, group, items, now) =>
      if CreateAll(c, s, user, Some(group), items, now).Some? {
        CreateAllKeepsClean(c, s, user, Some(group), items, now);
      }
    case ConfirmPayment(rid) => ConfirmKeepsClean(c, s, rid);
    case RejectPayment(rid) =>
      if rid in s.reservations { CloseKeepsClean(c, s, rid, Expired); }
    case Cancel(role, user, rid, order) => CancelKeepsClean(c, s, role, user, rid, order);
    case DropHold(quote) => DropKeepsClean(c, s, quote);
    case SweepStep(i, rid) =>
      if i < |s.sweeps| && rid in s.sweeps[i].pending { SweepKeepsClean(c, s, i, rid); }
    case _ =>
  }

  lemma {:induction false} RunKeepsClean(c: Config, s0: State, run: seq<Action>)
    requires Acyclic(c) && Init(s0) && WithoutHolds(run)
    requires c.autoflush || !SomeChildBookable(c)
    ensures Clean(c, Exec(c, s0, run))
    decreases |run|
  {
    if run == [] {
      assert forall x :: At(s0.rows, x).estado == Available || At(s0.rows, x).estado == Maintenance;
    } else {
      var prefix := run[..|run| - 1];
      RunKeepsClean(c, s0, prefix);
      RunKeepsInv(c, s0, prefix);
      StepKeepsClean(c, Exec(c, s0, prefix), run[|run| - 1]);
    }
  }

  lemma StaffCancels(c: Config, s: State, user: Id, rid: Id)
    requires rid in s.reservations && s.reservations[rid].group == None
    requires s.reservations[rid].status == PendingSlip && OwnsRow(s, rid)
    ensures Next(c, s, Cancel(Staff, user, rid, [])).rows == FreeTable(c, s.rows, s.reservations[rid].key)
  {
    assert Next(c, s, Cancel(Staff, user, rid, [])) == Close(c, s, rid, Cancelled);
  }

  lemma FreedButParentBlocked(c: Config, k: Key)
    requires Acyclic(c) && !c.autoflush && k.space in c.parent && Granular(c, k)
    requires k in ClaimTable(c, map[], k, 0)
    ensures
      var t := FreeTable(c, ClaimTable(c, map[], k, 0), k);
      At(t, Key(c.parent[k.space], k.slot)).estado == BlockedByChild && forall x :: !Held(At(t, x).estado)
  {
    var p := Key(c.parent[k.space], k.slot);
    var t := ClaimTable(c, map[], k, 0);
    AtClaim(c, map[], k, 0, k);
    AtClaim(c, map[], k, 0, p);
    NotOwnParent(c, k);
    SeenSiblings(c, t, k);
    AtFree(c, t, k, p);
    forall x
      ensures !Held(At(FreeTable(c, t, k), x).estado)
    {
      AtClaim(c, map[], k, 0, x);
      AtFree(c, t, k, x);
    }
  }

  /** A booking by the back office and its cancellation. */
  function BookAndCancel(k: Key): seq<Action> {
    [Create(Staff, 0, Item(0, k), 0), Cancel(Staff, 0, 0, [])]
  }

  lemma BookedThenCancelled(c: Config, k: Key)
    requires Granular(c, k)
    ensures k in ClaimTable(c, map[], k, 0)
    ensures Exec(c, EMPTY, BookAndCancel(k)).rows == FreeTable(c, ClaimTable(c, map[], k, 0), k)
  {
    var a, b := Create(Staff, 0, Item(0, k), 0), Cancel(Staff, 0, 0, []);
    EmptyTableClaims(c, k);
    StaffCreates(c, EMPTY, 0, Item(0, k), 0);
    AtClaim(c, map[], k, 0, k);
    StaffCancels(c, Next(c, EMPTY, a), 0, 0);
    TwoSteps(c, a, b);
  }

  /** Without autoflush, booking a child and cancelling it leaves its parent blocked, with nothing held. */
  lemma CancelLeavesParentBlocked(c: Config, k: Key)
    requires Acyclic(c) && !c.autoflush && k.space in c.parent && Granular(c, k)
    ensures Init(EMPTY)
    ensures
      var t := Exec(c, EMPTY, BookAndCancel(k)).rows;
      At(t, Key(c.parent[k.space], k.slot)).estado == BlockedByChild && forall x :: !Held(At(t, x).estado)
  {
    BookedThenCancelled(c, k);
    FreedButParentBlocked(c, k);
  }

  lemma BlockedIsInexact(c: Config, k: Key)
    requires Acyclic(c) && !c.autoflush && k.space in c.parent && Granular(c, k)
    ensures !AlwaysExact(c)
  {
    CancelLeavesParentBlocked(c, k);
    assert WithoutHolds(BookAndCancel(k));
    assert !ExactShadows(c, Exec(c, EMPTY, BookAndCancel(k)).rows);
  }

  /** On runs without soft holds the shadow blocks are exact in every reachable state if and only if the
      session flushes before the sibling query, or no child space can be booked at all. */
  lemma ShadowsExactInEveryRunIff(c: Config)
    requires Acyclic(c)
    ensures AlwaysExact(c) <==> c.autoflush || !SomeChildBookable(c)
  {
    if c.autoflush || !SomeChildBookable(c) {
      forall s0, run | Init(s0) && WithoutHolds(run)
        ensures ExactShadows(c, Exec(c, s0, run).rows)
      {
        RunKeepsClean(c, s0, run);
        RunKeepsInv(c, s0, run);
        ShadowsAreExact(c, Exec(c, s0, run).rows);
      }
    } else {
      var k: Key :| k.space in c.parent && Granular(c, k);
      BlockedIsInexact(c, k);
    }
  }

  /** In such a run, with autoflush, creating a reservation and cancelling it gives every row back. */
  lemma CreateThenCancelRestores(c: Config, s0: State, run: seq<Action>, user: Id, item: Item, now: int)
    requires Acyclic(c) && c.autoflush && Init(s0) && WithoutHolds(run)
    requires CreateOne(c, Exec(c, s0, run), user, None, item, now).Some?
    ensures
      var s := Exec(c, s0, run);
      var s' := Next(c, Next(c, s, Create(Staff, user, item, now)), Cancel(Staff, user, item.rid, []));
      forall x :: At(s'.rows, x) == At(s.rows, x)
  {
    var s := Exec(c, s0, run);
    var s1 := Next(c, s, Create(Staff, user, item, now));
    assert Shaped(s.rows) && ExactShadows(c, s.rows) && NothingSoftHeld(s.rows) by {
      RunKeepsClean(c, s0, run);
      RunKeepsInv(c, s0, run);
      ShadowsAreExact(c, s.rows);
    }
    ExactShadowsUndo(c, s.rows, item.key, item.rid);
    StaffCreates(c, s, user, item, now);
    AtClaim(c, s.rows, item.key, item.rid, item.key);
    StaffCancels(c, s1, user, item.rid);
  }

  // ----- The count of the sweep -----

  lemma ExecAppend(c: Config, s: State, run: seq<Action>, a: Action)
    ensures Exec(c, s, run + [a]) == Next(c, Exec(c, s, run), a)
  {
    assert (run + [a])[..|run|] == run;
  }

  lemma LastTwoSteps(c: Config, a: Action, b: Action, d: Action, e: Action)
    ensures Exec(c, EMPTY, [a, b, d, e]) == Next(c, Next(c, Exec(c, EMPTY, [a, b]), d), e)
  {
    ExecAppend(c, EMPTY, [a, b], d);
    ExecAppend(c, EMPTY, [a, b] + [d], e);
    assert [a, b] + [d] + [e] == [a, b, d, e];
  }

  /** A booking is overdue when the sweep takes its snapshot, and cancelled before the sweep visits it. */
  function CancelledInSweep(c: Config, k: Key): seq<Action> {
    [Create(Staff, 0, Item(0, k), 0), SweepStart(TtlMinutes(c, k.space) + 1), Cancel(Staff, 0, 0, []), SweepStep(0, 0)]
  }

  lemma BookedState(c: Config, k: Key)
    requires Granular(c, k)
    ensures
      Next(c, EMPTY, Create(Staff, 0, Item(0, k), 0)) ==
        State(ClaimTable(c, map[], k, 0), map[0 := NewReservation(c, 0, None, k, 0)], [])
    ensures k in ClaimTable(c, map[], k, 0) && ClaimTable(c, map[], k, 0)[k].reservation == Some(0)
  {
    EmptyTableClaims(c, k);
    AtClaim(c, map[], k, 0, k);
  }

  lemma SnapshotTaken(c: Config, rows: Table, r: Reservation, now: int)
    requires DueNow(r, now)
    ensures Next(c, State(rows, map[0 := r], []), SweepStart(now)) == State(rows, map[0 := r], [Sweep(now, {0}, 0)])
  {
    assert Due(State(rows, map[0 := r], []), now) == {0};
  }

  lemma CancelledMeanwhile(c: Config, s: State)
    requires s.reservations.Keys == {0} && s.reservations[0].group == None && s.reservations[0].status == PendingSlip
    requires OwnsRow(s, 0)
    ensures
      var s' := Next(c, s, Cancel(Staff, 0, 0, []));
      s'.sweeps == s.sweeps && s'.reservations == map[0 := s.reservations[0].(status := Cancelled)]
  {
    assert Next(c, s, Cancel(Staff, 0, 0, [])) == Close(c, s, 0, Cancelled);
  }

  lemma VisitedLate(c: Config, s: State)
    requires |s.sweeps| == 1 && s.sweeps[0].pending == {0} && s.sweeps[0].count == 0
    requires 0 in s.reservations && s.reservations[0].status == Cancelled
    ensures
      var s' := Next(c, s, SweepStep(0, 0));
      |s'.sweeps| == 1 && s'.sweeps[0].count == 1 && s'.sweeps[0].pending == {} && s'.reservations == s.reservations
  {
  }

  lemma SnapshotRun(c: Config, k: Key)
    requires Granular(c, k)
    ensures
      var now := TtlMinutes(c, k.space) + 1;
      Exec(c, EMPTY, [Create(Staff, 0, Item(0, k), 0), SweepStart(now)]) ==
        State(ClaimTable(c, map[], k, 0), map[0 := NewReservation(c, 0, None, k, 0)], [Sweep(now, {0}, 0)])
  {
    var now := TtlMinutes(c, k.space) + 1;
    BookedState(c, k);
    SnapshotTaken(c, ClaimTable(c, map[], k, 0), NewReservation(c, 0, None, k, 0), now);
    TwoSteps(c, Create(Staff, 0, Item(0, k), 0), SweepStart(now));
  }

  lemma LateVisit(c: Config, s: State)
    requires s.reservations.Keys == {0} && s.reservations[0].group == None && s.reservations[0].status == PendingSlip
    requires OwnsRow(s, 0) && |s.sweeps| == 1 && s.sweeps[0].pending == {0} && s.sweeps[0].count == 0
    ensures
      var s' := Next(c, Next(c, s, Cancel(Staff, 0, 0, [])), SweepStep(0, 0));
      |s'.sweeps| == 1 && s'.sweeps[0].count == 1 && s'.sweeps[0].pending == {} &&
      s'.reservations == map[0 := s.reservations[0].(status := Cancelled)]
  {
    CancelledMeanwhile(c, s);
    VisitedLate(c, Next(c, s, Cancel(Staff, 0, 0, [])));
  }

  /** The sweep then reports one reservation expired, and none is. */
  lemma SweepOvercounts(c: Config, k: Key)
    requires Granular(c, k)
    ensures Init(EMPTY)
    ensures
      var s := Exec(c, EMPTY, CancelledInSweep(c, k));
      |s.sweeps| == 1 && s.sweeps[0].count == 1 && s.sweeps[0].pending == {} &&
      forall rid | rid in s.reservations :: s.reservations[rid].status != Expired
  {
    var now := TtlMinutes(c, k.space) + 1;
    BookedState(c, k);
    SnapshotRun(c, k);
    LateVisit(c, Exec(c, EMPTY, [Create(Staff, 0, Item(0, k), 0), SweepStart(now)]));
    LastTwoSteps(c, Create(Staff, 0, Item(0, k), 0), SweepStart(now), Cancel(Staff, 0, 0, []), SweepStep(0, 0));
  }
}
