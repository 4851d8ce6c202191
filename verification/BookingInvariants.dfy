/** The invariant of the whole system and its preservation by every step. */
module BookingInvariants {
  import opened Common
  import opened Inventory
  import opened InventoryInvariants
  import opened Booking

  /** A live reservation still has its slot. */
  predicate Live(status: Status) {
    Active(status) || status == Confirmed
  }

  /** Every row with a reservation_id names a live reservation made for that very row, and is RESERVED
      exactly when the reservation is CONFIRMED. */
  ghost predicate RowsOwned(s: State) {
    forall k | k in s.rows && s.rows[k].reservation.Some? ::
      var rid := s.rows[k].reservation.value;
      rid in s.reservations && s.reservations[rid].key == k && Live(s.reservations[rid].status) &&
      (s.rows[k].estado == Reserved <==> s.reservations[rid].status == Confirmed)
  }

  /** Every live reservation owns the row at its key. */
  ghost predicate LiveOwns(s: State) {
    forall rid | rid in s.reservations && Live(s.reservations[rid].status) :: OwnsRow(s, rid)
  }

  /** The TTL is frozen once a voucher was uploaded and never before. */
  ghost predicate FrozenInStep(s: State) {
    forall rid | rid in s.reservations ::
      var r := s.reservations[rid];
      && (CanCancel(r.status) ==> !r.ttlFrozen)
      && (r.status == PaymentUnderReview || r.status == Confirmed ==> r.ttlFrozen)
  }

  /** A pending id of a sweep is a reservation whose TTL had passed at the snapshot. */
  ghost predicate SweepsDue(s: State) {
    forall i, rid | 0 <= i < |s.sweeps| && rid in s.sweeps[i].pending ::
      rid in s.reservations && s.reservations[rid].ttlExpiresAt.Some? &&
      s.reservations[rid].ttlExpiresAt.value < s.sweeps[i].now
  }

  /** All reservations of an event belong to one user. */
  ghost predicate GroupsOfOneUser(s: State) {
    forall a, b | a in s.reservations && b in s.reservations && s.reservations[a].group.Some? &&
                  s.reservations[a].group == s.reservations[b].group ::
      s.reservations[a].user == s.reservations[b].user
  }

  /** No reservation has the id of an event. */
  ghost predicate IdsApart(s: State) {
    forall a, b | a in s.reservations && b in s.reservations :: s.reservations[a].group != Some(b)
  }

  ghost predicate Agrees(s: State) {
    RowsOwned(s) && LiveOwns(s)
  }

  ghost predicate Inv(c: Config, s: State) {
    Sound(c, s.rows) && Agrees(s) && FrozenInStep(s) && SweepsDue(s) && GroupsOfOneUser(s) && IdsApart(s)
  }

  /** What the invariant says of reservations and sweeps alone. */
  ghost predicate Kept(s: State) {
    FrozenInStep(s) && SweepsDue(s) && GroupsOfOneUser(s) && IdsApart(s)
  }

  // ----- Creating -----

  lemma CreateKeepsAgreement(c: Config, s: State, user: Id, group: Option<Id>, item: Item, now: int)
    requires Inv(c, s) && CreateOne(c, s, user, group, item, now).Some?
    ensures Agrees(CreateOne(c, s, user, group, item, now).value)
  {
    var s' := CreateOne(c, s, user, group, item, now).value;
    forall x
      ensures At(s'.rows, x).reservation ==
              if x == item.key then Some(item.rid) else At(s.rows, x).reservation
      ensures At(s.rows, x).reservation.Some? ==> x != item.key && At(s'.rows, x) == At(s.rows, x)
    {
      AtClaim(c, s.rows, item.key, item.rid, x);
      assert x in s.rows ==> (Held(s.rows[x].estado) <==> s.rows[x].reservation.Some?);
    }
    assert At(s'.rows, item.key).estado == TtlBlocked by { AtClaim(c, s.rows, item.key, item.rid, item.key); }
    forall rid | rid in s'.reservations && Live(s'.reservations[rid].status)
      ensures OwnsRow(s', rid)
    {
      if rid != item.rid {
        assert OwnsRow(s, rid);
        assert At(s.rows, s.reservations[rid].key).reservation.Some?;
      }
    }
    forall k | k in s'.rows && s'.rows[k].reservation.Some?
      ensures var rid := s'.rows[k].reservation.value;
        rid in s'.reservations && s'.reservations[rid].key == k && Live(s'.reservations[rid].status) &&
        (s'.rows[k].estado == Reserved <==> s'.reservations[rid].status == Confirmed)
    {
      if k != item.key {
        assert s'.rows[k] == At(s'.rows, k) == At(s.rows, k);
      } else {
        assert s'.rows[k] == At(s'.rows, k);
      }
    }
  }

  /** Nobody else's event uses this group id, and no reservation has it. */
  ghost predicate GroupIsOf(s: State, user: Id, group: Option<Id>) {
    && (group.Some? ==> group.value !in s.reservations)
    && forall rid | group.Some? && rid in s.reservations && s.reservations[rid].group == group ::
         s.reservations[rid].user == user
  }

  lemma CreateKeepsRest(s: State, s': State, group: Option<Id>, rid: Id, r: Reservation)
    requires Kept(s) && GroupIsOf(s, r.user, group) && FreshId(s, rid) && s'.sweeps == s.sweeps
    requires s'.reservations == s.reservations[rid := r]
    requires r.group == group != Some(rid) && r.status == PendingSlip && !r.ttlFrozen
    ensures Kept(s') && GroupIsOf(s', r.user, group)
  {
  }

  lemma CreateOneKeepsInv(c: Config, s: State, user: Id, group: Option<Id>, item: Item, now: int)
    requires Acyclic(c) && Inv(c, s) && GroupIsOf(s, user, group)
    requires CreateOne(c, s, user, group, item, now).Some?
    ensures Inv(c, CreateOne(c, s, user, group, item, now).value)
    ensures GroupIsOf(CreateOne(c, s, user, group, item, now).value, user, group)
  {
    var s' := CreateOne(c, s, user, group, item, now).value;
    CreateKeepsAgreement(c, s, user, group, item, now);
    assert Sound(c, s'.rows) by { ClaimKeepsSound(c, s.rows, item.key, item.rid); }
    CreateKeepsRest(s, s', group, item.rid, NewReservation(c, user, group, item.key, now));
  }

  lemma {:induction false} CreateAllKeepsInv(
    c: Config, s: State, user: Id, group: Option<Id>, items: seq<Item>, now: int
  )
    requires Acyclic(c) && Inv(c, s) && GroupIsOf(s, user, group)
    requires CreateAll(c, s, user, group, items, now).Some?
    ensures Inv(c, CreateAll(c, s, user, group, items, now).value)
    ensures GroupIsOf(CreateAll(c, s, user, group, items, now).value, user, group)
    decreases |items|
  {
    if items != [] {
      var n := |items| - 1;
      CreateAllKeepsInv(c, s, user, group, items[..n], now);
      CreateOneKeepsInv(c, CreateAll(c, s, user, group, items[..n], now).value, user, group, items[n], now);
    }
  }

  // ----- Closing -----

  lemma CloseKeepsAgreement(c: Config, s: State, rid: Id, status: Status)
    requires Inv(c, s) && rid in s.reservations && Active(s.reservations[rid].status) && Terminal(status)
    ensures Agrees(Close(c, s, rid, status))
  {
    var s' := Close(c, s, rid, status);
    var k := s.reservations[rid].key;
    assert OwnsRow(s, rid);
    forall x
      ensures At(s'.rows, x).reservation == if x == k then None else At(s.rows, x).reservation
      ensures x != k && At(s.rows, x).reservation.Some? ==> At(s'.rows, x) == At(s.rows, x)
    {
      AtFree(c, s.rows, k, x);
      assert x in s.rows ==> (Held(s.rows[x].estado) <==> s.rows[x].reservation.Some?);
    }
    forall other | other in s'.reservations && Live(s'.reservations[other].status)
      ensures OwnsRow(s', other)
    {
      assert other != rid && OwnsRow(s, other);
      assert At(s.rows, s.reservations[other].key).reservation == Some(other);
    }
    forall x | x in s'.rows && s'.rows[x].reservation.Some?
      ensures var r := s'.rows[x].reservation.value;
        r in s'.reservations && s'.reservations[r].key == x && Live(s'.reservations[r].status) &&
        (s'.rows[x].estado == Reserved <==> s'.reservations[r].status == Confirmed)
    {
      assert s'.rows[x] == At(s'.rows, x) == At(s.rows, x);
    }
  }

  lemma CloseKeepsSound(c: Config, s: State, rid: Id, status: Status)
    requires Inv(c, s) && rid in s.reservations && Active(s.reservations[rid].status)
    ensures Sound(c, Close(c, s, rid, status).rows)
  {
    assert OwnsRow(s, rid);
    FreeKeepsSound(c, s.rows, s.reservations[rid].key);
  }

  lemma CloseKeepsRest(s: State, s': State, rid: Id, status: Status)
    requires Kept(s) && rid in s.reservations && Terminal(status) && s'.sweeps == s.sweeps
    requires s'.reservations == s.reservations[rid := s.reservations[rid].(status := status)]
    ensures Kept(s')
  {
  }

  lemma CloseKeepsInv(c: Config, s: State, rid: Id, status: Status)
    requires Inv(c, s) && rid in s.reservations && Active(s.reservations[rid].status) && Terminal(status)
    ensures Inv(c, Close(c, s, rid, status))
  {
    CloseKeepsSound(c, s, rid, status);
    CloseKeepsAgreement(c, s, rid, status);
    CloseKeepsRest(s, Close(c, s, rid, status), rid, status);
  }

  lemma {:induction false} CancelEachKeepsInv(c: Config, s: State, order: seq<Id>)
    requires Inv(c, s)
    ensures Inv(c, CancelEach(c, s, order))
    decreases |order|
  {
    if order != [] {
      var n := |order| - 1;
      CancelEachKeepsInv(c, s, order[..n]);
      var s' := CancelEach(c, s, order[..n]);
      if order[n] in s'.reservations && CanCancel(s'.reservations[order[n]].status) {
        CloseKeepsInv(c, s', order[n], Cancelled);
      }
    }
  }

  // ----- The other steps -----

  lemma ConfirmKeepsAgreement(s: State, rid: Id)
    requires Agrees(s) && rid in s.reservations && s.reservations[rid].status == PaymentUnderReview && OwnsRow(s, rid)
    ensures Agrees(SetStatus(s.(rows := ConfirmTable(s.rows, s.reservations[rid].key)), rid, Confirmed))
  {
    var s' := SetStatus(s.(rows := ConfirmTable(s.rows, s.reservations[rid].key)), rid, Confirmed);
    forall other | other in s'.reservations && Live(s'.reservations[other].status)
      ensures OwnsRow(s', other)
    {
      assert OwnsRow(s, other);
    }
  }

  lemma ConfirmKeepsInv(c: Config, s: State, rid: Id)
    requires Inv(c, s)
    ensures Inv(c, Next(c, s, ConfirmPayment(rid)))
  {
    if rid in s.reservations && Confirmed in Allowed(s.reservations[rid].status) {
      assert OwnsRow(s, rid);
      ConfirmKeepsSound(c, s.rows, s.reservations[rid].key);
      ConfirmKeepsAgreement(s, rid);
    }
  }

  lemma StatusKeepsAgreement(s: State, rid: Id, r: Reservation)
    requires Agrees(s) && rid in s.reservations && Active(s.reservations[rid].status)
    requires r.key == s.reservations[rid].key && Active(r.status)
    ensures Agrees(s.(reservations := s.reservations[rid := r]))
  {
    var s' := s.(reservations := s.reservations[rid := r]);
    forall other | other in s'.reservations && Live(s'.reservations[other].status)
      ensures OwnsRow(s', other)
    {
      assert OwnsRow(s, other);
    }
  }

  lemma StatusKeepsInv(c: Config, s: State, rid: Id, r: Reservation)
    requires Inv(c, s) && rid in s.reservations && Active(s.reservations[rid].status)
    requires r == s.reservations[rid].(status := r.status, ttlFrozen := r.ttlFrozen) && Active(r.status)
    requires r.ttlFrozen <==> r.status == PaymentUnderReview
    ensures Inv(c, s.(reservations := s.reservations[rid := r]))
  {
    StatusKeepsAgreement(s, rid, r);
  }

  /** A change of rows that touches no reserved row. */
  lemma RowsKeepInv(c: Config, s: State, rows: Table)
    requires Inv(c, s) && Sound(c, rows)
    requires forall x :: At(rows, x).reservation == At(s.rows, x).reservation
    requires forall x | At(s.rows, x).reservation.Some? :: At(rows, x) == At(s.rows, x)
    ensures Inv(c, s.(rows := rows))
  {
    var s' := s.(rows := rows);
    forall other | other in s'.reservations && Live(s'.reservations[other].status)
      ensures OwnsRow(s', other)
    {
      assert OwnsRow(s, other);
      assert At(s.rows, s.reservations[other].key).reservation == Some(other);
    }
    forall x | x in rows && rows[x].reservation.Some?
      ensures var r := rows[x].reservation.value;
        r in s.reservations && s.reservations[r].key == x && Live(s.reservations[r].status) &&
        (rows[x].estado == Reserved <==> s.reservations[r].status == Confirmed)
    {
      assert rows[x] == At(rows, x) == At(s.rows, x);
    }
  }

  lemma HoldKeepsInv(c: Config, s: State, quote: Id, keys: seq<Key>)
    requires Inv(c, s) && HoldOk(s.rows, keys)
    ensures Inv(c, s.(rows := HoldTable(s.rows, keys, quote)))
  {
    HoldKeepsSound(c, s.rows, keys, quote);
    var rows := HoldTable(s.rows, keys, quote);
    forall x
      ensures At(rows, x).reservation == At(s.rows, x).reservation
      ensures At(s.rows, x).reservation.Some? ==> At(rows, x) == At(s.rows, x)
    {
      assert x in keys ==> Holdable(At(s.rows, x));
    }
    RowsKeepInv(c, s, rows);
  }

  lemma DropKeepsInv(c: Config, s: State, quote: Id)
    requires Inv(c, s)
    ensures Inv(c, s.(rows := DropHoldTable(s.rows, quote)))
  {
    DropHoldKeepsSound(c, s.rows, quote);
    var rows := DropHoldTable(s.rows, quote);
    forall x
      ensures At(rows, x).reservation == At(s.rows, x).reservation
      ensures At(s.rows, x).reservation.Some? ==> At(rows, x) == At(s.rows, x)
    {
      assert x in s.rows ==> (s.rows[x].estado == SoftHold <==> s.rows[x].quote.Some?);
      assert x in s.rows ==> (Held(s.rows[x].estado) <==> s.rows[x].reservation.Some?);
    }
    RowsKeepInv(c, s, rows);
  }

  lemma SweepsKeepInv(c: Config, s: State, sweeps: seq<Sweep>)
    requires Inv(c, s) && SweepsDue(s.(sweeps := sweeps))
    ensures Inv(c, s.(sweeps := sweeps))
  {
    var s' := s.(sweeps := sweeps);
    forall other | other in s'.reservations && Live(s'.reservations[other].status)
      ensures OwnsRow(s', other)
    {
      assert OwnsRow(s, other);
    }
  }

  lemma SweepStepKeepsInv(c: Config, s: State, i: nat, rid: Id)
    requires Inv(c, s) && i < |s.sweeps| && rid in s.sweeps[i].pending
    ensures Inv(c, Next(c, s, SweepStep(i, rid)))
  {
    var w := s.sweeps[i];
    var s' := s.(sweeps := s.sweeps[i := Visited(s, w, rid)]);
    SweepsKeepInv(c, s, s'.sweeps);
    if rid in s'.reservations && CanCancel(s'.reservations[rid].status) {
      CloseKeepsInv(c, s', rid, Expired);
    }
  }

  lemma CancelKeepsInv(c: Config, s: State, role: Role, user: Id, rid: Id, order: seq<Id>)
    requires Inv(c, s)
    ensures Inv(c, Next(c, s, Cancel(role, user, rid, order)))
  {
    CancelEachKeepsInv(c, s, order);
    if rid in s.reservations && CanCancel(s.reservations[rid].status) {
      CloseKeepsInv(c, s, rid, Cancelled);
    }
  }

  /** Every step keeps the invariant. */
  lemma NextKeepsInv(c: Config, s: State, a: Action)
    requires Acyclic(c) && Inv(c, s)
    ensures Inv(c, Next(c, s, a))
  {
    match a
    case Create(role, user, item, now) =>
      if CreateOne(c, s, user, None, item, now).Some? { CreateOneKeepsInv(c, s, user, None, item, now); }
    case CreateEvent(role, user, group, items, now) =>
      if FreshId(s, group) && CreateAll(c, s, user, Some(group), items, now).Some? {
        CreateAllKeepsInv(c, s, user, Some(group), items, now);
      }
    case GenerateSlip(rid) =>
      if rid in s.reservations && AwaitingPayment in Allowed(s.reservations[rid].status) {
        StatusKeepsInv(c, s, rid, s.reservations[rid].(status := AwaitingPayment));
      }
    case UploadSlip(rid) =>
      if rid in s.reservations && s.reservations[rid].status == AwaitingPayment {
        StatusKeepsInv(c, s, rid, s.reservations[rid].(status := PaymentUnderReview, ttlFrozen := true));
      }
    case ConfirmPayment(rid) => ConfirmKeepsInv(c, s, rid);
    case RejectPayment(rid) =>
      if rid in s.reservations && Expired in Allowed(s.reservations[rid].status) { CloseKeepsInv(c, s, rid, Expired); }
    case Cancel(role, user, rid, order) => CancelKeepsInv(c, s, role, user, rid, order);
    case PlaceHold(quote, keys) =>
      if HoldOk(s.rows, keys) { HoldKeepsInv(c, s, quote, keys); }
    case DropHold(quote) => DropKeepsInv(c, s, quote);
    case SweepStart(now) => SweepsKeepInv(c, s, s.sweeps + [Sweep(now, Due(s, now), 0)]);
    case SweepStep(i, rid) =>
      if i < |s.sweeps| && rid in s.sweeps[i].pending { SweepStepKeepsInv(c, s, i, rid); }
  }

  lemma InitInv(c: Config, s: State)
    requires Init(s)
    ensures Inv(c, s)
  {
    assert forall x :: !Held(At(s.rows, x).estado) && At(s.rows, x).reservation == None;
  }

  lemma {:induction false} RunKeepsInv(c: Config, s: State, run: seq<Action>)
    requires Acyclic(c) && Init(s)
    ensures Inv(c, Exec(c, s, run))
    decreases |run|
  {
    if run == [] {
      InitInv(c, s);
    } else {
      RunKeepsInv(c, s, run[..|run| - 1]);
      NextKeepsInv(c, Exec(c, s, run[..|run| - 1]), run[|run| - 1]);
    }
  }
}
