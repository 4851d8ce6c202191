/** What each request, hold and sweep commit brings about, said of reservations and rows directly: by whom, from
    which status and for which slots it is accepted, what there is afterwards, and that nothing else changes. */
module Outcomes {
  import opened Common
  import opened Inventory
  import opened InventoryInvariants
  import opened SlotOutcomes
  import opened Booking
  import opened BookingInvariants
  import opened Lifecycle
  import opened Limits

  // ----- What the requests bring about -----

  /** The id is new and the slot can be claimed. */
  ghost predicate CanBook(c: Config, s: State, group: Option<Id>, item: Item) {
    && item.rid !in s.reservations && group != Some(item.rid)
    && (forall x | x in s.reservations :: s.reservations[x].group != Some(item.rid))
    && Claimable(c, s.rows, item.key)
  }

  /** One more reservation, waiting for its slip until the TTL of its space has passed, and its slot claimed. */
  ghost predicate Books(c: Config, s: State, s': State, user: Id, group: Option<Id>, item: Item, now: int) {
    var ttl := if item.key.space in c.ttlMinutes then c.ttlMinutes[item.key.space] else 1440;
    && s'.reservations ==
       s.reservations[item.rid := Reservation(user, group, item.key, PendingSlip, Some(now + ttl), false)]
    && Claimed(c, s.rows, s'.rows, item.key, item.rid)
    && s'.sweeps == s.sweeps
  }

  /** The items are booked one after the other. */
  ghost predicate BooksAll(c: Config, s: State, s': State, user: Id, group: Id, items: seq<Item>, now: int)
    decreases |items|
  {
    if items == [] then s' == s
    else
      var n := |items| - 1;
      exists m :: BooksAll(c, s, m, user, group, items[..n], now) && CanBook(c, m, Some(group), items[n]) &&
        Books(c, m, s', user, Some(group), items[n], now)
  }

  /** Some item cannot be booked after those before it. */
  ghost predicate SomeFails(c: Config, s: State, user: Id, group: Id, items: seq<Item>, now: int) {
    exists n, m :: 0 <= n < |items| && BooksAll(c, s, m, user, group, items[..n], now) &&
      !CanBook(c, m, Some(group), items[n])
  }

  /** Only this reservation has changed, to this. */
  predicate Becomes(s: State, s': State, rid: Id, r: Reservation) {
    s'.reservations == s.reservations[rid := r] && s'.sweeps == s.sweeps
  }

  /** The reservation has its final status and no row; its slot is free, the shadow blocks of its slot are released
      and no row of another reservation has changed. */
  ghost predicate Closes(c: Config, s: State, s': State, rid: Id, status: Status)
    requires rid in s.reservations
  {
    var k := s.reservations[rid].key;
    && Becomes(s, s', rid, s.reservations[rid].(status := status))
    && Freed(c, s.rows, s'.rows, k)
    && k in s'.rows && s'.rows[k] == Row(Available, None, None)
    && (forall x | x in s'.rows :: s'.rows[x].reservation != Some(rid))
    && (forall x | x in s.rows && x != k && s.rows[x].reservation.Some? :: x in s'.rows && s'.rows[x] == s.rows[x])
  }

  /** Its slot's row is RESERVED and no other row has changed. */
  ghost predicate Confirms(s: State, s': State, rid: Id)
    requires rid in s.reservations
  {
    var k := s.reservations[rid].key;
    && Becomes(s, s', rid, s.reservations[rid].(status := Confirmed))
    && k in s.rows && s'.rows == s.rows[k := Row(Reserved, Some(rid), None)]
  }

  /** Nobody has paid or sent a voucher yet. */
  predicate IsOpen(r: Reservation) {
    r.status == PendingSlip || r.status == AwaitingPayment
  }

  /** Staff may cancel any reservation, a customer only the customer's own, and nobody else any. */
  predicate CancelAllowed(r: Reservation, role: Role, user: Id) {
    match role
    case Staff => true
    case Customer => r.user == user
    case Guest => false
  }

  /** x is a reservation of the event that the caller may see. */
  predicate InEvent(s: State, g: Id, role: Role, user: Id, x: Id) {
    x in s.reservations && s.reservations[x].group == Some(g) && (role == Customer ==> s.reservations[x].user == user)
  }

  /** Each reservation of the event, once. */
  ghost predicate ListsEvent(s: State, g: Id, role: Role, user: Id, order: seq<Id>) {
    && (forall x :: x in order <==> InEvent(s, g, role, user, x))
    && (forall i, j | 0 <= i < j < |order| :: order[i] != order[j])
  }

  /** None of these reservations is for the slot of k. */
  predicate Elsewhere(s: State, order: seq<Id>, k: Key) {
    forall x | x in order && x in s.reservations :: s.reservations[x].key.slot != k.slot
  }

  /** The open reservations among these are CANCELLED and their slots free, none of these has a row, and no other
      reservation, nor its row, nor any row of another slot has changed. */
  ghost predicate CancelsEach(s: State, s': State, order: seq<Id>) {
    && s'.sweeps == s.sweeps && s'.reservations.Keys == s.reservations.Keys
    && (forall x | x in s.reservations ::
          s'.reservations[x] ==
          if x in order && IsOpen(s.reservations[x]) then s.reservations[x].(status := Cancelled)
          else s.reservations[x])
    && (forall x | x in s.reservations && x in order && IsOpen(s.reservations[x]) ::
          At(s'.rows, s.reservations[x].key).estado == Available)
    && (forall k | k in s'.rows && s'.rows[k].reservation.Some? :: s'.rows[k].reservation.value !in order)
    && (forall k | At(s.rows, k).reservation.Some? && At(s.rows, k).reservation.value !in order ::
          At(s'.rows, k) == At(s.rows, k))
    && (forall k | Elsewhere(s, order, k) :: At(s'.rows, k) == At(s.rows, k))
  }

  /** A single reservation is cancelled while it is open, an event while none of its reservations is under review
      or confirmed, by those allowed to; otherwise nothing happens. */
  ghost predicate CancelOutcome(c: Config, s: State, s': State, role: Role, user: Id, rid: Id, order: seq<Id>) {
    if rid !in s.reservations || !CancelAllowed(s.reservations[rid], role, user) then s' == s
    else
      match s.reservations[rid].group
      case None => if IsOpen(s.reservations[rid]) then Closes(c, s, s', rid, Cancelled) else s' == s
      case Some(g) =>
        if !ListsEvent(s, g, role, user, order) ||
           exists x :: InEvent(s, g, role, user, x) &&
             (s.reservations[x].status == PaymentUnderReview || s.reservations[x].status == Confirmed)
        then s' == s else CancelsEach(s, s', order)
  }

  /** The reservation is open, and its TTL is not frozen and has passed. */
  predicate Overdue(r: Reservation, now: int) {
    IsOpen(r) && !r.ttlFrozen && r.ttlExpiresAt.Some? && r.ttlExpiresAt.value < now
  }

  /** The new sweep has before it exactly the overdue reservations. */
  predicate Selects(s: State, s': State, now: int) {
    && s'.rows == s.rows && s'.reservations == s.reservations
    && |s'.sweeps| == |s.sweeps| + 1 && s'.sweeps[..|s.sweeps|] == s.sweeps
    && var w := s'.sweeps[|s.sweeps|];
       w.now == now && w.count == 0 && w.pending <= s.reservations.Keys &&
       forall x | x in s.reservations ::
         x in w.pending <==> Overdue(s.reservations[x], now)
  }

  /** The sweep has visited the id: counted it if there is such a reservation, and closed it if it is open. */
  ghost predicate Visits(c: Config, s: State, s': State, i: nat, rid: Id)
    requires i < |s.sweeps|
  {
    var w := s.sweeps[i];
    var swept :=
      s.(sweeps := s.sweeps[i := Sweep(w.now, w.pending - {rid}, w.count + if rid in s.reservations then 1 else 0)]);
    if rid in s.reservations && IsOpen(s.reservations[rid]) then Closes(c, swept, s', rid, Expired) else s' == swept
  }

  ghost predicate HoldOutcome(s: State, s': State, quote: Id, keys: seq<Key>) {
    && s'.reservations == s.reservations && s'.sweeps == s.sweeps
    && if (forall i | 0 <= i < |keys| :: At(s.rows, keys[i]) == Row(Available, None, None)) &&
          (forall i, j | 0 <= i < j < |keys| :: keys[i] != keys[j])
       then forall x :: At(s'.rows, x) == if x in keys then Row(SoftHold, None, Some(quote)) else At(s.rows, x)
       else s'.rows == s.rows
  }

  ghost predicate DropOutcome(s: State, s': State, quote: Id) {
    && s'.reservations == s.reservations && s'.sweeps == s.sweeps
    && forall x :: At(s'.rows, x) ==
         if At(s.rows, x).quote == Some(quote) then Row(Available, At(s.rows, x).reservation, None) else At(s.rows, x)
  }

  /** The outcome of one step. */
  ghost predicate Outcome(c: Config, s: State, a: Action, s': State) {
    match a
    case Create(role, user, item, now) =>
      if BelowLimit(s, user, role) && CanBook(c, s, None, item) then Books(c, s, s', user, None, item, now) else s' == s
    case CreateEvent(role, user, group, items, now) =>
      if BelowLimit(s, user, role) && group !in s.reservations &&
         forall x | x in s.reservations :: s.reservations[x].group != Some(group)
      then BooksAll(c, s, s', user, group, items, now) || (s' == s && SomeFails(c, s, user, group, items, now))
      else s' == s
    case GenerateSlip(rid) =>
      if rid in s.reservations && s.reservations[rid].status == PendingSlip
      then Becomes(s, s', rid, s.reservations[rid].(status := AwaitingPayment)) && s'.rows == s.rows else s' == s
    case UploadSlip(rid) =>
      if rid in s.reservations && s.reservations[rid].status == AwaitingPayment
      then
        Becomes(s, s', rid, s.reservations[rid].(status := PaymentUnderReview, ttlFrozen := true)) && s'.rows == s.rows
      else s' == s
    case ConfirmPayment(rid) =>
      if rid in s.reservations && s.reservations[rid].status == PaymentUnderReview then Confirms(s, s', rid)
      else s' == s
    case RejectPayment(rid) =>
      if rid in s.reservations && s.reservations[rid].status == PaymentUnderReview then Closes(c, s, s', rid, Expired)
      else s' == s
    case Cancel(role, user, rid, order) => CancelOutcome(c, s, s', role, user, rid, order)
    case PlaceHold(quote, keys) => HoldOutcome(s, s', quote, keys)
    case DropHold(quote) => DropOutcome(s, s', quote)
    case SweepStart(now) => Selects(s, s', now)
    case SweepStep(i, rid) =>
      if i < |s.sweeps| && rid in s.sweeps[i].pending then Visits(c, s, s', i, rid) else s' == s
  }

  // ----- Creating -----

  lemma CreateOneBooks(c: Config, s: State, user: Id, group: Option<Id>, item: Item, now: int)
    ensures CreateOne(c, s, user, group, item, now).Some? <==> CanBook(c, s, group, item)
    ensures CanBook(c, s, group, item) ==>
              Books(c, s, CreateOne(c, s, user, group, item, now).value, user, group, item, now)
  {
    ClaimSucceedsIff(c, s.rows, item.key);
    ClaimWrites(c, s.rows, item.key, item.rid);
  }

  lemma {:induction false} CreateAllBooks(c: Config, s: State, user: Id, group: Id, items: seq<Item>, now: int)
    ensures match CreateAll(c, s, user, Some(group), items, now)
            case Some(s') => BooksAll(c, s, s', user, group, items, now)
            case None => SomeFails(c, s, user, group, items, now)
    decreases |items|
  {
    if items != [] {
      var n := |items| - 1;
      CreateAllBooks(c, s, user, group, items[..n], now);
      match CreateAll(c, s, user, Some(group), items[..n], now) {
        case Some(m) => CreateOneBooks(c, m, user, Some(group), items[n], now);
        case None => FailsEarlier(c, s, user, group, items, now);
      }
    }
  }

  lemma FailsEarlier(c: Config, s: State, user: Id, group: Id, items: seq<Item>, now: int)
    requires items != [] && SomeFails(c, s, user, group, items[..|items| - 1], now)
    ensures SomeFails(c, s, user, group, items, now)
  {
    var most := items[..|items| - 1];
    var n, m :| 0 <= n < |most| && BooksAll(c, s, m, user, group, most[..n], now) &&
      !CanBook(c, m, Some(group), most[n]);
    assert most[..n] == items[..n];
  }

  // ----- Closing -----

  lemma CloseFreesRow(c: Config, s: State, rid: Id, status: Status)
    requires Inv(c, s) && rid in s.reservations && Active(s.reservations[rid].status) && Terminal(status)
    ensures
      var k, s' := s.reservations[rid].key, Close(c, s, rid, status);
      Freed(c, s.rows, s'.rows, k) && k in s'.rows && s'.rows[k] == Row(Available, None, None)
  {
    var k := s.reservations[rid].key;
    assert OwnsRow(s, rid) && s.rows[k].quote == None;
    FreeWrites(c, s.rows, k);
    assert At(FreeTable(c, s.rows, k), k) == FreeTable(c, s.rows, k)[k] by { AtFree(c, s.rows, k, k); }
  }

  lemma CloseSparesRows(c: Config, s: State, rid: Id, status: Status)
    requires Inv(c, s) && rid in s.reservations && Active(s.reservations[rid].status) && Terminal(status)
    ensures
      var k, s' := s.reservations[rid].key, Close(c, s, rid, status);
      && (forall x | x in s'.rows :: s'.rows[x].reservation != Some(rid))
      && (forall x | x in s.rows && x != k && s.rows[x].reservation.Some? :: x in s'.rows && s'.rows[x] == s.rows[x])
  {
    var k, s' := s.reservations[rid].key, Close(c, s, rid, status);
    assert OwnsRow(s, rid);
    assert RowsOwned(s') by { CloseKeepsInv(c, s, rid, status); }
    forall x | x in s.rows && x != k && s.rows[x].reservation.Some?
      ensures x in s'.rows && s'.rows[x] == s.rows[x]
    {
      assert Held(s.rows[x].estado);
      FreeKeepsOthers(c, s.rows, k, x);
    }
  }

  lemma CloseCloses(c: Config, s: State, rid: Id, status: Status)
    requires Inv(c, s) && rid in s.reservations && Active(s.reservations[rid].status) && Terminal(status)
    ensures Closes(c, s, Close(c, s, rid, status), rid, status)
  {
    CloseFreesRow(c, s, rid, status);
    CloseSparesRows(c, s, rid, status);
  }

  // ----- Cancelling an event -----

  lemma CloseOnlyOpens(c: Config, s: State, rid: Id, k: Key)
    requires rid in s.reservations && At(s.rows, k).estado == Available
    ensures At(Close(c, s, rid, Cancelled).rows, k).estado == Available
  {
    if OwnsRow(s, rid) { FreeOnlyOpens(c, s.rows, s.reservations[rid].key, k); }
  }

  lemma CloseOpensOwn(c: Config, s: State, rid: Id)
    requires Inv(c, s) && rid in s.reservations && CanCancel(s.reservations[rid].status)
    ensures At(Close(c, s, rid, Cancelled).rows, s.reservations[rid].key).estado == Available
  {
    CloseFreesRow(c, s, rid, Cancelled);
  }

  lemma {:induction false} CancelEachFrees(c: Config, s: State, order: seq<Id>, x: Id)
    requires Inv(c, s) && x in s.reservations && x in order && CanCancel(s.reservations[x].status)
    ensures At(CancelEach(c, s, order).rows, s.reservations[x].key).estado == Available
    decreases |order|
  {
    var n, k := |order| - 1, s.reservations[x].key;
    var m := CancelEach(c, s, order[..n]);
    CancelEachKeepsInv(c, s, order[..n]);
    CancelledReservations(c, s, order[..n], x);
    if x in order[..n] {
      CancelEachFrees(c, s, order[..n], x);
      if order[n] in m.reservations { CloseOnlyOpens(c, m, order[n], k); }
    } else {
      assert x == order[n] && m.reservations[x] == s.reservations[x];
      assert CancelEach(c, s, order) == Close(c, m, x, Cancelled);
      CloseOpensOwn(c, m, x);
    }
  }

  lemma {:induction false} CancelEachStaysInSlots(c: Config, s: State, order: seq<Id>, k: Key)
    requires Inv(c, s) && Elsewhere(s, order, k)
    ensures At(CancelEach(c, s, order).rows, k) == At(s.rows, k)
    decreases |order|
  {
    if order != [] {
      var n := |order| - 1;
      var m := CancelEach(c, s, order[..n]);
      CancelEachStaysInSlots(c, s, order[..n], k);
      CancelEachKeepsInv(c, s, order[..n]);
      CancelledReservations(c, s, order[..n], order[n]);
      if order[n] in m.reservations && OwnsRow(m, order[n]) { AtFree(c, m.rows, m.reservations[order[n]].key, k); }
    }
  }

  lemma CancelEachChanges(c: Config, s: State, order: seq<Id>)
    requires Inv(c, s)
    ensures
      var s' := CancelEach(c, s, order);
      && s'.sweeps == s.sweeps && s'.reservations.Keys == s.reservations.Keys
      && forall x | x in s.reservations ::
           s'.reservations[x] ==
           if x in order && IsOpen(s.reservations[x]) then s.reservations[x].(status := Cancelled)
           else s.reservations[x]
  {
    forall x
      ensures
        var s' := CancelEach(c, s, order);
        && s'.sweeps == s.sweeps && (x in s'.reservations <==> x in s.reservations)
        && (x in s.reservations ==> s'.reservations[x] == AfterCancel(s.reservations[x], x in order))
    {
      CancelledReservations(c, s, order, x);
    }
  }

  lemma CancelEachRows(c: Config, s: State, order: seq<Id>)
    requires Inv(c, s)
    ensures
      var rows := CancelEach(c, s, order).rows;
      && (forall x | x in s.reservations && x in order && CanCancel(s.reservations[x].status) ::
            At(rows, s.reservations[x].key).estado == Available)
      && (forall k | At(s.rows, k).reservation.Some? && At(s.rows, k).reservation.value !in order ::
            At(rows, k) == At(s.rows, k))
      && (forall k | Elsewhere(s, order, k) :: At(rows, k) == At(s.rows, k))
  {
    forall x | x in s.reservations && x in order && CanCancel(s.reservations[x].status)
      ensures At(CancelEach(c, s, order).rows, s.reservations[x].key).estado == Available
    {
      CancelEachFrees(c, s, order, x);
    }
    forall k | At(s.rows, k).reservation.Some? && At(s.rows, k).reservation.value !in order
      ensures At(CancelEach(c, s, order).rows, k) == At(s.rows, k)
    {
      CancelEachSparesOthers(c, s, order, k);
    }
    forall k | Elsewhere(s, order, k)
      ensures At(CancelEach(c, s, order).rows, k) == At(s.rows, k)
    {
      CancelEachStaysInSlots(c, s, order, k);
    }
  }

  lemma ClosedHaveNoRow(s: State, order: seq<Id>)
    requires RowsOwned(s)
    requires forall x | x in order ::
               x in s.reservations && (s.reservations[x].status == Cancelled || s.reservations[x].status == Expired)
    ensures forall k | k in s.rows && s.rows[k].reservation.Some? :: s.rows[k].reservation.value !in order
  {
  }

  lemma CancelEachCancels(c: Config, s: State, order: seq<Id>)
    requires Inv(c, s)
    requires forall x | x in order ::
               x in s.reservations &&
               s.reservations[x].status != PaymentUnderReview && s.reservations[x].status != Confirmed
    ensures CancelsEach(s, CancelEach(c, s, order), order)
  {
    CancelEachChanges(c, s, order);
    CancelEachRows(c, s, order);
    assert RowsOwned(CancelEach(c, s, order)) by { CancelEachKeepsInv(c, s, order); }
    ClosedHaveNoRow(CancelEach(c, s, order), order);
  }

  lemma ListsEventIff(s: State, g: Id, role: Role, user: Id, order: seq<Id>)
    ensures Enumerates(order, Members(s, g, role, user)) <==> ListsEvent(s, g, role, user, order)
  {
    var members := Members(s, g, role, user);
    assert forall x :: x in members <==> InEvent(s, g, role, user, x);
    assert forall x :: x in order <==> x in (set y | y in order);
  }

  lemma CancelHappens(c: Config, s: State, role: Role, user: Id, rid: Id, order: seq<Id>)
    requires Inv(c, s)
    ensures CancelOutcome(c, s, CancelStep(c, s, role, user, rid, order), role, user, rid, order)
  {
    if rid in s.reservations && CancelAllowed(s.reservations[rid], role, user) {
      match s.reservations[rid].group
      case None =>
        if IsOpen(s.reservations[rid]) { CloseCloses(c, s, rid, Cancelled); }
      case Some(g) =>
        ListsEventIff(s, g, role, user, order);
        CancellableIff(s, Members(s, g, role, user));
        if ListsEvent(s, g, role, user, order) && Cancellable(s, Members(s, g, role, user)) {
          CancelEachCancels(c, s, order);
        }
    }
  }

  // ----- Every step -----

  lemma CreateHappens(c: Config, s: State, role: Role, user: Id, item: Item, now: int)
    requires Inv(c, s)
    ensures Outcome(c, s, Create(role, user, item, now), Next(c, s, Create(role, user, item, now)))
  {
    LimitIsThreeIff(s, user, role);
    CreateOneBooks(c, s, user, None, item, now);
  }

  lemma CreateEventHappens(c: Config, s: State, role: Role, user: Id, group: Id, items: seq<Item>, now: int)
    requires Inv(c, s)
    ensures
      var a := CreateEvent(role, user, group, items, now);
      Outcome(c, s, a, Next(c, s, a))
  {
    LimitIsThreeIff(s, user, role);
    CreateAllBooks(c, s, user, group, items, now);
  }

  lemma ConfirmHappens(c: Config, s: State, rid: Id)
    requires Inv(c, s)
    ensures Outcome(c, s, ConfirmPayment(rid), Next(c, s, ConfirmPayment(rid)))
  {
    if rid in s.reservations && s.reservations[rid].status == PaymentUnderReview {
      var k := s.reservations[rid].key;
      assert OwnsRow(s, rid) && s.rows[k].quote == None;
    }
  }

  lemma SweepHappens(c: Config, s: State, i: nat, rid: Id)
    requires Inv(c, s)
    ensures Outcome(c, s, SweepStep(i, rid), Next(c, s, SweepStep(i, rid)))
  {
    if i < |s.sweeps| && rid in s.sweeps[i].pending && rid in s.reservations && IsOpen(s.reservations[rid]) {
      var swept := s.(sweeps := s.sweeps[i := Visited(s, s.sweeps[i], rid)]);
      SweepsKeepInv(c, s, swept.sweeps);
      CloseCloses(c, swept, rid, Expired);
    }
  }

  lemma RejectHappens(c: Config, s: State, rid: Id)
    requires Inv(c, s)
    ensures Outcome(c, s, RejectPayment(rid), Next(c, s, RejectPayment(rid)))
  {
    if rid in s.reservations && s.reservations[rid].status == PaymentUnderReview { CloseCloses(c, s, rid, Expired); }
  }

  lemma OthersHappen(c: Config, s: State, a: Action)
    requires a.GenerateSlip? || a.UploadSlip? || a.SweepStart? || a.PlaceHold? || a.DropHold?
    ensures Outcome(c, s, a, Next(c, s, a))
  {
    match a
    case PlaceHold(quote, keys) => HoldSucceedsIff(s.rows, keys, quote);
    case DropHold(quote) => DropWrites(s.rows, quote);
    case _ =>
  }

  /** In every reachable state every step has its outcome. */
  lemma NextHasOutcome(c: Config, s: State, a: Action)
    requires Inv(c, s)
    ensures Outcome(c, s, a, Next(c, s, a))
  {
    match a
    case Create(role, user, item, now) => CreateHappens(c, s, role, user, item, now);
    case CreateEvent(role, user, group, items, now) => CreateEventHappens(c, s, role, user, group, items, now);
    case ConfirmPayment(rid) => ConfirmHappens(c, s, rid);
    case RejectPayment(rid) => RejectHappens(c, s, rid);
    case Cancel(role, user, rid, order) => CancelHappens(c, s, role, user, rid, order);
    case SweepStep(i, rid) => SweepHappens(c, s, i, rid);
    case _ => OthersHappen(c, s, a);
  }

  /** So it is in every run. */
  lemma EveryStepHasOutcome(c: Config, s0: State, run: seq<Action>)
    requires Acyclic(c) && Init(s0) && run != []
    ensures Outcome(c, Exec(c, s0, run[..|run| - 1]), run[|run| - 1], Exec(c, s0, run))
  {
    RunKeepsInv(c, s0, run[..|run| - 1]);
    NextHasOutcome(c, Exec(c, s0, run[..|run| - 1]), run[|run| - 1]);
  }

  /** In every run a held slot starts where its space lists a start and lasts as long as its space asks. */
  lemma HeldSlotsFitRule(c: Config, s0: State, run: seq<Action>, k: Key)
    requires Acyclic(c) && Init(s0)
    requires At(Exec(c, s0, run).rows, k).estado == TtlBlocked || At(Exec(c, s0, run).rows, k).estado == Reserved
    ensures FitsRule(c, k)
  {
    assert Placed(c, Exec(c, s0, run).rows) by { RunKeepsInv(c, s0, run); }
  }
}
