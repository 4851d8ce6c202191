/** The reservation lifecycle of `booking/services.py`, `booking/router.py` and `booking/tasks.py` as a state
    machine: a step is one service call or one commit of the TTL sweep, and a run is any sequence of steps. */
module Booking {
  import opened Common
  import opened Inventory
  import opened InventoryInvariants

  datatype Status = PendingSlip | AwaitingPayment | PaymentUnderReview | Confirmed | Expired | Cancelled

  datatype Reservation = Reservation(
    user: Id, group: Option<Id>, key: Key, status: Status, ttlExpiresAt: Option<int>, ttlFrozen: bool)

  /** A TTL sweep that took its snapshot at `now`, has not visited the `pending` ids yet, and has counted
      `count` reservations as expired. */
  datatype Sweep = Sweep(now: int, pending: set<Id>, count: nat)

  datatype State = State(rows: Table, reservations: map<Id, Reservation>, sweeps: seq<Sweep>)

  /** Staff covers the back-office roles; Guest is any other role or none. */
  datatype Role = Customer | Staff | Guest

  const DEFAULT_TTL_MINUTES := 1440
  const MAX_ACTIVE_RESERVATIONS := 3

  /** ALLOWED_TRANSITIONS. */
  function Allowed(from: Status): set<Status> {
    match from
    case PendingSlip => {AwaitingPayment, Cancelled}
    case AwaitingPayment => {PaymentUnderReview, Cancelled}
    case PaymentUnderReview => {Confirmed, Expired}
    case Confirmed => {}
    case Expired => {}
    case Cancelled => {}
  }

  predicate CanCancel(status: Status) {
    status == PendingSlip || status == AwaitingPayment
  }

  predicate Terminal(status: Status) {
    status == Expired || status == Cancelled
  }

  /** The statuses that count for the anti-hoarding limit. */
  predicate Active(status: Status) {
    status == PendingSlip || status == AwaitingPayment || status == PaymentUnderReview
  }

  // ----- Anti-hoarding -----

  function LogicalId(rid: Id, r: Reservation): Id {
    if r.group.Some? then r.group.value else rid
  }

  /** The distinct logical reservations of a user that are active; an event counts once. */
  function ActiveIds(s: State, user: Id): set<Id> {
    set rid | rid in s.reservations && s.reservations[rid].user == user && Active(s.reservations[rid].status) ::
      LogicalId(rid, s.reservations[rid])
  }

  predicate MayCreate(s: State, user: Id, role: Role) {
    role == Staff || |ActiveIds(s, user)| < MAX_ACTIVE_RESERVATIONS
  }

  // ----- Creating reservations -----

  datatype Item = Item(rid: Id, key: Key)

  /** A generated id is in use neither by a reservation nor by an event. */
  predicate FreshId(s: State, id: Id) {
    id !in s.reservations && forall rid | rid in s.reservations :: s.reservations[rid].group != Some(id)
  }

  function TtlMinutes(c: Config, space: Id): int {
    if space in c.ttlMinutes then c.ttlMinutes[space] else DEFAULT_TTL_MINUTES
  }

  function NewReservation(c: Config, user: Id, group: Option<Id>, key: Key, now: int): Reservation {
    Reservation(user, group, key, PendingSlip, Some(now + TtlMinutes(c, key.space)), false)
  }

  /** One reservation and its claim, or None when the id is in use or the slot cannot be claimed. */
  ghost function CreateOne(c: Config, s: State, user: Id, group: Option<Id>, item: Item, now: int): Option<State> {
    if !FreshId(s, item.rid) || group == Some(item.rid) || !ClaimOk(c, s.rows, item.key) then None
    else Some(s.(rows := ClaimTable(c, s.rows, item.key, item.rid),
                 reservations := s.reservations[item.rid := NewReservation(c, user, group, item.key, now)]))
  }

  /** All the items of an event in order, or None as soon as one of them fails. */
  ghost function CreateAll(c: Config, s: State, user: Id, group: Option<Id>, items: seq<Item>, now: int): Option<State>
    decreases |items|
  {
    if items == [] then Some(s)
    else
      match CreateAll(c, s, user, group, items[..|items| - 1], now)
      case None => None
      case Some(s') => CreateOne(c, s', user, group, items[|items| - 1], now)
  }

  // ----- Releasing, cancelling, expiring -----

  function SetStatus(s: State, rid: Id, status: Status): State
    requires rid in s.reservations
  {
    s.(reservations := s.reservations[rid := s.reservations[rid].(status := status)])
  }

  /** The reservation's own row at its key. */
  predicate OwnsRow(s: State, rid: Id)
    requires rid in s.reservations
  {
    var k := s.reservations[rid].key;
    k in s.rows && s.rows[k].reservation == Some(rid)
  }

  /** Free the reservation's row if it has one, then set its final status. */
  ghost function Close(c: Config, s: State, rid: Id, status: Status): State
    requires rid in s.reservations
  {
    var s' := if OwnsRow(s, rid) then s.(rows := FreeTable(c, s.rows, s.reservations[rid].key)) else s;
    SetStatus(s', rid, status)
  }

  /** The reservations of an event that the caller may see. */
  function Members(s: State, group: Id, role: Role, user: Id): set<Id> {
    set rid | rid in s.reservations && s.reservations[rid].group == Some(group) &&
              (role == Customer ==> s.reservations[rid].user == user)
  }

  /** The whole event can be cancelled: nobody is under review or confirmed. */
  predicate Cancellable(s: State, members: set<Id>) {
    forall rid | rid in members && rid in s.reservations ::
      CanCancel(s.reservations[rid].status) || Terminal(s.reservations[rid].status)
  }

  /** Cancel, in the order the query returns them, the members that are still open. */
  ghost function CancelEach(c: Config, s: State, order: seq<Id>): State
    decreases |order|
  {
    if order == [] then s
    else
      var s' := CancelEach(c, s, order[..|order| - 1]);
      var rid := order[|order| - 1];
      if rid in s'.reservations && CanCancel(s'.reservations[rid].status) then Close(c, s', rid, Cancelled) else s'
  }

  /** The order is an enumeration of the set. */
  predicate Enumerates(order: seq<Id>, ids: set<Id>) {
    && (forall i, j :: 0 <= i < j < |order| ==> order[i] != order[j])
    && (set x | x in order) == ids
  }

  predicate MayCancel(s: State, rid: Id, role: Role, user: Id)
    requires rid in s.reservations
  {
    role == Staff || (role == Customer && s.reservations[rid].user == user)
  }

  // ----- Steps -----

  datatype Action =
    | Create(role: Role, user: Id, item: Item, now: int)
    | CreateEvent(role: Role, user: Id, group: Id, items: seq<Item>, now: int)
    | GenerateSlip(rid: Id)
    | UploadSlip(rid: Id)
    | ConfirmPayment(rid: Id)
    | RejectPayment(rid: Id)
    | Cancel(role: Role, user: Id, rid: Id, order: seq<Id>)
    | PlaceHold(quote: Id, keys: seq<Key>)
    | DropHold(quote: Id)
    | SweepStart(now: int)
    | SweepStep(sweep: nat, rid: Id)

  /** The ids a sweep at `now` selects. */
  function Due(s: State, now: int): set<Id> {
    set rid | rid in s.reservations && DueNow(s.reservations[rid], now)
  }

  predicate DueNow(r: Reservation, now: int) {
    !r.ttlFrozen && r.ttlExpiresAt.Some? && r.ttlExpiresAt.value < now && CanCancel(r.status)
  }

  /** expire_reservation_by_ttl: nothing happens unless the reservation is still open. */
  ghost function ExpireByTtl(c: Config, s: State, rid: Id): State {
    if rid in s.reservations && CanCancel(s.reservations[rid].status) then Close(c, s, rid, Expired) else s
  }

  /** The sweep counts every id it still finds, whether or not expiring it does anything. */
  function Visited(s: State, w: Sweep, rid: Id): Sweep {
    Sweep(w.now, w.pending - {rid}, if rid in s.reservations then w.count + 1 else w.count)
  }

  ghost function CancelStep(c: Config, s: State, role: Role, user: Id, rid: Id, order: seq<Id>): State {
    if rid !in s.reservations || !MayCancel(s, rid, role, user) then s
    else
      match s.reservations[rid].group
      case Some(g) =>
        if Enumerates(order, Members(s, g, role, user)) && Cancellable(s, Members(s, g, role, user))
        then CancelEach(c, s, order) else s
      case None =>
        if CanCancel(s.reservations[rid].status) then Close(c, s, rid, Cancelled) else s
  }

  /** One committed step. A step the backend refuses or rolls back leaves the state as it was. */
  ghost function Next(c: Config, s: State, a: Action): State {
    match a
    case Create(role, user, item, now) =>
      if !MayCreate(s, user, role) then s
      else (match CreateOne(c, s, user, None, item, now) case None => s case Some(s') => s')
    case CreateEvent(role, user, group, items, now) =>
      if !MayCreate(s, user, role) || !FreshId(s, group) then s
      else (match CreateAll(c, s, user, Some(group), items, now) case None => s case Some(s') => s')
    case GenerateSlip(rid) =>
      if rid in s.reservations && AwaitingPayment in Allowed(s.reservations[rid].status)
      then SetStatus(s, rid, AwaitingPayment) else s
    case UploadSlip(rid) =>
      if rid in s.reservations && s.reservations[rid].status == AwaitingPayment
      then
        var reviewed := s.reservations[rid].(status := PaymentUnderReview, ttlFrozen := true);
        s.(reservations := s.reservations[rid := reviewed])
      else s
    case ConfirmPayment(rid) =>
      if rid in s.reservations && Confirmed in Allowed(s.reservations[rid].status)
      then
        var s' := if OwnsRow(s, rid) then s.(rows := ConfirmTable(s.rows, s.reservations[rid].key)) else s;
        SetStatus(s', rid, Confirmed)
      else s
    case RejectPayment(rid) =>
      if rid in s.reservations && Expired in Allowed(s.reservations[rid].status) then Close(c, s, rid, Expired) else s
    case Cancel(role, user, rid, order) =>
      CancelStep(c, s, role, user, rid, order)
    case PlaceHold(quote, keys) =>
      if HoldOk(s.rows, keys) then s.(rows := HoldTable(s.rows, keys, quote)) else s
    case DropHold(quote) =>
      s.(rows := DropHoldTable(s.rows, quote))
    case SweepStart(now) =>
      s.(sweeps := s.sweeps + [Sweep(now, Due(s, now), 0)])
    case SweepStep(i, rid) =>
      if i < |s.sweeps| && rid in s.sweeps[i].pending then
        var w := s.sweeps[i];
        ExpireByTtl(c, s.(sweeps := s.sweeps[i := Visited(s, w, rid)]), rid)
      else s
  }

  /** Before the first step there are no reservations, and rows are at most put in maintenance. */
  ghost predicate Init(s: State) {
    && s.reservations == map[] && s.sweeps == []
    && forall k | k in s.rows ::
         (s.rows[k].estado == Available || s.rows[k].estado == Maintenance) &&
         s.rows[k].reservation == None && s.rows[k].quote == None
  }

  ghost function Exec(c: Config, s: State, run: seq<Action>): State
    decreases |run|
  {
    if run == [] then s else Next(c, Exec(c, s, run[..|run| - 1]), run[|run| - 1])
  }
}
