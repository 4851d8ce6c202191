/** The reservation services and endpoints, updating the reservation table and the inventory in place. Each
    method is one committed step of the state machine in module Booking and keeps its invariant. */
module BookingService {
  import opened Common
  import opened Inventory
  import opened SlotOutcomes
  import opened Booking
  import opened BookingInvariants
  import opened Lifecycle
  import opened Limits
  import opened Outcomes
  import opened InventoryService

  class BookingSession {
    const cfg: Config
    const inventory: InventorySession
    var reservations: map<Id, Reservation>
    var sweeps: seq<Sweep>

    constructor (inventory: InventorySession)
      requires Acyclic(inventory.cfg) && inventory.Flushed() && Init(State(inventory.rows, map[], []))
      ensures Valid() && this.inventory == inventory && Current() == State(inventory.rows, map[], [])
    {
      this.cfg := inventory.cfg;
      this.inventory := inventory;
      reservations := map[];
      sweeps := [];
      new;
      InitInv(cfg, Current());
    }

    function Current(): State
      reads this, inventory
    {
      State(inventory.rows, reservations, sweeps)
    }

    ghost predicate Valid()
      reads this, inventory
    {
      cfg == inventory.cfg && inventory.Flushed() && Acyclic(cfg) && Inv(cfg, Current())
    }

    method Rollback(before: State)
      modifies this, inventory
      ensures Current() == before && inventory.Flushed()
    {
      inventory.Rollback(before.rows);
      reservations := before.reservations;
      sweeps := before.sweeps;
    }

    /** create_reservation. When the claim fails the new reservation is still there for the caller to roll back. */
    method CreateReservation(user: Id, group: Option<Id>, item: Item, now: int) returns (ok: bool)
      requires cfg == inventory.cfg
      modifies this, inventory
      ensures ok <==> CreateOne(cfg, old(Current()), user, group, item, now).Some?
      ensures ok ==> Some(Current()) == CreateOne(cfg, old(Current()), user, group, item, now) && inventory.Flushed()
    {
      if !FreshId(Current(), item.rid) || group == Some(item.rid) {
        return false;
      }
      reservations := reservations[item.rid := NewReservation(cfg, user, group, item.key, now)];
      var claimed := inventory.Claim(item.key, item.rid);
      ok := claimed.Ok?;
    }

    /** check_anti_hoarding: staff is not limited, others hold at most three logical reservations. */
    method CheckAntiHoarding(user: Id, role: Role) returns (ok: bool)
      ensures ok <==> MayCreate(Current(), user, role)
      ensures IdsApart(Current()) ==> (ok <==> BelowLimit(Current(), user, role))
    {
      if IdsApart(Current()) { LimitIsThreeIff(Current(), user, role); }
      if role == Staff {
        return true;
      }
      var count := |ActiveIds(Current(), user)|;
      ok := count < MAX_ACTIVE_RESERVATIONS;
    }

    /** POST /reservations. */
    method PostReservation(role: Role, user: Id, item: Item, now: int)
      requires Valid()
      modifies this, inventory
      ensures Valid() && Current() == Next(cfg, old(Current()), Create(role, user, item, now))
      ensures Outcome(cfg, old(Current()), Create(role, user, item, now), Current())
    {
      var before := Current();
      NextKeepsInv(cfg, before, Create(role, user, item, now));
      NextHasOutcome(cfg, before, Create(role, user, item, now));
      var allowed := CheckAntiHoarding(user, role);
      if !allowed {
        return;
      }
      var ok := CreateReservation(user, None, item, now);
      if !ok {
        Rollback(before);
      }
    }

    /** POST /reservation-events: every item is claimed or none is. */
    method PostEvent(role: Role, user: Id, group: Id, items: seq<Item>, now: int)
      requires Valid() && FreshId(Current(), group)
      modifies this, inventory
      ensures Valid() && Current() == Next(cfg, old(Current()), CreateEvent(role, user, group, items, now))
      ensures Outcome(cfg, old(Current()), CreateEvent(role, user, group, items, now), Current())
    {
      var before := Current();
      NextKeepsInv(cfg, before, CreateEvent(role, user, group, items, now));
      NextHasOutcome(cfg, before, CreateEvent(role, user, group, items, now));
      var allowed := CheckAntiHoarding(user, role);
      if !allowed {
        return;
      }
      for i := 0 to |items|
        invariant CreateAll(cfg, before, user, Some(group), items[..i], now) == Some(Current())
        invariant inventory.Flushed()
      {
        CreateAllStep(cfg, before, user, Some(group), items, now, i);
        var ok := CreateReservation(user, Some(group), items[i], now);
        if !ok {
          CreateAllFails(cfg, before, user, Some(group), items, now, i + 1);
          Rollback(before);
          return;
        }
      }
      assert items[..|items|] == items;
    }

    /** transition_to_awaiting_payment. */
    method PostGenerateSlip(rid: Id)
      requires Valid()
      modifies this
      ensures Valid() && Current() == Next(cfg, old(Current()), GenerateSlip(rid))
      ensures Outcome(cfg, old(Current()), GenerateSlip(rid), Current())
    {
      NextKeepsInv(cfg, Current(), GenerateSlip(rid));
      NextHasOutcome(cfg, Current(), GenerateSlip(rid));
      if rid in reservations && AwaitingPayment in Allowed(reservations[rid].status) {
        reservations := reservations[rid := reservations[rid].(status := AwaitingPayment)];
      }
    }

    /** upload_slip: the first voucher moves the reservation to review and freezes its TTL. */
    method PostUploadSlip(rid: Id)
      requires Valid()
      modifies this
      ensures Valid() && Current() == Next(cfg, old(Current()), UploadSlip(rid))
      ensures Outcome(cfg, old(Current()), UploadSlip(rid), Current())
    {
      NextKeepsInv(cfg, Current(), UploadSlip(rid));
      NextHasOutcome(cfg, Current(), UploadSlip(rid));
      if rid in reservations && reservations[rid].status == AwaitingPayment {
        reservations := reservations[rid := reservations[rid].(status := PaymentUnderReview, ttlFrozen := true)];
      }
    }

    /** confirm_payment. */
    method PostConfirm(rid: Id)
      requires Valid()
      modifies this, inventory
      ensures Valid() && Current() == Next(cfg, old(Current()), ConfirmPayment(rid))
      ensures Outcome(cfg, old(Current()), ConfirmPayment(rid), Current())
    {
      NextKeepsInv(cfg, Current(), ConfirmPayment(rid));
      NextHasOutcome(cfg, Current(), ConfirmPayment(rid));
      if rid in reservations && Confirmed in Allowed(reservations[rid].status) {
        var k := reservations[rid].key;
        if k in inventory.rows && inventory.rows[k].reservation == Some(rid) {
          inventory.rows := inventory.rows[k := inventory.rows[k].(estado := Reserved)];
        }
        reservations := reservations[rid := reservations[rid].(status := Confirmed)];
        inventory.Flush();
      }
    }

    /** Free the reservation's own row, if it has one, and set the final status. */
    method CloseReservation(rid: Id, status: Status)
      requires rid in reservations && cfg == inventory.cfg && inventory.Flushed()
      modifies this, inventory
      ensures Current() == Close(cfg, old(Current()), rid, status) && inventory.Flushed()
    {
      var k := reservations[rid].key;
      if k in inventory.rows && inventory.rows[k].reservation == Some(rid) {
        inventory.Free(k);
      }
      reservations := reservations[rid := reservations[rid].(status := status)];
    }

    /** reject_payment. */
    method PostReject(rid: Id)
      requires Valid()
      modifies this, inventory
      ensures Valid() && Current() == Next(cfg, old(Current()), RejectPayment(rid))
      ensures Outcome(cfg, old(Current()), RejectPayment(rid), Current())
    {
      NextKeepsInv(cfg, Current(), RejectPayment(rid));
      NextHasOutcome(cfg, Current(), RejectPayment(rid));
      if rid in reservations && Expired in Allowed(reservations[rid].status) {
        CloseReservation(rid, Expired);
      }
    }

    /** release_inventory_for_reservation: free any row still linked to the reservation, unless RESERVED. */
    method ReleaseInventory(rid: Id)
      requires rid in reservations && cfg == inventory.cfg && inventory.Flushed()
      modifies inventory
      ensures inventory.Flushed()
      ensures (forall k | k in old(inventory.rows) :: old(inventory.rows)[k].reservation != Some(rid)) ==>
                inventory.rows == old(inventory.rows)
      ensures (exists k :: k in old(inventory.rows) && old(inventory.rows)[k].reservation == Some(rid)) ==>
                exists k :: k in old(inventory.rows) && old(inventory.rows)[k].reservation == Some(rid) &&
                  inventory.rows == Released(cfg, old(inventory.rows), k, reservations[rid].key) &&
                  Cleaned(cfg, old(inventory.rows), inventory.rows, k, reservations[rid].key)
    {
      if exists k :: k in inventory.rows && inventory.rows[k].reservation == Some(rid) {
        var k :| k in inventory.rows && inventory.rows[k].reservation == Some(rid);
        ReleasedIsClean(cfg, inventory.rows, k, reservations[rid].key);
        if inventory.rows[k].estado != Reserved {
          inventory.rows := inventory.rows[k := inventory.rows[k].(estado := Available, reservation := None)];
          inventory.ReleaseBlocks(reservations[rid].key);
        }
      }
    }

    /** cancel_reservation_request. In an event all members are cancelled, in the order the query returns
        them; the cleanup after each one finds nothing left to release. */
    method PostCancel(role: Role, user: Id, rid: Id, order: seq<Id>)
      requires Valid()
      requires rid in reservations && reservations[rid].group.Some? ==>
                 Enumerates(order, Members(Current(), reservations[rid].group.value, role, user))
      modifies this, inventory
      ensures Valid() && Current() == Next(cfg, old(Current()), Cancel(role, user, rid, order))
      ensures Outcome(cfg, old(Current()), Cancel(role, user, rid, order), Current())
    {
      ghost var before := Current();
      NextKeepsInv(cfg, before, Cancel(role, user, rid, order));
      NextHasOutcome(cfg, before, Cancel(role, user, rid, order));
      if rid !in reservations || !MayCancel(Current(), rid, role, user) {
        return;
      }
      match reservations[rid].group
      case Some(g) =>
        if Cancellable(Current(), Members(Current(), g, role, user)) {
          CancelMembers(order, Members(Current(), g, role, user));
        }
      case None =>
        if CanCancel(reservations[rid].status) {
          CloseReservation(rid, Cancelled);
        } else if Terminal(reservations[rid].status) {
          TerminalHasNoRow(cfg, Current(), rid);
          ReleaseInventory(rid);
        }
    }

    method CancelMembers(order: seq<Id>, ghost members: set<Id>)
      requires Valid() && Enumerates(order, members) && members <= reservations.Keys
      requires Cancellable(Current(), members)
      modifies this, inventory
      ensures Valid() && Current() == CancelEach(cfg, old(Current()), order)
    {
      ghost var before := Current();
      for i := 0 to |order|
        invariant Valid() && Current() == CancelEach(cfg, before, order[..i])
      {
        var rid := order[i];
        NextMember(cfg, before, members, order, i);
        CancelEachKeepsInv(cfg, before, order[..i + 1]);
        if CanCancel(reservations[rid].status) {
          CloseReservation(rid, Cancelled);
        }
        TerminalHasNoRow(cfg, Current(), rid);
        ReleaseInventory(rid);
      }
      assert order[..|order|] == order;
    }

    /** A quote request's soft hold: all its slots or none. */
    method PostHold(quote: Id, keys: seq<Key>)
      requires Valid()
      modifies inventory
      ensures Valid() && Current() == Next(cfg, old(Current()), PlaceHold(quote, keys))
      ensures Outcome(cfg, old(Current()), PlaceHold(quote, keys), Current())
    {
      NextKeepsInv(cfg, Current(), PlaceHold(quote, keys));
      NextHasOutcome(cfg, Current(), PlaceHold(quote, keys));
      var held := inventory.PlaceHold(quote, keys);
    }

    /** The end of a quote's soft hold. */
    method PostDropHold(quote: Id)
      requires Valid()
      modifies inventory
      ensures Valid() && Current() == Next(cfg, old(Current()), DropHold(quote))
      ensures Outcome(cfg, old(Current()), DropHold(quote), Current())
    {
      NextKeepsInv(cfg, Current(), DropHold(quote));
      NextHasOutcome(cfg, Current(), DropHold(quote));
      ghost var before := inventory.rows;
      inventory.DropHold(quote);
      assert inventory.rows == DropHoldTable(before, quote);
    }

    /** The first half of expire_reservations_ttl: select the overdue ids. */
    method StartSweep(now: int)
      requires Valid()
      modifies this
      ensures Valid() && Current() == Next(cfg, old(Current()), SweepStart(now))
      ensures Outcome(cfg, old(Current()), SweepStart(now), Current())
    {
      NextKeepsInv(cfg, Current(), SweepStart(now));
      NextHasOutcome(cfg, Current(), SweepStart(now));
      sweeps := sweeps + [Sweep(now, Due(Current(), now), 0)];
    }

    /** One round of the second half, in a transaction of its own. */
    method StepSweep(i: nat, rid: Id)
      requires Valid() && i < |sweeps| && rid in sweeps[i].pending
      modifies this, inventory
      ensures Valid() && Current() == Next(cfg, old(Current()), SweepStep(i, rid))
      ensures Outcome(cfg, old(Current()), SweepStep(i, rid), Current())
    {
      NextKeepsInv(cfg, Current(), SweepStep(i, rid));
      NextHasOutcome(cfg, Current(), SweepStep(i, rid));
      sweeps := sweeps[i := Visited(Current(), sweeps[i], rid)];
      if rid in reservations && CanCancel(reservations[rid].status) {
        CloseReservation(rid, Expired);
      }
    }

    /** The snapshot, as the first state of the sweep. */
    method BeginSweep(now: int) returns (mine: nat)
      requires Valid()
      modifies this, inventory
      ensures Valid() && Sweeping(old(reservations), Current(), OverdueIds(old(reservations), now), mine)
    {
      mine := |sweeps|;
      SweepStarts(cfg, Current(), now);
      StartSweep(now);
    }

    /** One round of the sweep when nothing interleaves. */
    method SweepRound(i: nat, ghost before: map<Id, Reservation>, ghost due: set<Id>)
      requires Valid() && Sweeping(before, Current(), due, i) && sweeps[i].pending != {}
      requires forall r | r in due :: r in before && CanCancel(before[r].status)
      modifies this, inventory
      ensures Valid() && Sweeping(before, Current(), due, i)
      ensures sweeps[i].pending < old(sweeps[i].pending)
    {
      var rid :| rid in sweeps[i].pending;
      SweepAdvances(cfg, before, Current(), due, i, rid);
      StepSweep(i, rid);
    }

    /** The whole task when nothing interleaves: exactly the overdue open reservations expire, every other one
        is untouched, and the count returned is theirs. None is overdue afterwards, and no row is of an expired
        one. */
    method ExpireReservationsTtl(now: int) returns (count: nat)
      requires Valid()
      modifies this, inventory
      ensures Valid() && Swept(old(reservations), reservations, OverdueIds(old(reservations), now))
      ensures count == |OverdueIds(old(reservations), now)|
      ensures forall rid | rid in reservations :: !Overdue(reservations[rid], now)
      ensures forall k, rid | k in inventory.rows && rid in reservations && reservations[rid].status == Expired ::
                inventory.rows[k].reservation != Some(rid)
    {
      ghost var before, due := reservations, OverdueIds(reservations, now);
      var mine := BeginSweep(now);
      while sweeps[mine].pending != {}
        invariant Valid() && Sweeping(before, Current(), due, mine)
        decreases sweeps[mine].pending
      {
        SweepRound(mine, before, due);
      }
      SweepEnds(before, Current(), now, mine);
      ExpiredHaveNoRow(cfg, Current());
      count := sweeps[mine].count;
    }
  }

  /** The overdue reservations: open, their TTL not frozen and passed. */
  function OverdueIds(reservations: map<Id, Reservation>, now: int): set<Id> {
    set rid | rid in reservations && Overdue(reservations[rid], now)
  }

  lemma NoneOverdue(before: map<Id, Reservation>, after: map<Id, Reservation>, now: int)
    requires Swept(before, after, OverdueIds(before, now))
    ensures forall rid | rid in after :: !Overdue(after[rid], now)
  {
  }

  lemma SweepEnds(before: map<Id, Reservation>, s: State, now: int, i: nat)
    requires Sweeping(before, s, OverdueIds(before, now), i) && s.sweeps[i].pending == {}
    ensures Swept(before, s.reservations, OverdueIds(before, now)) && s.sweeps[i].count == |OverdueIds(before, now)|
    ensures forall rid | rid in s.reservations :: !Overdue(s.reservations[rid], now)
  {
    assert OverdueIds(before, now) - s.sweeps[i].pending == OverdueIds(before, now);
    NoneOverdue(before, s.reservations, now);
  }

  lemma ExpiredHaveNoRow(c: Config, s: State)
    requires Inv(c, s)
    ensures forall k, rid | k in s.rows && rid in s.reservations && s.reservations[rid].status == Expired ::
              s.rows[k].reservation != Some(rid)
  {
  }

  /** Exactly the reservations in `done` have expired. */
  predicate Swept(before: map<Id, Reservation>, after: map<Id, Reservation>, done: set<Id>) {
    && after.Keys == before.Keys
    && forall r | r in after :: after[r] == if r in done then before[r].(status := Expired) else before[r]
  }

  /** The sweep has expired what it has visited, counted it, and has the rest before it. */
  predicate Sweeping(before: map<Id, Reservation>, s: State, due: set<Id>, i: nat) {
    && i < |s.sweeps|
    && s.sweeps[i].pending <= due
    && s.sweeps[i].count + |s.sweeps[i].pending| == |due|
    && Swept(before, s.reservations, due - s.sweeps[i].pending)
  }

  lemma SweepStarts(c: Config, s: State, now: int)
    ensures Sweeping(s.reservations, Next(c, s, SweepStart(now)), OverdueIds(s.reservations, now), |s.sweeps|)
  {
    var due := OverdueIds(s.reservations, now);
    assert Due(s, now) == due;
    assert due - due == {};
  }

  /** Visiting an open reservation expires and counts it. */
  lemma SweepVisits(c: Config, s: State, i: nat, rid: Id)
    requires i < |s.sweeps| && rid in s.sweeps[i].pending
    requires rid in s.reservations && CanCancel(s.reservations[rid].status)
    ensures
      var s', w := Next(c, s, SweepStep(i, rid)), s.sweeps[i];
      && s'.reservations == s.reservations[rid := s.reservations[rid].(status := Expired)]
      && s'.sweeps == s.sweeps[i := Sweep(w.now, w.pending - {rid}, w.count + 1)]
  {
  }

  lemma SweptMore(before: map<Id, Reservation>, now: map<Id, Reservation>, done: set<Id>, rid: Id)
    requires Swept(before, now, done) && rid in before && rid !in done
    ensures Swept(before, now[rid := now[rid].(status := Expired)], done + {rid})
  {
  }

  lemma SweepAdvances(c: Config, before: map<Id, Reservation>, s: State, due: set<Id>, i: nat, rid: Id)
    requires Sweeping(before, s, due, i) && rid in s.sweeps[i].pending
    requires rid in before && CanCancel(before[rid].status)
    ensures
      var s' := Next(c, s, SweepStep(i, rid));
      Sweeping(before, s', due, i) && s'.sweeps[i].pending == s.sweeps[i].pending - {rid}
  {
    var pending := s.sweeps[i].pending;
    SweepVisits(c, s, i, rid);
    SweptMore(before, s.reservations, due - pending, rid);
    assert due - (pending - {rid}) == due - pending + {rid};
  }

  ghost function Released(c: Config, t: Table, k: Key, own: Key): Table
    requires k in t
  {
    if t[k].estado == Reserved then t
    else
      var freed := t[k := t[k].(estado := Available, reservation := None)];
      ReleaseTable(c, if c.autoflush then freed else t, freed, own)
  }

  lemma CreateAllStep(c: Config, s: State, user: Id, group: Option<Id>, items: seq<Item>, now: int, i: nat)
    requires i < |items| && CreateAll(c, s, user, group, items[..i], now).Some?
    ensures CreateAll(c, s, user, group, items[..i + 1], now) ==
            CreateOne(c, CreateAll(c, s, user, group, items[..i], now).value, user, group, items[i], now)
  {
    var prefix := items[..i + 1];
    assert prefix[..i] == items[..i] && prefix[i] == items[i];
  }

  /** An event whose first items cannot be created cannot be created. */
  lemma {:induction false} CreateAllFails(
    c: Config, s: State, user: Id, group: Option<Id>, items: seq<Item>, now: int, n: nat
  )
    requires n <= |items| && CreateAll(c, s, user, group, items[..n], now) == None
    ensures CreateAll(c, s, user, group, items, now) == None
    decreases |items|
  {
    if n == |items| {
      assert items[..n] == items;
    } else {
      assert items[..|items| - 1][..n] == items[..n];
      CreateAllFails(c, s, user, group, items[..|items| - 1], now, n);
    }
  }

  /** A cancelled or expired reservation has no row left, so the defensive cleanup is a no-op. */
  /** The row at k is free unless it is RESERVED, and besides it only the neighbours of the reservation's slot may
      have been unlocked. */
  ghost predicate Cleaned(c: Config, t: Table, t': Table, k: Key, own: Key) {
    if At(t, k).estado == Reserved then t' == t
    else
      && At(t', k).estado == Available && At(t', k).reservation == None
      && forall x | x != k && !InParent(c, own, x) && !InChildOfRoot(c, own, x) :: At(t', x) == At(t, x)
  }

  lemma ReleasedIsClean(c: Config, t: Table, k: Key, own: Key)
    requires k in t
    ensures Cleaned(c, t, Released(c, t, k, own), k, own)
  {
    var t' := Released(c, t, k, own);
    forall x | x != k && !InParent(c, own, x) && !InChildOfRoot(c, own, x)
      ensures At(t', x) == At(t, x)
    {
      assert x in ChildKeys(c, own) ==> x.slot == own.slot;
    }
  }

  lemma TerminalHasNoRow(c: Config, s: State, rid: Id)
    requires Inv(c, s) && rid in s.reservations && Terminal(s.reservations[rid].status)
    ensures forall k | k in s.rows :: s.rows[k].reservation != Some(rid)
  {
  }

  /** When its turn comes, a member of the event is as it was before the first cancellation. */
  lemma NextMember(c: Config, s: State, members: set<Id>, order: seq<Id>, i: nat)
    requires Inv(c, s) && i < |order| && Enumerates(order, members) && members <= s.reservations.Keys
    requires Cancellable(s, members)
    ensures
      var s' := CancelEach(c, s, order[..i]);
      && order[i] in s'.reservations && s'.reservations[order[i]] == s.reservations[order[i]]
      && (CanCancel(s.reservations[order[i]].status) || Terminal(s.reservations[order[i]].status))
      && CancelEach(c, s, order[..i + 1]) ==
         (if CanCancel(s.reservations[order[i]].status) then Close(c, s', order[i], Cancelled) else s')
  {
    var prefix := order[..i + 1];
    assert prefix[..i] == order[..i] && prefix[i] == order[i];
    assert order[i] in (set x | x in order);
    assert order[i] in members && order[i] !in order[..i];
    CancelledReservations(c, s, order[..i], order[i]);
  }
}
