/** What a step can do to reservations: which transitions happen, what the TTL sweep may expire, how many
    active reservations a customer can collect, and what cancelling an event achieves. */
module Lifecycle {
  import opened Common
  import opened Inventory
  import opened InventoryInvariants
  import opened Booking
  import opened BookingInvariants

  // ----- Reservations after a compound step -----

  /** Creating an event keeps every earlier reservation and adds open ones of this user and event. */
  lemma {:induction false} CreatedReservations(
    c: Config, s: State, user: Id, group: Option<Id>, items: seq<Item>, now: int, rid: Id
  )
    requires CreateAll(c, s, user, group, items, now).Some?
    ensures
      var s' := CreateAll(c, s, user, group, items, now).value;
      && s'.sweeps == s.sweeps
      && (rid in s.reservations ==> rid in s'.reservations && s'.reservations[rid] == s.reservations[rid])
      && (rid in s'.reservations && rid !in s.reservations ==>
            s'.reservations[rid].user == user && s'.reservations[rid].group == group &&
            s'.reservations[rid].status == PendingSlip && !s'.reservations[rid].ttlFrozen)
    decreases |items|
  {
    if items != [] {
      CreatedReservations(c, s, user, group, items[..|items| - 1], now, rid);
    }
  }

  function AfterCancel(r: Reservation, listed: bool): Reservation {
    if listed && CanCancel(r.status) then r.(status := Cancelled) else r
  }

  /** Cancelling the members of an event touches only their status, and only if they are still open. */
  lemma {:induction false} CancelledReservations(c: Config, s: State, order: seq<Id>, rid: Id)
    requires Inv(c, s)
    ensures
      var s' := CancelEach(c, s, order);
      && s'.sweeps == s.sweeps
      && (rid in s'.reservations <==> rid in s.reservations)
      && (rid in s.reservations ==> s'.reservations[rid] == AfterCancel(s.reservations[rid], rid in order))
    decreases |order|
  {
    if order != [] {
      CancelledReservations(c, s, order[..|order| - 1], rid);
      assert order == order[..|order| - 1] + [order[|order| - 1]];
      CancelEachKeepsInv(c, s, order[..|order| - 1]);
    }
  }

  // ----- Transitions -----

  /** The status changes one step can make: those of ALLOWED_TRANSITIONS, and for a sweep step on this very
      reservation the exit of an open one to EXPIRED. */
  predicate MayBecome(a: Action, rid: Id, from: Status, to: Status) {
    to == from || to in Allowed(from) || (CanCancel(from) && to == Expired && a.SweepStep? && a.rid == rid)
  }

  /** The reservation still exists; only its status and its freeze may have changed, the status by an allowed
      transition and the freeze exactly on entering review. */
  predicate FollowsTransitions(a: Action, s: State, s': State, rid: Id)
    requires rid in s.reservations
  {
    rid in s'.reservations &&
    var r, r' := s.reservations[rid], s'.reservations[rid];
    && r' == r.(status := r'.status, ttlFrozen := r'.ttlFrozen)
    && MayBecome(a, rid, r.status, r'.status)
    && r'.ttlFrozen == (r.ttlFrozen || r'.status == PaymentUnderReview)
  }

  lemma AfterCancelFollows(a: Action, s: State, s': State, rid: Id, listed: bool)
    requires FrozenInStep(s) && rid in s.reservations && rid in s'.reservations
    requires s'.reservations[rid] == AfterCancel(s.reservations[rid], listed)
    ensures FollowsTransitions(a, s, s', rid)
  {
  }

  lemma CancelFollowsTransitions(c: Config, s: State, role: Role, user: Id, target: Id, order: seq<Id>, rid: Id)
    requires Inv(c, s) && rid in s.reservations
    ensures FollowsTransitions(Cancel(role, user, target, order), s, CancelStep(c, s, role, user, target, order), rid)
  {
    var s' := CancelStep(c, s, role, user, target, order);
    CancelledReservations(c, s, order, rid);
    assert exists listed :: s'.reservations[rid] == AfterCancel(s.reservations[rid], listed) by {
      assert s'.reservations[rid] == AfterCancel(s.reservations[rid], rid in order)
          || s'.reservations[rid] == AfterCancel(s.reservations[rid], rid == target)
          || s'.reservations[rid] == AfterCancel(s.reservations[rid], false);
    }
    var listed :| s'.reservations[rid] == AfterCancel(s.reservations[rid], listed);
    AfterCancelFollows(Cancel(role, user, target, order), s, s', rid, listed);
  }

  lemma CreateFollowsTransitions(c: Config, s: State, a: Action, rid: Id)
    requires FrozenInStep(s) && rid in s.reservations && (a.Create? || a.CreateEvent?)
    ensures FollowsTransitions(a, s, Next(c, s, a), rid)
  {
    if a.CreateEvent? && CreateAll(c, s, a.user, Some(a.group), a.items, a.now).Some? {
      CreatedReservations(c, s, a.user, Some(a.group), a.items, a.now, rid);
    }
  }

  lemma SweepFollowsTransitions(c: Config, s: State, a: Action, rid: Id)
    requires FrozenInStep(s) && rid in s.reservations && a.SweepStep?
    ensures FollowsTransitions(a, s, Next(c, s, a), rid)
  {
  }

  lemma OtherStepsFollowTransitions(c: Config, s: State, a: Action, rid: Id)
    requires FrozenInStep(s) && rid in s.reservations
    requires !a.Create? && !a.CreateEvent? && !a.Cancel? && !a.SweepStep?
    ensures FollowsTransitions(a, s, Next(c, s, a), rid)
  {
  }

  lemma StepsFollowTransitions(c: Config, s: State, a: Action, rid: Id)
    requires Inv(c, s) && rid in s.reservations
    ensures FollowsTransitions(a, s, Next(c, s, a), rid)
  {
    match a
    case Create(_, _, _, _) => CreateFollowsTransitions(c, s, a, rid);
    case CreateEvent(_, _, _, _, _) => CreateFollowsTransitions(c, s, a, rid);
    case Cancel(role, user, target, order) => CancelFollowsTransitions(c, s, role, user, target, order, rid);
    case SweepStep(_, _) => SweepFollowsTransitions(c, s, a, rid);
    case _ => OtherStepsFollowTransitions(c, s, a, rid);
  }

  lemma NewReservationsAreOpen(c: Config, s: State, a: Action, rid: Id)
    requires Acyclic(c) && Inv(c, s) && rid !in s.reservations && rid in Next(c, s, a).reservations
    ensures Next(c, s, a).reservations[rid].status == PendingSlip && !Next(c, s, a).reservations[rid].ttlFrozen
    ensures a.Create? ==> Next(c, s, a).reservations[rid].user == a.user && rid == a.item.rid
    ensures a.Create? ==> Next(c, s, a).reservations[rid].group == None && MayCreate(s, a.user, a.role)
    ensures a.CreateEvent? ==> Next(c, s, a).reservations[rid].user == a.user && MayCreate(s, a.user, a.role)
    ensures a.CreateEvent? ==> Next(c, s, a).reservations[rid].group == Some(a.group)
    ensures a.Create? || a.CreateEvent?
  {
    match a
    case CreateEvent(role, user, group, items, now) =>
      CreatedReservations(c, s, user, Some(group), items, now, rid);
    case Cancel(role, user, r, order) => CancelledReservations(c, s, order, rid);
    case _ =>
  }

  // ----- TTL -----

  /** The reservation was under review at some point of the run. */
  ghost predicate Reviewed(c: Config, s: State, run: seq<Action>, rid: Id) {
    exists n: nat :: n <= |run| && rid in Exec(c, s, run[..n]).reservations &&
      Exec(c, s, run[..n]).reservations[rid].status == PaymentUnderReview
  }

  lemma ReviewedStep(c: Config, s: State, run: seq<Action>, rid: Id)
    requires run != []
    ensures Reviewed(c, s, run, rid) <==>
            Reviewed(c, s, run[..|run| - 1], rid) ||
            (rid in Exec(c, s, run).reservations && Exec(c, s, run).reservations[rid].status == PaymentUnderReview)
  {
    var prefix := run[..|run| - 1];
    forall n: nat | n <= |prefix|
      ensures prefix[..n] == run[..n]
    {
    }
    assert run[..|run|] == run;
    if Reviewed(c, s, prefix, rid) {
      var n: nat :| n <= |prefix| && rid in Exec(c, s, prefix[..n]).reservations &&
        Exec(c, s, prefix[..n]).reservations[rid].status == PaymentUnderReview;
      assert Exec(c, s, run[..n]) == Exec(c, s, prefix[..n]);
    }
    if Reviewed(c, s, run, rid) {
      var n: nat :| n <= |run| && rid in Exec(c, s, run[..n]).reservations &&
        Exec(c, s, run[..n]).reservations[rid].status == PaymentUnderReview;
      if n < |run| {
        assert Exec(c, s, prefix[..n]) == Exec(c, s, run[..n]);
      }
    }
  }

  /** In every run, ttl_frozen holds exactly for the reservations that have passed through review. */
  lemma {:induction false} FrozenIffReviewed(c: Config, s: State, run: seq<Action>, rid: Id)
    requires Acyclic(c) && Init(s) && rid in Exec(c, s, run).reservations
    ensures Exec(c, s, run).reservations[rid].ttlFrozen <==> Reviewed(c, s, run, rid)
    decreases |run|
  {
    if run != [] {
      var prefix := run[..|run| - 1];
      var a := run[|run| - 1];
      RunKeepsInv(c, s, prefix);
      ReviewedStep(c, s, run, rid);
      if rid in Exec(c, s, prefix).reservations {
        FrozenIffReviewed(c, s, prefix, rid);
        StepsFollowTransitions(c, Exec(c, s, prefix), a, rid);
      } else {
        NewReservationsAreOpen(c, Exec(c, s, prefix), a, rid);
        NeverReviewedBefore(c, s, prefix, rid);
      }
    }
  }

  /** Reservations are never deleted, so one that does not exist was never reviewed. */
  lemma {:induction false} NeverReviewedBefore(c: Config, s: State, run: seq<Action>, rid: Id)
    requires Acyclic(c) && Init(s) && rid !in Exec(c, s, run).reservations
    ensures !Reviewed(c, s, run, rid)
    decreases |run|
  {
    if run == [] {
      assert forall n: nat | n <= |run| :: run[..n] == run;
    } else {
      var prefix := run[..|run| - 1];
      RunKeepsInv(c, s, prefix);
      if rid in Exec(c, s, prefix).reservations {
        StepsFollowTransitions(c, Exec(c, s, prefix), run[|run| - 1], rid);
      }
      NeverReviewedBefore(c, s, prefix, rid);
      ReviewedStep(c, s, run, rid);
    }
  }

  /** A sweep step changes no reservation but its own, and that one only to EXPIRED, only if it is still open
      and unfrozen and its TTL had passed when the snapshot was taken. */
  ghost predicate SweptRightly(s: State, s': State, i: nat, swept: Id, rid: Id)
    requires rid in s.reservations
  {
    var r := s.reservations[rid];
    rid in s'.reservations &&
    (s'.reservations[rid] != r ==>
      && rid == swept && s'.reservations[rid] == r.(status := Expired) && CanCancel(r.status) && !r.ttlFrozen
      && i < |s.sweeps| && r.ttlExpiresAt.Some? && r.ttlExpiresAt.value < s.sweeps[i].now)
  }

  lemma SweepStepIsRight(c: Config, s: State, i: nat, swept: Id, rid: Id)
    requires FrozenInStep(s) && SweepsDue(s) && rid in s.reservations
    ensures SweptRightly(s, Next(c, s, SweepStep(i, swept)), i, swept, rid)
  {
  }

  /** However a sweep interleaves with user actions and other sweeps, its steps expire only open reservations
      that are overdue and have never been under review; one under review or confirmed is left alone. */
  lemma SweepExpiresOnlyOverdueOpen(c: Config, s: State, run: seq<Action>, i: nat, swept: Id, rid: Id)
    requires Acyclic(c) && Init(s) && rid in Exec(c, s, run).reservations
    ensures
      var before := Exec(c, s, run);
      var after := Next(c, before, SweepStep(i, swept));
      SweptRightly(before, after, i, swept, rid) &&
      (after.reservations[rid] != before.reservations[rid] ==> !Reviewed(c, s, run, rid))
  {
    RunKeepsInv(c, s, run);
    FrozenIffReviewed(c, s, run, rid);
    SweepStepIsRight(c, Exec(c, s, run), i, swept, rid);
  }

  function ExpiredIds(s: State): set<Id> {
    set rid | rid in s.reservations && s.reservations[rid].status == Expired
  }

  /** The number a sweep reports rises with every id it visits; it matches the reservations really expired
      exactly when the visited one was still open. */
  lemma SweepCountIsExactIff(c: Config, s: State, i: nat, rid: Id)
    requires Inv(c, s) && i < |s.sweeps| && rid in s.sweeps[i].pending
    ensures
      var s' := Next(c, s, SweepStep(i, rid));
      && rid in s.reservations
      && s'.sweeps[i].count == s.sweeps[i].count + 1
      && (|ExpiredIds(s')| == |ExpiredIds(s)| + 1 <==> CanCancel(s.reservations[rid].status))
  {
    var s' := Next(c, s, SweepStep(i, rid));
    if CanCancel(s.reservations[rid].status) {
      assert ExpiredIds(s') == ExpiredIds(s) + {rid};
    } else {
      assert ExpiredIds(s') == ExpiredIds(s);
    }
  }

  // ----- Anti-hoarding -----

  /** The step is a creation by this user with a back-office role. */
  predicate StaffCreation(a: Action, user: Id) {
    (a.Create? || a.CreateEvent?) && a.user == user && a.role == Staff
  }

  /** No step but an allowed creation adds a logical reservation, and a creation of any size adds at most one. */
  lemma ActiveIdsGrowByOne(c: Config, s: State, a: Action, user: Id)
    requires Acyclic(c) && Inv(c, s)
    ensures exists id: Id :: ActiveIds(Next(c, s, a), user) <= ActiveIds(s, user) + {id}
    ensures !(a.Create? || a.CreateEvent?) || a.user != user || !MayCreate(s, user, a.role) ==>
              ActiveIds(Next(c, s, a), user) <= ActiveIds(s, user)
  {
    var s' := Next(c, s, a);
    var id := match a case Create(_, _, item, _) => item.rid case CreateEvent(_, _, group, _, _) => group case _ => 0;
    forall x | x in ActiveIds(s', user)
      ensures x in ActiveIds(s, user) ||
              ((a.Create? || a.CreateEvent?) && a.user == user && MayCreate(s, user, a.role) && x == id)
    {
      var rid :| rid in s'.reservations && s'.reservations[rid].user == user &&
        Active(s'.reservations[rid].status) && LogicalId(rid, s'.reservations[rid]) == x;
      if rid in s.reservations {
        StepsFollowTransitions(c, s, a, rid);
        assert LogicalId(rid, s.reservations[rid]) == x;
      } else {
        NewReservationsAreOpen(c, s, a, rid);
      }
    }
    assert ActiveIds(s', user) <= ActiveIds(s, user) + {id};
  }

  lemma {:induction false} SubsetSize<T>(a: set<T>, b: set<T>)
    requires a <= b
    ensures |a| <= |b|
  {
    if a != {} {
      var x :| x in a;
      SubsetSize(a - {x}, b - {x});
    }
  }

  // ----- Group cancel -----

  /** Cancelling a list of reservations touches no row owned by any other reservation. */
  lemma {:induction false} CancelEachSparesOthers(c: Config, s: State, order: seq<Id>, k: Key)
    requires Inv(c, s) && At(s.rows, k).reservation.Some? && At(s.rows, k).reservation.value !in order
    ensures At(CancelEach(c, s, order).rows, k) == At(s.rows, k)
    decreases |order|
  {
    if order != [] {
      var n := |order| - 1;
      CancelEachSparesOthers(c, s, order[..n], k);
      CancelEachKeepsInv(c, s, order[..n]);
      var s' := CancelEach(c, s, order[..n]);
      if order[n] in s'.reservations && CanCancel(s'.reservations[order[n]].status) {
        assert OwnsRow(s', order[n]);
        assert k in s'.rows && Held(s'.rows[k].estado);
        FreeKeepsOthers(c, s'.rows, s'.reservations[order[n]].key, k);
      }
    }
  }

  /** The reservations of an event. */
  function Event(s: State, group: Id): set<Id> {
    set x | x in s.reservations && s.reservations[x].group == Some(group)
  }

  /** Every reservation of the event is CANCELLED or EXPIRED and no row points at any of them. */
  ghost predicate EventClosed(s: State, event: set<Id>) {
    && (forall x | x in event :: x in s.reservations && Terminal(s.reservations[x].status))
    && (forall k | k in s.rows && s.rows[k].reservation.Some? :: s.rows[k].reservation.value !in event)
  }

  /** The other reservations, and the rows they own, are as before. */
  ghost predicate OthersSpared(s: State, s': State, event: set<Id>) {
    && (forall x | x in s.reservations && x !in event ::
          x in s'.reservations && s'.reservations[x] == s.reservations[x])
    && (forall k | At(s.rows, k).reservation.Some? && At(s.rows, k).reservation.value !in event ::
          At(s'.rows, k) == At(s.rows, k))
  }

  lemma CancelEachSparesEventOthers(c: Config, s: State, event: set<Id>, order: seq<Id>)
    requires Inv(c, s) && (forall x :: x in order <==> x in event)
    ensures OthersSpared(s, CancelEach(c, s, order), event)
  {
    var s' := CancelEach(c, s, order);
    forall x | x in s.reservations && x !in event
      ensures x in s'.reservations && s'.reservations[x] == s.reservations[x]
    {
      CancelledReservations(c, s, order, x);
    }
    forall k | At(s.rows, k).reservation.Some? && At(s.rows, k).reservation.value !in event
      ensures At(s'.rows, k) == At(s.rows, k)
    {
      CancelEachSparesOthers(c, s, order, k);
    }
  }

  lemma ClosedIfTerminal(s: State, event: set<Id>)
    requires RowsOwned(s) && forall x | x in event :: x in s.reservations && Terminal(s.reservations[x].status)
    ensures EventClosed(s, event)
  {
  }

  lemma CancelEachClosesEvent(c: Config, s: State, event: set<Id>, order: seq<Id>)
    requires Inv(c, s) && (forall x :: x in order <==> x in event)
    requires Cancellable(s, event) && event <= s.reservations.Keys
    ensures EventClosed(CancelEach(c, s, order), event)
  {
    var s' := CancelEach(c, s, order);
    forall x | x in event
      ensures x in s'.reservations && Terminal(s'.reservations[x].status)
    {
      CancelledReservations(c, s, order, x);
    }
    assert RowsOwned(s') by { CancelEachKeepsInv(c, s, order); }
    ClosedIfTerminal(s', event);
  }

  lemma EventHasOneOwner(s: State, g: Id, role: Role, user: Id, rid: Id)
    requires GroupsOfOneUser(s) && rid in s.reservations && s.reservations[rid].group == Some(g)
    requires MayCancel(s, rid, role, user)
    ensures Members(s, g, role, user) == Event(s, g)
  {
  }

  lemma CancellableIff(s: State, event: set<Id>)
    requires event <= s.reservations.Keys
    ensures !Cancellable(s, event) <==>
            exists x ::
              x in event && (s.reservations[x].status == PaymentUnderReview || s.reservations[x].status == Confirmed)
  {
  }

  lemma OrderIsEvent(order: seq<Id>, event: set<Id>)
    requires Enumerates(order, event)
    ensures forall x :: x in order <==> x in event
  {
    assert forall x :: x in order <==> x in (set y | y in order);
  }

  /** Cancelling an event is all or nothing. If some reservation of it is under review or confirmed nothing
      changes; otherwise the whole event is closed and everything else is spared. A customer's request
      reaches the whole event too, because an event has one owner. */
  lemma GroupCancelIsAllOrNothing(c: Config, s: State, role: Role, user: Id, rid: Id, order: seq<Id>, g: Id)
    requires Inv(c, s) && rid in s.reservations && s.reservations[rid].group == Some(g)
    requires MayCancel(s, rid, role, user) && Enumerates(order, Members(s, g, role, user))
    ensures
      var s' := CancelStep(c, s, role, user, rid, order);
      if exists x ::
          x in Event(s, g) && (s.reservations[x].status == PaymentUnderReview || s.reservations[x].status == Confirmed)
      then s' == s
      else EventClosed(s', Event(s, g)) && OthersSpared(s, s', Event(s, g))
  {
    var event := Event(s, g);
    EventHasOneOwner(s, g, role, user, rid);
    CancellableIff(s, event);
    if Cancellable(s, event) {
      OrderIsEvent(order, event);
      CancelEachClosesEvent(c, s, event, order);
      CancelEachSparesEventOthers(c, s, event, order);
    }
  }
}
