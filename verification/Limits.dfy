/** The anti-hoarding limit in terms of reservations: what the count of distinct ids in
    `booking/anti_hoarding.py` means for the reservations a user has. */
module Limits {
  import opened Common
  import opened Booking
  import opened BookingInvariants
  import opened Inventory
  import opened Lifecycle

  /** The reservation is the user's and neither confirmed nor closed. */
  predicate IsActive(s: State, user: Id, x: Id) {
    x in s.reservations && s.reservations[x].user == user &&
    match s.reservations[x].status
    case PendingSlip => true
    case AwaitingPayment => true
    case PaymentUnderReview => true
    case _ => false
  }

  predicate OfOneEvent(a: Reservation, b: Reservation) {
    a.group.Some? && a.group == b.group
  }

  /** Active reservations of the user, no two of one event. */
  ghost predicate Separate(s: State, user: Id, ids: set<Id>) {
    && (forall x | x in ids :: IsActive(s, user, x))
    && (forall x, y | x in ids && y in ids && x != y :: !OfOneEvent(s.reservations[x], s.reservations[y]))
  }

  lemma SeparateLess(s: State, user: Id, ids: set<Id>, x: Id)
    requires Separate(s, user, ids)
    ensures Separate(s, user, ids - {x})
  {
  }

  /** What such reservations are counted by. */
  function LogicalIds(s: State, ids: set<Id>): set<Id>
    requires ids <= s.reservations.Keys
  {
    set x | x in ids :: LogicalId(x, s.reservations[x])
  }

  /** Separate reservations are counted one by one. */
  lemma {:induction false} CountedOneByOne(s: State, user: Id, ids: set<Id>)
    requires IdsApart(s) && Separate(s, user, ids)
    ensures ids <= s.reservations.Keys && LogicalIds(s, ids) <= ActiveIds(s, user) && |LogicalIds(s, ids)| == |ids|
    decreases |ids|
  {
    if ids == {} {
      assert LogicalIds(s, ids) == {};
    } else {
      var x :| x in ids;
      var rest := ids - {x};
      SeparateLess(s, user, ids, x);
      CountedOneByOne(s, user, rest);
      forall y | y in rest
        ensures LogicalId(y, s.reservations[y]) != LogicalId(x, s.reservations[x])
      {
        assert !OfOneEvent(s.reservations[x], s.reservations[y]);
        assert s.reservations[x].group != Some(y) && s.reservations[y].group != Some(x);
      }
      LogicalIdsMore(s, rest, x);
      assert rest + {x} == ids;
    }
  }

  /** Separate reservations counted by these ids, one by one. */
  ghost predicate Represent(s: State, user: Id, ids: set<Id>, counted: set<Id>) {
    Separate(s, user, ids) && ids <= s.reservations.Keys && LogicalIds(s, ids) == counted && |ids| == |counted|
  }

  lemma SeparateMore(s: State, user: Id, ids: set<Id>, x: Id)
    requires Separate(s, user, ids) && IsActive(s, user, x)
    requires forall y | y in ids :: LogicalId(y, s.reservations[y]) != LogicalId(x, s.reservations[x])
    ensures Separate(s, user, ids + {x}) && x !in ids
  {
  }

  lemma RepresentMore(s: State, user: Id, ids: set<Id>, counted: set<Id>, x: Id)
    requires Represent(s, user, ids, counted) && IsActive(s, user, x)
    requires LogicalId(x, s.reservations[x]) !in counted
    ensures Represent(s, user, ids + {x}, counted + {LogicalId(x, s.reservations[x])})
  {
    forall y | y in ids
      ensures LogicalId(y, s.reservations[y]) in counted
    {
      assert LogicalId(y, s.reservations[y]) in LogicalIds(s, ids);
    }
    SeparateMore(s, user, ids, x);
    LogicalIdsMore(s, ids, x);
  }

  lemma LogicalIdsMore(s: State, ids: set<Id>, x: Id)
    requires ids + {x} <= s.reservations.Keys
    ensures LogicalIds(s, ids + {x}) == LogicalIds(s, ids) + {LogicalId(x, s.reservations[x])}
  {
  }

  lemma NobodyRepresents(s: State, user: Id)
    ensures Represent(s, user, {}, {})
  {
    assert LogicalIds(s, {}) == {};
  }

  lemma CountedFor(s: State, user: Id, id: Id) returns (x: Id)
    requires id in ActiveIds(s, user)
    ensures IsActive(s, user, x)
    ensures LogicalId(x, s.reservations[x]) == id
  {
    x :| x in s.reservations && s.reservations[x].user == user && Active(s.reservations[x].status) &&
      LogicalId(x, s.reservations[x]) == id;
  }

  lemma OneMore(s: State, user: Id, ids: set<Id>, counted: set<Id>, id: Id) returns (more: set<Id>)
    requires Represent(s, user, ids, counted) && id in ActiveIds(s, user) && id !in counted
    ensures Represent(s, user, more, counted + {id})
  {
    var x := CountedFor(s, user, id);
    RepresentMore(s, user, ids, counted, x);
    more := ids + {x};
  }

  /** Each counted id stands for a reservation, and different ones for separate reservations. */
  lemma {:induction false} SomeSeparate(s: State, user: Id, counted: set<Id>) returns (ids: set<Id>)
    requires counted <= ActiveIds(s, user)
    ensures Represent(s, user, ids, counted)
    decreases |counted|
  {
    if counted == {} {
      ids := {};
      NobodyRepresents(s, user);
    } else {
      var id :| id in counted;
      var others := counted - {id};
      assert others + {id} == counted;
      var rest := SomeSeparate(s, user, others);
      ids := OneMore(s, user, rest, others, id);
    }
  }

  /** The count is that of the largest set of separate reservations. */
  lemma CountIsLargest(s: State, user: Id, n: nat)
    requires IdsApart(s)
    ensures n <= |ActiveIds(s, user)| <==> exists ids :: Separate(s, user, ids) && |ids| == n
  {
    if ids :| Separate(s, user, ids) && |ids| == n {
      CountedOneByOne(s, user, ids);
      SubsetSize(LogicalIds(s, ids), ActiveIds(s, user));
    }
    if n <= |ActiveIds(s, user)| {
      var counted := SomeOf(ActiveIds(s, user), n);
      var ids := SomeSeparate(s, user, counted);
    }
  }

  lemma {:induction false} SomeOf(all: set<Id>, n: nat) returns (some: set<Id>)
    requires n <= |all|
    ensures some <= all && |some| == n
    decreases n
  {
    if n == 0 {
      some := {};
    } else {
      var x :| x in all;
      var rest := SomeOf(all - {x}, n - 1);
      some := rest + {x};
    }
  }

  /** A user may create with a back-office role, or as long as no three of the user's active reservations are of
      different events. */
  ghost predicate BelowLimit(s: State, user: Id, role: Role) {
    role == Staff || !exists ids :: Separate(s, user, ids) && |ids| == 3
  }

  /** The limit refuses exactly users other than staff with three separate active reservations. */
  lemma LimitIsThreeIff(s: State, user: Id, role: Role)
    requires IdsApart(s)
    ensures MayCreate(s, user, role) <==> BelowLimit(s, user, role)
  {
    CountIsLargest(s, user, 3);
  }

  // ----- Runs -----

  /** The step is a creation the limit lets this user make. */
  predicate CreatesFor(s: State, a: Action, user: Id) {
    (a.Create? || a.CreateEvent?) && a.user == user && MayCreate(s, user, a.role)
  }

  lemma CountGrowsByOne(c: Config, s: State, a: Action, user: Id)
    requires Acyclic(c) && Inv(c, s)
    ensures |ActiveIds(Next(c, s, a), user)| <= |ActiveIds(s, user)| + if CreatesFor(s, a, user) then 1 else 0
  {
    var after, before := ActiveIds(Next(c, s, a), user), ActiveIds(s, user);
    ActiveIdsGrowByOne(c, s, a, user);
    var id: Id :| after <= before + {id};
    SubsetSize(after, before + {id});
    if !CreatesFor(s, a, user) { SubsetSize(after, before); }
  }

  lemma {:induction false} CountStaysAtThree(c: Config, s: State, run: seq<Action>, user: Id)
    requires Acyclic(c) && Init(s)
    requires forall i | 0 <= i < |run| :: !StaffCreation(run[i], user)
    ensures |ActiveIds(Exec(c, s, run), user)| <= 3
    decreases |run|
  {
    if run != [] {
      var n := |run| - 1;
      CountStaysAtThree(c, s, run[..n], user);
      RunKeepsInv(c, s, run[..n]);
      CountGrowsByOne(c, Exec(c, s, run[..n]), run[n], user);
      assert !StaffCreation(run[n], user);
    }
  }

  /** In every run, a user who never creates with a back-office role has at most three active reservations of
      different events or of none. */
  lemma CustomersHoldAtMostThree(c: Config, s0: State, run: seq<Action>, user: Id, ids: set<Id>)
    requires Acyclic(c) && Init(s0)
    requires forall i | 0 <= i < |run| && (run[i].Create? || run[i].CreateEvent?) && run[i].user == user ::
               run[i].role != Staff
    requires Separate(Exec(c, s0, run), user, ids)
    ensures |ids| <= 3
  {
    CountStaysAtThree(c, s0, run, user);
    RunKeepsInv(c, s0, run);
    CountIsLargest(Exec(c, s0, run), user, |ids|);
  }

  /** A step leaves the user at most one more separate reservation than there were before, and none more unless
      it is a creation of the user below the limit. */
  lemma SeparateGrowByOne(c: Config, s: State, a: Action, user: Id, ids: set<Id>)
    requires Acyclic(c) && Inv(c, s) && Separate(Next(c, s, a), user, ids) && ids != {}
    ensures exists earlier ::
              Separate(s, user, earlier) &&
              |earlier| == if (a.Create? || a.CreateEvent?) && a.user == user && BelowLimit(s, user, a.role)
                           then |ids| - 1 else |ids|
  {
    NextKeepsInv(c, s, a);
    CountIsLargest(Next(c, s, a), user, |ids|);
    CountGrowsByOne(c, s, a, user);
    if (a.Create? || a.CreateEvent?) && a.user == user { LimitIsThreeIff(s, user, a.role); }
    CountIsLargest(s, user, if CreatesFor(s, a, user) then |ids| - 1 else |ids|);
  }
}
