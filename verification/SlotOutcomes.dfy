/** The outcome of each slot operation, read off the rows themselves: when a claim, a check or a hold succeeds, and
    what every row of the table is afterwards. */
module SlotOutcomes {
  import opened Common
  import opened Inventory
  import opened InventoryInvariants
  import opened Availability
  import opened PythonInt

  // ----- The booking rule -----

  /** To the minute, the slot starts at a start its space lists and lasts as long as the space asks. */
  predicate FitsRule(c: Config, k: Key) {
    var rule := if k.space in c.rules then c.rules[k.space] else c.fallback;
    var ini, fin := k.slot.ini / 60_000_000, k.slot.fin / 60_000_000;
    FormatMinutes(ini) in rule.starts && fin - ini >= rule.minDuration
  }

  lemma DefaultStart(i: nat)
    requires i < 12
    ensures |DefaultRule().starts| == 12 && DefaultRule().starts[i] == HourStart(9 + i)
  {
  }

  lemma ListedAt(start: string) returns (i: nat)
    requires start in DefaultRule().starts
    ensures i < 12 && DefaultRule().starts[i] == start
  {
    i :| 0 <= i < |DefaultRule().starts| && DefaultRule().starts[i] == start;
  }

  lemma StartReads(i: nat)
    requires i < 12
    ensures ParseStart(DefaultRule().starts[i]) == Some((9 + i, 0))
  {
    DefaultStart(i);
    HourParses(9 + i);
  }

  lemma DefaultStartIsHour(m: int)
    requires 0 <= m < 1440 && FormatMinutes(m) in DefaultRule().starts
    ensures m % 60 == 0 && 540 <= m <= 1200
  {
    var i := ListedAt(FormatMinutes(m));
    StartReads(i);
    FormattedParses(m);
  }

  /** The default starts are the full hours from nine in the morning to eight in the evening. */
  lemma DefaultStartsIff(m: int)
    requires 0 <= m < 1440
    ensures FormatMinutes(m) in DefaultRule().starts <==> m % 60 == 0 && 540 <= m <= 1200
  {
    if FormatMinutes(m) in DefaultRule().starts {
      DefaultStartIsHour(m);
    }
    if m % 60 == 0 && 540 <= m <= 1200 {
      DefaultStart(m / 60 - 9);
      assert (9 + (m / 60 - 9)) * 60 == m;
    }
  }

  /** Without a rule of its own a space takes these starts, for an hour or more. */
  lemma DefaultRuleFitsIff(c: Config, k: Key)
    requires k.space !in c.rules && c.fallback == DefaultRule()
    ensures
      var ini, fin := k.slot.ini / 60_000_000, k.slot.fin / 60_000_000;
      FitsRule(c, k) <==> ini % 60 == 0 && 540 <= ini <= 1200 && fin - ini >= 60
  {
    DefaultStartsIff(k.slot.ini / 60_000_000);
  }

  // ----- Claim -----

  /** Everything a claim asks: the rule, a free row, nothing else taken in the space at that time, a parent that is
      free or blocked by a child, and children that are free or blocked by their parent. */
  ghost predicate Claimable(c: Config, t: Table, k: Key) {
    && FitsRule(c, k)
    && At(t, k).estado == Available && At(t, k).reservation == None
    && (forall x | x in t && x != k && x.space == k.space && x.slot.fecha == k.slot.fecha &&
                   x.slot.ini < k.slot.fin && k.slot.ini < x.slot.fin ::
          t[x].estado == Available)
    && (k.space in c.parent ==>
          var e := At(t, Key(c.parent[k.space], k.slot)).estado;
          e == Available || e == BlockedByChild)
    && (forall s | s in c.parent && c.parent[s] == k.space ::
          var e := At(t, Key(s, k.slot)).estado;
          e == Available || e == BlockedByParent)
  }

  lemma ChildrenFreeIff(c: Config, t: Table, k: Key)
    ensures ChildrenFree(c, t, k) <==>
            forall s | s in c.parent && c.parent[s] == k.space ::
              At(t, Key(s, k.slot)).estado == Available || At(t, Key(s, k.slot)).estado == BlockedByParent
  {
    forall x | IsChild(c, k, x)
      ensures x == Key(x.space, k.slot)
    {
    }
    forall s | s in c.parent && c.parent[s] == k.space
      ensures IsChild(c, k, Key(s, k.slot))
    {
    }
  }

  lemma ParentFreeIff(c: Config, t: Table, k: Key)
    ensures ParentFree(c, t, k) <==>
            (k.space in c.parent ==>
               var e := At(t, Key(c.parent[k.space], k.slot)).estado;
               e == Available || e == BlockedByChild)
  {
    if k.space in c.parent { assert IsParent(c, k, Key(c.parent[k.space], k.slot)); }
  }

  lemma ClaimSucceedsIff(c: Config, t: Table, k: Key)
    ensures ClaimOk(c, t, k) <==> Claimable(c, t, k)
  {
    ParentFreeIff(c, t, k);
    ChildrenFreeIff(c, t, k);
    if OverlapBlocked(t, k) {
      var x :| x in t && x != k && Overlaps(x, k) && t[x].estado != Available;
    }
    forall x | x in t && x != k && x.space == k.space && x.slot.fecha == k.slot.fecha &&
               x.slot.ini < k.slot.fin && k.slot.ini < x.slot.fin
      ensures Overlaps(x, k)
    {
    }
  }

  /** In an empty inventory the rule alone decides. */
  lemma EmptyTableAcceptsIff(c: Config, k: Key)
    ensures ClaimOk(c, map[], k) <==> FitsRule(c, k)
  {
    ClaimSucceedsIff(c, map[], k);
  }

  /** x is the row of k's slot in the parent of k's space. */
  predicate InParent(c: Config, k: Key, x: Key) {
    x.slot == k.slot && k.space in c.parent && x.space == c.parent[k.space]
  }

  /** k's space is a root, and x is the row of k's slot in one of its children. */
  predicate InChildOfRoot(c: Config, k: Key, x: Key) {
    x.slot == k.slot && k.space !in c.parent && x.space in c.parent && c.parent[x.space] == k.space
  }

  /** After a claim: the row is TTL_BLOCKED for the reservation, a free parent is BLOCKED_BY_CHILD, the children of
      a root are BLOCKED_BY_PARENT, and nothing else has changed. */
  ghost predicate Claimed(c: Config, t: Table, t': Table, k: Key, rid: Id) {
    && At(t', k) == Row(TtlBlocked, Some(rid), At(t, k).quote)
    && (forall x | x != k && InParent(c, k, x) ::
          At(t', x) ==
          if At(t, x).estado == Available then Row(BlockedByChild, None, At(t, x).quote) else At(t, x))
    && (forall x | x != k && InChildOfRoot(c, k, x) :: At(t', x) == Row(BlockedByParent, None, At(t, x).quote))
    && (forall x | x != k && !InParent(c, k, x) && !InChildOfRoot(c, k, x) :: At(t', x) == At(t, x))
  }

  lemma ClaimWrites(c: Config, t: Table, k: Key, rid: Id)
    ensures Claimed(c, t, ClaimTable(c, t, k, rid), k, rid)
  {
    forall x
      ensures At(ClaimTable(c, t, k, rid), x) == ClaimRow(c, t, k, rid, x)
    {
      AtClaim(c, t, k, rid, x);
    }
  }

  // ----- Release -----

  /** A child of the same parent, other than k's space, holds the slot for a reservation or a quote. */
  ghost predicate SiblingHolds(c: Config, t: Table, k: Key) {
    exists s :: s in c.parent && k.space in c.parent && c.parent[s] == c.parent[k.space] && s != k.space &&
      (At(t, Key(s, k.slot)).estado == TtlBlocked || At(t, Key(s, k.slot)).estado == Reserved ||
       At(t, Key(s, k.slot)).estado == SoftHold)
  }

  /** The row without its shadow block, if that is what blocked it. */
  predicate Unlocked(row: Row, row': Row, shadow: SlotStatus) {
    row' == if row.estado == shadow && row.reservation == None then Row(Available, None, row.quote) else row
  }

  /** After a reserved row was freed: it is AVAILABLE; its parent is unlocked if the session flushes before its
      queries and no sibling holds the slot; the children of a root are unlocked; nothing else has changed. */
  ghost predicate Freed(c: Config, t: Table, t': Table, k: Key) {
    && At(t', k) == Row(Available, None, At(t, k).quote)
    && (forall x | x != k && InParent(c, k, x) ::
          if c.autoflush && !SiblingHolds(c, t, k) then Unlocked(At(t, x), At(t', x), BlockedByChild)
          else At(t', x) == At(t, x))
    && (forall x | x != k && InChildOfRoot(c, k, x) :: Unlocked(At(t, x), At(t', x), BlockedByParent))
    && (forall x | x != k && !InParent(c, k, x) && !InChildOfRoot(c, k, x) :: At(t', x) == At(t, x))
  }

  lemma SiblingHoldsIff(c: Config, t: Table, k: Key)
    requires k in t && Held(t[k].estado) && k.space in c.parent
    ensures SiblingOccupies(c, t, k)
    ensures SiblingOccupies(c, t[k := t[k].(estado := Available, reservation := None)], k) <==> SiblingHolds(c, t, k)
  {
    var freed := t[k := t[k].(estado := Available, reservation := None)];
    if SiblingOccupies(c, freed, k) {
      var x :| x in freed && x.slot == k.slot && Occupying(freed[x].estado) &&
        (x == k || IsChild(c, Key(c.parent[k.space], k.slot), x));
      assert x == Key(x.space, k.slot) && At(t, x) == freed[x];
    }
    if SiblingHolds(c, t, k) {
      var s :| s in c.parent && c.parent[s] == c.parent[k.space] && s != k.space &&
        Occupying(At(t, Key(s, k.slot)).estado);
      assert IsChild(c, Key(c.parent[k.space], k.slot), Key(s, k.slot));
      assert freed[Key(s, k.slot)] == At(t, Key(s, k.slot));
    }
  }

  lemma FreeWrites(c: Config, t: Table, k: Key)
    requires k in t && Held(t[k].estado)
    ensures Freed(c, t, FreeTable(c, t, k), k)
  {
    if k.space in c.parent { SiblingHoldsIff(c, t, k); }
    forall x
      ensures At(FreeTable(c, t, k), x) == FreeRow(c, t, k, x)
    {
      AtFree(c, t, k, x);
    }
  }

  // ----- Check and calendar -----

  /** The parent, or some child, has the slot reserved, held for a quote or in maintenance. */
  ghost predicate NeighbourTakes(c: Config, t: Table, k: Key) {
    exists x: Key :: x.slot == k.slot &&
      ((k.space in c.parent && x.space == c.parent[k.space]) ||
       (x.space in c.parent && c.parent[x.space] == k.space)) &&
      (At(t, x).estado == TtlBlocked || At(t, x).estado == Reserved || At(t, x).estado == SoftHold ||
       At(t, x).estado == Maintenance)
  }

  lemma NeighbourTakesIff(c: Config, t: Table, k: Key)
    ensures Derived(c, t, k).Some? <==> NeighbourTakes(c, t, k)
    ensures Derived(c, t, k).Some? ==> Public(Derived(c, t, k).value) == Blocked
  {
    if k.space in c.parent && HardBlock(At(t, Key(c.parent[k.space], k.slot)).estado) {
      assert NeighbourTakes(c, t, k);
    } else if s :| s in Children(c, k.space) && HardBlock(At(t, Key(s, k.slot)).estado) {
      assert Key(s, k.slot).space in c.parent;
    }
    if NeighbourTakes(c, t, k) {
      var x: Key :| x.slot == k.slot && HardBlock(At(t, x).estado) &&
        ((k.space in c.parent && x.space == c.parent[k.space]) ||
         (x.space in c.parent && c.parent[x.space] == k.space));
      assert x == Key(x.space, k.slot);
    }
  }

  /** The check: no slot that does not fit the rule; TTL_PENDING for a row someone is waiting for, BLOCKED for
      any other that is taken or blocked; a free row is available unless a neighbour takes the slot. */
  lemma CheckAnswers(c: Config, t: Table, k: Key)
    ensures !FitsRule(c, k) ==> Check(c, t, k) == Answer(false, InvalidGranularity)
    ensures FitsRule(c, k) ==>
              Check(c, t, k) ==
              match At(t, k).estado
              case Available =>
                if NeighbourTakes(c, t, k) then Answer(false, Blocked) else Answer(true, PublicAvailable)
              case TtlBlocked => Answer(false, TtlPending)
              case SoftHold => Answer(false, TtlPending)
              case Reserved => Answer(false, Blocked)
              case BlockedByParent => Answer(false, Blocked)
              case BlockedByChild => Answer(false, Blocked)
              case Maintenance => Answer(false, Blocked)
  {
    NeighbourTakesIff(c, t, k);
  }

  /** A calendar cell reads as the check does, except that it does not ask the rule and shows maintenance to the
      superadmin. */
  lemma CellReads(c: Config, t: Table, k: Key, superadmin: bool)
    ensures CellStatus(c, t, k, if k in t then Some(t[k]) else None, superadmin) ==
            match At(t, k).estado
            case Available => if NeighbourTakes(c, t, k) then Blocked else PublicAvailable
            case TtlBlocked => TtlPending
            case SoftHold => TtlPending
            case Reserved => Blocked
            case BlockedByParent => Blocked
            case BlockedByChild => Blocked
            case Maintenance => if superadmin then PublicMaintenance else Blocked
  {
    NeighbourTakesIff(c, t, k);
  }

  lemma {:induction false} UntilColonOf(a: string, rest: string)
    requires ':' !in a && (rest == "" || rest[0] == ':')
    ensures UntilColon(a + rest) == a
    decreases |a|
  {
    if a == [] {
      assert a + rest == rest;
    } else {
      UntilColonOf(a[1..], rest);
      assert (a + rest)[1..] == a[1..] + rest && (a + rest)[0] == a[0];
    }
  }

  lemma PartsOf(h: string, n: string, rest: string)
    requires ':' !in h && ':' !in n && (rest == "" || rest[0] == ':')
    ensures ParseStart(h + (":" + (n + rest))) ==
            if PyInt(h).Some? && PyInt(n).Some? then Some((PyInt(h).value, PyInt(n).value)) else None
  {
    var tail := ":" + (n + rest);
    UntilColonOf(h, tail);
    UntilColonOf(n, rest);
    assert (h + tail)[|h| + 1..] == n + rest;
  }

  /** What the calendar makes of a start: hour and minute are what `int` reads before and after the first colon,
      whatever follows a second one, and the cell ends after the rule's duration on the same day. */
  lemma StartGivesCell(fecha: int, rule: Rule, h: string, n: string, rest: string)
    requires ':' !in h && ':' !in n && (rest == "" || rest[0] == ':')
    ensures CellSlot(fecha, rule, h + (":" + (n + rest))) ==
            match (PyInt(h), PyInt(n))
            case (Some(a), Some(b)) =>
              var end := a * 60 + b + rule.minDuration;
              if 0 <= a < 24 && 0 <= b < 60 && 0 <= end < 1440
              then Some(Slot(fecha, (a * 60 + b) * 60_000_000, end * 60_000_000)) else None
            case _ => None
  {
    PartsOf(h, n, rest);
  }

  // ----- Soft holds -----

  /** A hold succeeds exactly when its slots are different and each is free of reservation and quote; then it
      blocks these rows for the quote and touches no other. */
  lemma HoldSucceedsIff(t: Table, keys: seq<Key>, quote: Id)
    ensures HoldOk(t, keys) <==>
            (forall i | 0 <= i < |keys| :: At(t, keys[i]) == Row(Available, None, None)) &&
            (forall i, j | 0 <= i < j < |keys| :: keys[i] != keys[j])
    ensures forall x :: At(HoldTable(t, keys, quote), x) ==
              if x in keys then Row(SoftHold, At(t, x).reservation, Some(quote)) else At(t, x)
  {
  }

  /** Dropping a hold frees the rows of the quote and touches no other. */
  lemma DropWrites(t: Table, quote: Id)
    ensures forall x :: At(DropHoldTable(t, quote), x) ==
              if At(t, x).quote == Some(quote) then Row(Available, At(t, x).reservation, None) else At(t, x)
  {
  }
}
