/** The slot table of `inventory/services.py`: one row per (space, date, start, end), over a forest of
    spaces. This module holds the data model, the meaning of each table update as a function of the table
    before it, and what every update keeps. */
module Inventory {
  import opened Common

  const MICROS_PER_MINUTE := 60_000_000

  /** A wall-clock time of day, in microseconds since midnight. */
  type Time = t: int | 0 <= t < 1440 * MICROS_PER_MINUTE witness 0

  datatype SlotStatus =
    Available | BlockedByParent | BlockedByChild | TtlBlocked | Reserved | SoftHold | Maintenance

  /** Dates are proleptic Gregorian ordinals (see module Gregorian). */
  datatype Slot = Slot(fecha: int, ini: Time, fin: Time)

  datatype Key = Key(space: Id, slot: Slot)

  datatype Row = Row(estado: SlotStatus, reservation: Option<Id>, quote: Option<Id>)

  type Table = map<Key, Row>

  /** A space's booking rule: minimum duration in minutes and allowed "HH:MM" start times. */
  datatype Rule = Rule(minDuration: int, starts: seq<string>)

  /** What stays fixed during a run. `parent` maps each child space to its parent. `fallback` is the rule of
      a space that has none of its own; the backend's is DefaultRule(). `autoflush` is the session setting:
      when false, a query does not see the writes the same step has not flushed yet. */
  datatype Config = Config(
    parent: map<Id, Id>, rules: map<Id, Rule>, fallback: Rule, ttlMinutes: map<Id, int>, autoflush: bool)

  /** The row a get-or-create would return. */
  function At(t: Table, k: Key): Row {
    if k in t then t[k] else Row(Available, None, None)
  }

  /** The statuses a claim refuses to find on the parent or on a child. */
  predicate HardBlock(e: SlotStatus) {
    e == TtlBlocked || e == Reserved || e == SoftHold || e == Maintenance
  }

  /** The statuses of a sibling that keep a parent blocked when a child is released. */
  predicate Occupying(e: SlotStatus) {
    e == TtlBlocked || e == Reserved || e == SoftHold
  }

  /** The statuses a slot has while a reservation holds it. */
  predicate Held(e: SlotStatus) {
    e == TtlBlocked || e == Reserved
  }

  // ----- Hierarchy -----

  /** x is the parent's row for k's slot. */
  predicate IsParent(c: Config, k: Key, x: Key) {
    k.space in c.parent && x == Key(c.parent[k.space], k.slot)
  }

  /** x is a child's row for k's slot. */
  predicate IsChild(c: Config, k: Key, x: Key) {
    x.slot == k.slot && x.space in c.parent && c.parent[x.space] == k.space
  }

  predicate IsRoot(c: Config, k: Key) {
    k.space !in c.parent
  }

  function Children(c: Config, space: Id): set<Id> {
    set s | s in c.parent && c.parent[s] == space
  }

  function ChildKeys(c: Config, k: Key): set<Key> {
    set s | s in c.parent && c.parent[s] == k.space :: Key(s, k.slot)
  }

  /** The n-th ancestor of a space, if there is one. */
  ghost function Ancestor(c: Config, space: Id, n: nat): Option<Id>
    decreases n
  {
    if n == 0 then Some(space)
    else if space !in c.parent then None
    else Ancestor(c, c.parent[space], n - 1)
  }

  /** No space is its own ancestor: the cycle check of module Relationships keeps this. */
  ghost predicate Acyclic(c: Config) {
    forall s: Id, n: nat :: n > 0 ==> Ancestor(c, s, n) != Some(s)
  }

  // ----- Booking rules -----

  function Digit(d: nat): char
    requires d < 10
  {
    "0123456789"[d]
  }

  function TwoDigits(n: nat): (s: string)
    requires n < 100
    ensures |s| == 2
  {
    [Digit(n / 10), Digit(n % 10)]
  }

  /** `strftime("%H:%M")` of a number of minutes since midnight. */
  function FormatMinutes(m: int): string
    requires 0 <= m < 1440
  {
    TwoDigits(m / 60) + ":" + TwoDigits(m % 60)
  }

  function MinutesOf(t: Time): (m: int)
    ensures 0 <= m < 1440
  {
    t / MICROS_PER_MINUTE
  }

  /** A full hour, spelled as a start time. */
  function HourStart(h: nat): string
    requires h < 24
  {
    FormatMinutes(h * 60)
  }

  /** Starts on the hour from 09:00 to 20:00, for an hour or more. */
  function DefaultRule(): Rule {
    Rule(60, seq(12, i requires 0 <= i < 12 => HourStart(9 + i)))
  }

  function RuleOf(c: Config, space: Id): Rule {
    if space in c.rules then c.rules[space] else c.fallback
  }

  /** The start is allowed and the duration, in whole minutes, is long enough. */
  predicate Granular(c: Config, k: Key) {
    && FormatMinutes(MinutesOf(k.slot.ini)) in RuleOf(c, k.space).starts
    && MinutesOf(k.slot.fin) - MinutesOf(k.slot.ini) >= RuleOf(c, k.space).minDuration
  }

  /** The two slots are of one date and their times intersect. */
  predicate SlotsOverlap(a: Slot, b: Slot) {
    a.fecha == b.fecha && a.ini < b.fin && b.ini < a.fin
  }

  predicate Overlaps(a: Key, b: Key) {
    a.space == b.space && SlotsOverlap(a.slot, b.slot)
  }

  // ----- Claim -----

  /** Another row of this space, overlapping in time, is not available. */
  predicate OverlapBlocked(t: Table, k: Key) {
    exists x :: x in t && x != k && Overlaps(x, k) && t[x].estado != Available
  }

  /** The slot row itself is free. */
  predicate RowFree(t: Table, k: Key) {
    At(t, k).estado == Available && At(t, k).reservation == None
  }

  ghost predicate ParentFree(c: Config, t: Table, k: Key) {
    forall x | IsParent(c, k, x) :: !HardBlock(At(t, x).estado) && At(t, x).estado != BlockedByParent
  }

  ghost predicate ChildrenFree(c: Config, t: Table, k: Key) {
    forall x | IsChild(c, k, x) :: !HardBlock(At(t, x).estado) && At(t, x).estado != BlockedByChild
  }

  /** The claim of k succeeds. */
  ghost predicate ClaimOk(c: Config, t: Table, k: Key) {
    Granular(c, k) && RowFree(t, k) && !OverlapBlocked(t, k) && ParentFree(c, t, k) && ChildrenFree(c, t, k)
  }

  function Touched(c: Config, k: Key): set<Key> {
    {k} + ChildKeys(c, k) + (if k.space in c.parent then {Key(c.parent[k.space], k.slot)} else {})
  }

  function ClaimRow(c: Config, t: Table, k: Key, rid: Id, x: Key): Row {
    var row := At(t, x);
    if x == k then row.(estado := TtlBlocked, reservation := Some(rid))
    else if IsParent(c, k, x) && row.estado == Available then row.(estado := BlockedByChild, reservation := None)
    else if IsRoot(c, k) && IsChild(c, k, x) then row.(estado := BlockedByParent, reservation := None)
    else row
  }

  /** The table after a successful claim: the slot is blocked for rid; a free parent becomes
      BLOCKED_BY_CHILD; only a space without a parent marks its children. */
  function ClaimTable(c: Config, t: Table, k: Key, rid: Id): Table {
    map x | x in t.Keys + Touched(c, k) :: ClaimRow(c, t, k, rid, x)
  }

  // ----- Release -----

  /** Some row of k's parent's children (k's own included) occupies the slot, in the rows the query sees. */
  predicate SiblingOccupies(c: Config, seen: Table, k: Key) {
    exists x :: x in seen && x.slot == k.slot && Occupying(seen[x].estado) &&
      (x == k || (k.space in c.parent && IsChild(c, Key(c.parent[k.space], k.slot), x)))
  }

  /** Drop a shadow block if it is one. */
  function Unshadow(row: Row, shadow: SlotStatus): Row {
    if row.estado == shadow && row.reservation == None then row.(estado := Available) else row
  }

  ghost function ReleaseTable(c: Config, seen: Table, t: Table, k: Key): Table {
    if k.space in c.parent then
      var p := Key(c.parent[k.space], k.slot);
      if SiblingOccupies(c, seen, k) then t else t[p := Unshadow(At(t, p), BlockedByChild)]
    else
      map x | x in t.Keys + ChildKeys(c, k) ::
        if IsChild(c, k, x) then Unshadow(At(t, x), BlockedByParent) else At(t, x)
  }

  /** Cancelling, rejecting or expiring a reservation frees its row and then releases the shadow blocks.
      Without autoflush the sibling query still sees the row as it was stored. */
  ghost function FreeTable(c: Config, t: Table, k: Key): Table
    requires k in t
  {
    var freed := t[k := t[k].(estado := Available, reservation := None)];
    ReleaseTable(c, if c.autoflush then freed else t, freed, k)
  }

  // ----- Soft holds -----

  predicate Holdable(row: Row) {
    row.estado == Available && row.reservation == None && row.quote == None
  }

  predicate HoldOk(t: Table, keys: seq<Key>) {
    && (forall i :: 0 <= i < |keys| ==> Holdable(At(t, keys[i])))
    && (forall i, j :: 0 <= i < j < |keys| ==> keys[i] != keys[j])
  }

  function HoldTable(t: Table, keys: seq<Key>, quote: Id): Table {
    map x | x in t.Keys + (set k | k in keys) ::
      if x in keys then At(t, x).(estado := SoftHold, quote := Some(quote)) else At(t, x)
  }

  function DropHoldTable(t: Table, quote: Id): Table {
    map x | x in t :: if t[x].quote == Some(quote) then t[x].(estado := Available, quote := None) else t[x]
  }

  // ----- What every update keeps -----

  /** A row carries a reservation exactly when its status says so, and the same for a quote; so no row ever
      carries both. */
  ghost predicate Shaped(t: Table) {
    forall k | k in t ::
      (Held(t[k].estado) <==> t[k].reservation.Some?) && (t[k].estado == SoftHold <==> t[k].quote.Some?)
  }

  /** The parent of a held slot is BLOCKED_BY_CHILD; the children of a held root are BLOCKED_BY_PARENT. */
  ghost predicate Marked(c: Config, t: Table) {
    forall k, x | Held(At(t, k).estado) ::
      && (IsParent(c, k, x) ==> At(t, x).estado == BlockedByChild)
      && (IsRoot(c, k) && IsChild(c, k, x) ==> At(t, x).estado == BlockedByParent)
  }

  /** No two held rows of one space overlap. */
  ghost predicate HeldApart(t: Table) {
    forall k, x | Held(At(t, k).estado) && Held(At(t, x).estado) && k != x :: !Overlaps(k, x)
  }

  /** k is of a child of x's space, and x's space is a root. */
  predicate UnderRoot(c: Config, k: Key, x: Key) {
    k.space in c.parent && c.parent[k.space] == x.space && IsRoot(c, x)
  }

  /** A held slot of a root and a held slot of its child never overlap, even with different start or end. */
  ghost predicate RootsApart(c: Config, t: Table) {
    forall k, x | UnderRoot(c, k, x) && Held(At(t, k).estado) && Held(At(t, x).estado) :: !SlotsOverlap(k.slot, x.slot)
  }

  /** Only a child is ever BLOCKED_BY_PARENT, only a parent BLOCKED_BY_CHILD, and only bookable slots are held. */
  ghost predicate Placed(c: Config, t: Table) {
    forall k ::
      && (At(t, k).estado == BlockedByParent ==> k.space in c.parent)
      && (At(t, k).estado == BlockedByChild ==> exists x :: IsChild(c, k, x))
      && (Held(At(t, k).estado) ==> Granular(c, k))
  }

  ghost predicate Sound(c: Config, t: Table) {
    Shaped(t) && Marked(c, t) && HeldApart(t) && RootsApart(c, t) && Placed(c, t)
  }
}
