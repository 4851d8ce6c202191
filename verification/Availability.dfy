/** The read views of `inventory/services.py`: the single check, the group check and the cells of the month
    calendar, and how they relate to each other and to the claim. */
module Availability {
  import opened Common
  import opened Inventory
  import opened InventoryInvariants
  import opened Booking
  import opened BookingInvariants
  import opened PythonInt

  datatype PublicStatus = PublicAvailable | TtlPending | Blocked | PublicMaintenance | InvalidGranularity

  /** _PUBLIC_STATUS_MAP. */
  function Public(e: SlotStatus): PublicStatus {
    match e
    case Available => PublicAvailable
    case SoftHold => TtlPending
    case TtlBlocked => TtlPending
    case Reserved => Blocked
    case BlockedByParent => Blocked
    case BlockedByChild => Blocked
    case Maintenance => Blocked
  }

  /** _derived_relationship_block: a block inferred from the parent or the children. */
  function Derived(c: Config, t: Table, k: Key): Option<SlotStatus> {
    if k.space in c.parent && HardBlock(At(t, Key(c.parent[k.space], k.slot)).estado) then Some(BlockedByParent)
    else if exists s :: s in Children(c, k.space) && HardBlock(At(t, Key(s, k.slot)).estado) then Some(BlockedByChild)
    else None
  }

  datatype Answer = Answer(available: bool, estado: PublicStatus)

  /** check_single_availability. */
  function Check(c: Config, t: Table, k: Key): Answer {
    if !Granular(c, k) then Answer(false, InvalidGranularity)
    else if At(t, k).estado == Available then
      match Derived(c, t, k)
      case None => Answer(true, PublicAvailable)
      case Some(e) => Answer(false, Public(e))
    else Answer(false, Public(At(t, k).estado))
  }

  // ----- Claim and check -----

  /** What the claim asks beyond the check: no overlapping row, no leftover shadow on the far side. */
  ghost predicate FarSideClear(c: Config, t: Table, k: Key) {
    && (forall x | IsParent(c, k, x) :: At(t, x).estado != BlockedByParent)
    && (forall x | IsChild(c, k, x) :: At(t, x).estado != BlockedByChild)
  }

  /** A claim succeeds exactly when the check says available, no row of the space overlaps, the parent is not
      itself blocked by its parent and no child is blocked by one of its own. */
  lemma ClaimIffCheck(c: Config, t: Table, k: Key)
    requires Shaped(t)
    ensures ClaimOk(c, t, k) <==> Check(c, t, k).available && !OverlapBlocked(t, k) && FarSideClear(c, t, k)
  {
    assert At(t, k).estado == Available ==> At(t, k).reservation == None;
    forall x
      ensures IsChild(c, k, x) ==> x.space in Children(c, k.space) && x == Key(x.space, k.slot)
    {
    }
    forall s | s in Children(c, k.space)
      ensures IsChild(c, k, Key(s, k.slot))
    {
    }
  }

  /** Right after a claim the check refuses the slot on the space itself, on its parent and on every child. */
  lemma ClaimedIsUnavailable(c: Config, t: Table, k: Key, rid: Id, x: Key)
    requires Acyclic(c) && ClaimOk(c, t, k)
    requires x == k || IsParent(c, k, x) || IsChild(c, k, x)
    ensures !Check(c, ClaimTable(c, t, k, rid), x).available
  {
    AtClaim(c, t, k, rid, k);
    if IsParent(c, k, x) {
      assert k.space in Children(c, x.space);
      assert k == Key(k.space, x.slot);
    } else if IsChild(c, k, x) {
      assert k == Key(c.parent[x.space], x.slot);
    }
  }

  ghost predicate TwoLevels(c: Config) {
    forall s | s in c.parent :: c.parent[s] !in c.parent
  }

  /** In a forest of two levels, in every reachable state, claim and check differ only by the overlap check. */
  lemma ClaimIffCheckInTwoLevels(c: Config, s0: State, run: seq<Action>, k: Key)
    requires Acyclic(c) && TwoLevels(c) && Init(s0)
    ensures
      var t := Exec(c, s0, run).rows;
      ClaimOk(c, t, k) <==> Check(c, t, k).available && !OverlapBlocked(t, k)
  {
    var t := Exec(c, s0, run).rows;
    assert Shaped(t) && Placed(c, t) by { RunKeepsInv(c, s0, run); }
    ClaimIffCheck(c, t, k);
  }

  /** A claim never makes another slot available. */
  lemma ClaimOnlyTakes(c: Config, t: Table, k: Key, rid: Id, x: Key)
    requires ClaimOk(c, t, k) && Check(c, ClaimTable(c, t, k, rid), x).available
    ensures Check(c, t, x).available
  {
    var t' := ClaimTable(c, t, k, rid);
    AtClaim(c, t, k, rid, x);
    if x.space in c.parent { AtClaim(c, t, k, rid, Key(c.parent[x.space], x.slot)); }
    forall s | s in Children(c, x.space)
      ensures HardBlock(At(t, Key(s, x.slot)).estado) ==> HardBlock(At(t', Key(s, x.slot)).estado)
    {
      AtClaim(c, t, k, rid, Key(s, x.slot));
    }
  }

  // ----- Group check -----

  ghost predicate AllAvailable(c: Config, t: Table, items: seq<Item>) {
    forall i | 0 <= i < |items| :: Check(c, t, items[i].key).available
  }

  /** Whatever is available after is available before. */
  ghost predicate OnlyTook(c: Config, before: Table, after: Table) {
    forall x :: Check(c, after, x).available ==> Check(c, before, x).available
  }

  lemma CreateOneRefinesCheck(c: Config, s: State, user: Id, group: Option<Id>, item: Item, now: int)
    requires Shaped(s.rows) && CreateOne(c, s, user, group, item, now).Some?
    ensures Check(c, s.rows, item.key).available
    ensures OnlyTook(c, s.rows, CreateOne(c, s, user, group, item, now).value.rows)
  {
    var t' := CreateOne(c, s, user, group, item, now).value.rows;
    ClaimIffCheck(c, s.rows, item.key);
    forall x | Check(c, t', x).available
      ensures Check(c, s.rows, x).available
    {
      ClaimOnlyTakes(c, s.rows, item.key, item.rid, x);
    }
  }

  lemma AppendAvailable(c: Config, before: Table, t: Table, items: seq<Item>)
    requires items != [] && AllAvailable(c, before, items[..|items| - 1]) && OnlyTook(c, before, t)
    requires Check(c, t, items[|items| - 1].key).available
    ensures AllAvailable(c, before, items)
  {
    assert Check(c, before, items[|items| - 1].key).available;
    forall i | 0 <= i < |items|
      ensures Check(c, before, items[i].key).available
    {
      if i < |items| - 1 { assert items[..|items| - 1][i] == items[i]; }
    }
  }

  /** Booking an event succeeds only if the group check, asked beforehand, accepts every item. */
  lemma {:induction false} EventRefinesGroupCheck(
    c: Config, s: State, user: Id, group: Option<Id>, items: seq<Item>, now: int
  )
    requires Acyclic(c) && Inv(c, s) && GroupIsOf(s, user, group)
    requires CreateAll(c, s, user, group, items, now).Some?
    ensures AllAvailable(c, s.rows, items)
    ensures OnlyTook(c, s.rows, CreateAll(c, s, user, group, items, now).value.rows)
    decreases |items|
  {
    if items != [] {
      var n := |items| - 1;
      var s' := CreateAll(c, s, user, group, items[..n], now).value;
      EventRefinesGroupCheck(c, s, user, group, items[..n], now);
      assert Shaped(s'.rows) by { CreateAllKeepsInv(c, s, user, group, items[..n], now); }
      CreateOneRefinesCheck(c, s', user, group, items[n], now);
      AppendAvailable(c, s.rows, s'.rows, items);
    }
  }

  // ----- Calendar cells -----

  /** The part of s before its first colon, and whether there is one. */
  function UntilColon(s: string): (r: string)
    ensures |r| <= |s| && s[..|r|] == r
    ensures |r| < |s| ==> s[|r|] == ':'
  {
    if s == [] || s[0] == ':' then [] else [s[0]] + UntilColon(s[1..])
  }

  /** The hour and minute of a start string, as `split(":")` and `int` read them; None where they raise. */
  function ParseStart(s: string): Option<(int, int)> {
    var h := UntilColon(s);
    if |h| == |s| then None
    else
      match (PyInt(h), PyInt(UntilColon(s[|h| + 1..])))
      case (Some(hour), Some(minute)) => Some((hour, minute))
      case _ => None
  }

  /** The hour and minute are a time of day. */
  predicate IsTime(h: int, m: int) {
    0 <= h < 24 && 0 <= m < 60
  }

  /** The times of the cell the calendar generates for a start string; None where `time(...)` raises. */
  function CellSlot(fecha: int, rule: Rule, start: string): Option<Slot> {
    match ParseStart(start)
    case None => None
    case Some((h, m)) =>
      if IsTime(h, m) && 0 <= h * 60 + m + rule.minDuration < 1440
      then Some(Slot(fecha, AtMinute(h * 60 + m), AtMinute(h * 60 + m + rule.minDuration)))
      else None
  }

  function AtMinute(n: int): (t: Time)
    requires 0 <= n < 1440
    ensures MinutesOf(t) == n
  {
    n * MICROS_PER_MINUTE
  }

  datatype Cell = Cell(slot: Slot, status: PublicStatus)

  /** The status of a generated cell, given the row the index has for it. */
  function CellStatus(c: Config, t: Table, k: Key, row: Option<Row>, superadmin: bool): PublicStatus {
    if row.Some? && row.value.estado == Maintenance && superadmin then PublicMaintenance
    else if row.Some? && row.value.estado != Available then Public(row.value.estado)
    else
      match Derived(c, t, k)
      case None => PublicAvailable
      case Some(e) => Public(e)
  }

  /** The minute of the day a start string names. */
  function StartMinute(start: string): Option<int> {
    match ParseStart(start)
    case None => None
    case Some((h, m)) => if IsTime(h, m) then Some(h * 60 + m) else None
  }

  /** The canonical spelling "HH:MM" of that minute. */
  function Canonical(start: string): string {
    match StartMinute(start)
    case None => start
    case Some(n) => if 0 <= n < 1440 then FormatMinutes(n) else start
  }

  function RowIn(t: Table, k: Key): Option<Row> {
    if k in t then Some(t[k]) else None
  }

  lemma CellTimes(fecha: int, rule: Rule, start: string)
    requires CellSlot(fecha, rule, start).Some?
    ensures
      var slot := CellSlot(fecha, rule, start).value;
      && StartMinute(start) == Some(MinutesOf(slot.ini))
      && MinutesOf(slot.fin) - MinutesOf(slot.ini) == rule.minDuration
  {
  }

  lemma CellIsGranularIff(c: Config, space: Id, fecha: int, start: string)
    requires CellSlot(fecha, RuleOf(c, space), start).Some?
    ensures Granular(c, Key(space, CellSlot(fecha, RuleOf(c, space), start).value)) <==>
            Canonical(start) in RuleOf(c, space).starts
  {
    var slot := CellSlot(fecha, RuleOf(c, space), start).value;
    CellTimes(fecha, RuleOf(c, space), start);
    assert Canonical(start) == FormatMinutes(MinutesOf(slot.ini));
  }

  lemma CellAgreesWithCheck(c: Config, t: Table, k: Key, superadmin: bool)
    ensures
      var status := CellStatus(c, t, k, RowIn(t, k), superadmin);
      && (Check(c, t, k).available <==> status == PublicAvailable && Granular(c, k))
      && (Granular(c, k) && !superadmin ==> Check(c, t, k).estado == status)
  {
  }

  /** A cell of the calendar reads AVAILABLE and has its start allowed in canonical spelling exactly when the
      direct check accepts that cell. A cell spelled canonically is in its own rule, so there the two views
      agree outright. */
  lemma CalendarAgreesWithCheckIff(c: Config, t: Table, space: Id, fecha: int, start: string, superadmin: bool)
    requires start in RuleOf(c, space).starts && CellSlot(fecha, RuleOf(c, space), start).Some?
    ensures
      var k := Key(space, CellSlot(fecha, RuleOf(c, space), start).value);
      var status := CellStatus(c, t, k, RowIn(t, k), superadmin);
      && (Check(c, t, k).available <==> status == PublicAvailable && Canonical(start) in RuleOf(c, space).starts)
      && (Canonical(start) == start && !superadmin ==> Check(c, t, k).estado == status)
  {
    CellIsGranularIff(c, space, fecha, start);
    CellAgreesWithCheck(c, t, Key(space, CellSlot(fecha, RuleOf(c, space), start).value), superadmin);
  }

  // ----- The default rule -----

  lemma DigitParses(d: nat)
    requires d < 10
    ensures IsDigit(Digit(d)) && (Digit(d) - '0') as nat == d
  {
  }

  lemma TwoDigitsParse(n: nat)
    requires n < 100
    ensures PyInt(TwoDigits(n)) == Some(n) && ':' !in TwoDigits(n)
  {
    DigitParses(n / 10);
    DigitParses(n % 10);
    ReadsTwoDigits(Digit(n / 10), Digit(n % 10));
  }

  lemma {:induction false} UntilFirstColon(a: string, b: string)
    requires ':' !in a
    ensures UntilColon(a + ":" + b) == a
    ensures UntilColon(a) == a
    decreases |a|
  {
    if a != [] {
      UntilFirstColon(a[1..], b);
      assert (a + ":" + b)[1..] == a[1..] + ":" + b;
    }
  }

  lemma ParsesParts(h: string, n: string)
    requires PyInt(h).Some? && PyInt(n).Some? && ':' !in h && ':' !in n
    ensures ParseStart(h + ":" + n) == Some((PyInt(h).value, PyInt(n).value))
  {
    UntilFirstColon(h, n);
    UntilFirstColon(n, "");
    assert (h + ":" + n)[|h| + 1..] == n;
  }

  /** What strftime writes is what the calendar reads back. */
  lemma FormattedParses(m: int)
    requires 0 <= m < 1440
    ensures ParseStart(FormatMinutes(m)) == Some((m / 60, m % 60))
  {
    TwoDigitsParse(m / 60);
    TwoDigitsParse(m % 60);
    ParsesParts(TwoDigits(m / 60), TwoDigits(m % 60));
  }

  lemma CellOfHour(fecha: int, rule: Rule, start: string, h: nat)
    requires h < 23 && rule.minDuration == 60 && ParseStart(start) == Some((h, 0))
    ensures StartMinute(start) == Some(h * 60) && CellSlot(fecha, rule, start).Some?
  {
  }

  lemma CanonicalHour(start: string, h: nat)
    requires h < 24 && StartMinute(start) == Some(h * 60)
    ensures Canonical(start) == HourStart(h)
  {
  }

  lemma HourParses(h: nat)
    requires h < 24
    ensures ParseStart(HourStart(h)) == Some((h, 0))
  {
    FormattedParses(h * 60);
    assert h * 60 / 60 == h && h * 60 % 60 == 0;
  }

  /** A full hour is spelled canonically, and its cell of an hour ends before midnight. */
  lemma HourFits(fecha: int, rule: Rule, start: string, h: nat)
    requires h < 23 && rule.minDuration == 60 && start == HourStart(h)
    ensures Canonical(start) == start && CellSlot(fecha, rule, start).Some?
  {
    HourParses(h);
    CellOfHour(fecha, rule, start, h);
    CanonicalHour(start, h);
  }

  /** So it is with every start of the default rule. */
  lemma DefaultStartFits(fecha: int, rule: Rule, i: nat)
    requires rule == DefaultRule() && i < |rule.starts|
    ensures Canonical(rule.starts[i]) == rule.starts[i] && CellSlot(fecha, rule, rule.starts[i]).Some?
  {
    HourFits(fecha, rule, rule.starts[i], 9 + i);
  }

  lemma SignedNine()
    ensures PyInt("+9") == Some(9)
  {
    DigitsOfOne('9');
    assert TrimRight(TrimLeft("+9")) == "+9" && "+9"[1..] == ['9'];
  }

  lemma TwoZeros()
    ensures PyInt("00") == Some(0)
  {
    ReadsTwoDigits('0', '0');
    assert "00" == ['0', '0'];
  }

  /** A start may be spelled otherwise than canonically: "+9:00" gives the cell of 09:00, which the direct check
      accepts only if "09:00" is allowed as well. */
  lemma SignedStart(fecha: int, rule: Rule)
    requires rule.minDuration == 60
    ensures CellSlot(fecha, rule, "+9:00") == Some(Slot(fecha, AtMinute(540), AtMinute(600)))
    ensures Canonical("+9:00") == HourStart(9)
  {
    SignedNine();
    TwoZeros();
    ParsesParts("+9", "00");
    assert "+9" + ":" + "00" == "+9:00";
    CanonicalHour("+9:00", 9);
  }
}
