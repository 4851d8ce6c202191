/** The service functions of `inventory/services.py` that read and write the slot table in place, each proved
    against the table functions of module Inventory. */
module InventoryService {
  import opened Common
  import opened Inventory
  import opened InventoryInvariants
  import opened Availability
  import opened SlotOutcomes
  import opened Gregorian

  datatype SlotError = NotAvailable

  /** One database session on the inventory table: `rows` is what the session's objects hold, `stored` what
      has been flushed. Between service calls nothing is pending. */
  class InventorySession {
    const cfg: Config
    var rows: Table
    var stored: Table

    constructor (cfg: Config, table: Table)
      ensures this.cfg == cfg && rows == table && Flushed()
    {
      this.cfg := cfg;
      rows := table;
      stored := table;
    }

    predicate Flushed()
      reads this
    {
      stored == rows
    }

    method Flush()
      modifies this
      ensures rows == old(rows) && Flushed()
    {
      stored := rows;
    }

    /** Undo a transaction that raised. */
    method Rollback(before: Table)
      modifies this
      ensures rows == before && Flushed()
    {
      rows := before;
      stored := before;
    }

    /** _get_or_create_slot: the row for k, added as AVAILABLE (and flushed) when missing. */
    method GetOrCreate(k: Key) returns (row: Row)
      modifies this
      ensures row == At(old(rows), k) && rows == old(rows)[k := row]
      ensures k in old(rows) ==> stored == old(stored)
    {
      if k in rows {
        row := rows[k];
        assert rows == rows[k := row];
        return;
      }
      row := Row(Available, None, None);
      rows := rows[k := row];
      Flush();
    }

    /** Child selected: the parent must be free or already blocked by a child. */
    method CheckParent(k: Key) returns (free: bool)
      modifies this
      ensures free <==> ParentFree(cfg, old(rows), k)
      ensures rows.Keys == old(rows).Keys + (if k.space in cfg.parent then {Key(cfg.parent[k.space], k.slot)} else {})
      ensures forall x :: At(rows, x) == At(old(rows), x)
    {
      free := true;
      if k.space in cfg.parent {
        var p := Key(cfg.parent[k.space], k.slot);
        var parent := GetOrCreate(p);
        assert IsParent(cfg, k, p);
        free := !HardBlock(parent.estado) && parent.estado != BlockedByParent;
      }
    }

    /** Parent selected: all children must be free. The first one that is not ends the check. */
    method CheckChildren(k: Key) returns (free: bool)
      modifies this
      ensures free <==> ChildrenFree(cfg, old(rows), k)
      ensures free ==> rows.Keys == old(rows).Keys + ChildKeys(cfg, k)
      ensures forall x :: At(rows, x) == At(old(rows), x)
    {
      ghost var t := rows;
      var children := Children(cfg, k.space);
      var todo := children;
      while todo != {}
        invariant todo <= children
        invariant rows.Keys == t.Keys + KeysAt(children - todo, k.slot)
        invariant forall x :: At(rows, x) == At(t, x)
        invariant forall x | IsChild(cfg, k, x) && x.space !in todo ::
                    !HardBlock(At(t, x).estado) && At(t, x).estado != BlockedByChild
        decreases todo
      {
        var s :| s in todo;
        var child := GetOrCreate(Key(s, k.slot));
        if HardBlock(child.estado) || child.estado == BlockedByChild {
          assert IsChild(cfg, k, Key(s, k.slot));
          return false;
        }
        todo := todo - {s};
      }
      assert KeysAt(children, k.slot) == ChildKeys(cfg, k);
      free := true;
    }

    /** claim_slot_for_reservation. On an error only AVAILABLE rows may have been added; the caller rolls back. */
    method Claim(k: Key, rid: Id) returns (r: Result<(), SlotError>)
      modifies this
      ensures r.Ok? <==> ClaimOk(cfg, old(rows), k)
      ensures r.Ok? <==> Claimable(cfg, old(rows), k)
      ensures r.Ok? ==> rows == ClaimTable(cfg, old(rows), k, rid) && Flushed()
      ensures r.Ok? ==> Claimed(cfg, old(rows), rows, k, rid)
      ensures r.Err? ==> forall x :: At(rows, x) == At(old(rows), x)
    {
      ghost var t := rows;
      ClaimSucceedsIff(cfg, t, k);
      ClaimWrites(cfg, t, k, rid);
      if !Granular(cfg, k) {
        return Err(NotAvailable);
      }
      var row := GetOrCreate(k);
      if row.estado != Available || row.reservation != None {
        return Err(NotAvailable);
      }
      SameOverlaps(t, rows, k);
      if OverlapBlocked(rows, k) {
        return Err(NotAvailable);
      }
      SameNeighbours(cfg, t, rows, k);
      var parentFree := CheckParent(k);
      if !parentFree {
        return Err(NotAvailable);
      }
      SameNeighbours(cfg, t, rows, k);
      var childrenFree := CheckChildren(k);
      if !childrenFree {
        return Err(NotAvailable);
      }
      Mark(k, rid, t);
      r := Ok(());
    }

    /** The writes of a claim whose checks have passed and whose neighbouring rows all exist. */
    method Mark(k: Key, rid: Id, ghost t: Table)
      requires ClaimOk(cfg, t, k) && rows.Keys == t.Keys + Touched(cfg, k)
      requires forall x :: At(rows, x) == At(t, x)
      modifies this
      ensures rows == ClaimTable(cfg, t, k, rid) && Flushed()
    {
      rows := rows[k := rows[k].(estado := TtlBlocked, reservation := Some(rid))];
      if k.space in cfg.parent {
        MarkParent(k);
      } else {
        MarkChildren(k);
      }
      forall x
        ensures At(rows, x) == ClaimRow(cfg, t, k, rid, x) == At(ClaimTable(cfg, t, k, rid), x)
      {
        AtClaim(cfg, t, k, rid, x);
      }
      SameTable(rows, ClaimTable(cfg, t, k, rid));
      Flush();
    }

    /** Child reservation blocks its parent, unless a sibling already does. */
    method MarkParent(k: Key)
      requires k.space in cfg.parent && Key(cfg.parent[k.space], k.slot) in rows
      modifies this
      ensures rows.Keys == old(rows).Keys
      ensures forall x :: At(rows, x) ==
                if IsParent(cfg, k, x) && At(old(rows), x).estado == Available
                then At(old(rows), x).(estado := BlockedByChild, reservation := None) else At(old(rows), x)
    {
      var p := Key(cfg.parent[k.space], k.slot);
      var parent := GetOrCreate(p);
      if parent.estado == Available {
        rows := rows[p := parent.(estado := BlockedByChild, reservation := None)];
      }
    }

    /** Parent reservation blocks all children. */
    method MarkChildren(k: Key)
      requires ChildKeys(cfg, k) <= rows.Keys
      modifies this
      ensures rows.Keys == old(rows).Keys
      ensures forall x :: At(rows, x) ==
                if IsChild(cfg, k, x) then At(old(rows), x).(estado := BlockedByParent, reservation := None)
                else At(old(rows), x)
    {
      ghost var t := rows;
      var todo := Children(cfg, k.space);
      while todo != {}
        invariant todo <= Children(cfg, k.space)
        invariant rows.Keys == t.Keys
        invariant forall x :: At(rows, x) ==
                    if IsChild(cfg, k, x) && x.space !in todo
                    then At(t, x).(estado := BlockedByParent, reservation := None) else At(t, x)
        decreases todo
      {
        var s :| s in todo;
        var x := Key(s, k.slot);
        assert IsChild(cfg, k, x) && x in ChildKeys(cfg, k);
        rows := rows[x := rows[x].(estado := BlockedByParent, reservation := None)];
        todo := todo - {s};
      }
    }

    /** Parent released: children's shadow blocks are unlocked. */
    method ReleaseChildren(k: Key)
      modifies this
      ensures rows.Keys == old(rows).Keys + ChildKeys(cfg, k)
      ensures forall x :: At(rows, x) ==
                if IsChild(cfg, k, x) then Unshadow(At(old(rows), x), BlockedByParent) else At(old(rows), x)
    {
      ghost var t := rows;
      var children := Children(cfg, k.space);
      var todo := children;
      while todo != {}
        invariant todo <= children
        invariant rows.Keys == t.Keys + KeysAt(children - todo, k.slot)
        invariant forall x :: At(rows, x) ==
                    if IsChild(cfg, k, x) && x.space !in todo then Unshadow(At(t, x), BlockedByParent) else At(t, x)
        decreases todo
      {
        var s :| s in todo;
        var x := Key(s, k.slot);
        assert IsChild(cfg, k, x);
        var child := GetOrCreate(x);
        if child.estado == BlockedByParent && child.reservation == None {
          rows := rows[x := child.(estado := Available)];
        }
        todo := todo - {s};
      }
      assert KeysAt(children, k.slot) == ChildKeys(cfg, k);
    }

    /** release_relationship_blocks_for_reservation_slot. */
    method ReleaseBlocks(k: Key)
      modifies this
      ensures rows == ReleaseTable(cfg, if cfg.autoflush then old(rows) else old(stored), old(rows), k)
      ensures Flushed()
    {
      ghost var t := rows;
      if k.space in cfg.parent {
        var seen := if cfg.autoflush then rows else stored;
        if !SiblingOccupies(cfg, seen, k) {
          var p := Key(cfg.parent[k.space], k.slot);
          var parent := GetOrCreate(p);
          if parent.estado == BlockedByChild && parent.reservation == None {
            rows := rows[p := parent.(estado := Available)];
          }
        }
      } else {
        ReleaseChildren(k);
        SameTable(rows, ReleaseTable(cfg, t, t, k));
      }
      Flush();
    }

    /** Free a reservation's row and release its shadow blocks, as reject, expire and cancel do. */
    method Free(k: Key)
      requires k in rows && Flushed()
      modifies this
      ensures rows == FreeTable(cfg, old(rows), k) && Flushed()
    {
      rows := rows[k := rows[k].(estado := Available, reservation := None)];
      ReleaseBlocks(k);
    }

    /** apply_soft_hold_for_quote, with the caller's rollback when a slot cannot be held. */
    method PlaceHold(quote: Id, keys: seq<Key>) returns (r: Result<(), SlotError>)
      requires Flushed()
      modifies this
      ensures r.Ok? <==> HoldOk(old(rows), keys)
      ensures rows == (if r.Ok? then HoldTable(old(rows), keys, quote) else old(rows)) && Flushed()
    {
      var before := rows;
      for i := 0 to |keys|
        invariant rows.Keys == before.Keys + (set j | 0 <= j < i :: keys[j])
        invariant forall x :: At(rows, x) == At(before, x)
      {
        var row := GetOrCreate(keys[i]);
      }
      assert rows.Keys == before.Keys + (set k | k in keys);
      for i := 0 to |keys|
        invariant HoldsPlaced(before, rows, keys, i, quote)
      {
        var row := rows[keys[i]];
        HeldOnlyOnce(before, rows, keys, i, quote);
        if !Holdable(row) {
          Rollback(before);
          return Err(NotAvailable);
        }
        rows := rows[keys[i] := row.(estado := SoftHold, quote := Some(quote))];
      }
      HoldsAllPlaced(before, rows, keys, quote);
      Flush();
      r := Ok(());
    }

    /** release_soft_hold_for_quote: one UPDATE over the quote's rows. Afterwards no row carries the quote; the
        rows that did are AVAILABLE, and every other row is as it was. */
    method DropHold(quote: Id)
      modifies this
      ensures rows.Keys == old(rows).Keys && Flushed()
      ensures forall k | k in rows :: rows[k].quote != Some(quote)
      ensures forall k | k in rows && old(rows)[k].quote == Some(quote) ::
                rows[k].estado == Available && rows[k].reservation == old(rows)[k].reservation && rows[k].quote == None
      ensures forall k | k in rows && old(rows)[k].quote != Some(quote) :: rows[k] == old(rows)[k]
    {
      rows := map x | x in rows ::
        if rows[x].quote == Some(quote) then rows[x].(estado := Available, quote := None) else rows[x];
      Flush();
    }

    /** check_group_availability: every item is checked, and the refused ones are listed in order. */
    method CheckGroup(keys: seq<Key>) returns (allAvailable: bool, conflicts: seq<(Id, PublicStatus)>)
      ensures allAvailable <==> conflicts == []
      ensures conflicts == Refused(keys, Answers(cfg, rows, keys))
    {
      conflicts := [];
      allAvailable := true;
      ghost var answers := Answers(cfg, rows, keys);
      for i := 0 to |keys|
        invariant allAvailable <==> conflicts == []
        invariant conflicts == Refused(keys[..i], answers[..i])
      {
        var result := Check(cfg, rows, keys[i]);
        assert keys[..i + 1][..i] == keys[..i] && answers[..i + 1][..i] == answers[..i];
        if !result.available {
          allAvailable := false;
          conflicts := conflicts + [(keys[i].space, result.estado)];
        }
      }
      assert keys[..|keys|] == keys && answers[..|keys|] == answers;
    }

    /** The index of get_month_availability: the month's rows of a space by slot. */
    method IndexRows(space: Id, from: int, until: int) returns (index: map<Slot, Row>)
      ensures forall s :: s in index <==> Key(space, s) in rows && from <= s.fecha <= until
      ensures forall s | s in index :: index[s] == rows[Key(space, s)]
    {
      index := map[];
      var todo := rows.Keys;
      while todo != {}
        invariant todo <= rows.Keys
        invariant forall s :: s in index <==> Key(space, s) in rows.Keys - todo && from <= s.fecha <= until
        invariant forall s | s in index :: index[s] == rows[Key(space, s)]
        decreases todo
      {
        var k :| k in todo;
        if k.space == space && from <= k.slot.fecha <= until {
          index := index[k.slot := rows[k]];
        }
        todo := todo - {k};
      }
    }

    /** One generated cell, with its row looked up in the index. */
    method MakeCell(
      space: Id, fecha: int, start: string, index: map<Slot, Row>, superadmin: bool
    ) returns (r: Option<Cell>)
      requires forall s: Slot | s.fecha == fecha ::
                 (s in index <==> Key(space, s) in rows) && (s in index ==> index[s] == rows[Key(space, s)])
      ensures r == CellFor(cfg, rows, space, fecha, start, superadmin)
    {
      var slot := CellSlot(fecha, RuleOf(cfg, space), start);
      match slot
      case None => r := None;
      case Some(slot) =>
        var row := if slot in index then Some(index[slot]) else None;
        r := Some(Cell(slot, CellStatus(cfg, rows, Key(space, slot), row, superadmin)));
    }

    /** The cells of one day, one per allowed start. */
    method DayCells(space: Id, fecha: int, index: map<Slot, Row>, superadmin: bool) returns (r: Option<seq<Cell>>)
      requires forall s: Slot | s.fecha == fecha ::
                 (s in index <==> Key(space, s) in rows) && (s in index ==> index[s] == rows[Key(space, s)])
      ensures r == DayOf(cfg, rows, space, fecha, RuleOf(cfg, space).starts, superadmin)
    {
      var starts := RuleOf(cfg, space).starts;
      ghost var f := CellsOf(cfg, rows, space, fecha, superadmin);
      var cells := [];
      for i := 0 to |starts|
        invariant Collect(f, starts[..i]) == Some(cells)
      {
        var cell := MakeCell(space, fecha, starts[i], index, superadmin);
        assert cell == f(starts[i]);
        if cell == None {
          CollectsAllIff(f, starts);
          return None;
        }
        CollectStep(f, starts, i);
        cells := cells + [cell.value];
      }
      assert starts[..|starts|] == starts;
      r := Some(cells);
    }

    /** Every day from the first to the last bound, each with its cells. */
    method DaysBetween(space: Id, from: int, until: int, superadmin: bool) returns (r: Option<map<int, seq<Cell>>>)
      requires from <= until
      ensures r.Some? <==> StartsFit(RuleOf(cfg, space), RuleOf(cfg, space).starts)
      ensures r.Some? ==> forall f :: f in r.value <==> from <= f <= until
      ensures r.Some? ==> forall f | f in r.value ::
                Some(r.value[f]) == DayOf(cfg, rows, space, f, RuleOf(cfg, space).starts, superadmin)
    {
      var index := IndexRows(space, from, until);
      var days: map<int, seq<Cell>> := map[];
      var current := from;
      while current <= until
        invariant from <= current <= until + 1
        invariant forall f :: f in days <==> from <= f < current
        invariant current > from ==> StartsFit(RuleOf(cfg, space), RuleOf(cfg, space).starts)
        invariant forall f | f in days ::
                    Some(days[f]) == DayOf(cfg, rows, space, f, RuleOf(cfg, space).starts, superadmin)
      {
        var cells := DayCells(space, current, index, superadmin);
        DayFitsIff(cfg, rows, space, current, RuleOf(cfg, space).starts, superadmin);
        if cells == None {
          return None;
        }
        days := days[current := cells.value];
        current := current + 1;
      }
      r := Some(days);
    }

    /** get_month_availability. It raises on an impossible month, on a start time that is no time or whose
        cell reaches midnight, and past the last representable day. Otherwise every day of the month appears
        exactly once, with the cells of that day. */
    method MonthAvailability(space: Id, year: int, month: int, superadmin: bool)
      returns (r: Option<map<int, seq<Cell>>>)
      ensures r.Some? <==>
                1 <= month <= 12 && 1 <= year <= 9999 && (year < 9999 || month < 12) &&
                StartsFit(RuleOf(cfg, space), RuleOf(cfg, space).starts)
      ensures r.Some? ==> r.value.Keys == MonthDays(year, month)
      ensures r.Some? ==> forall f | f in r.value ::
                Some(r.value[f]) == DayOf(cfg, rows, space, f, RuleOf(cfg, space).starts, superadmin)
    {
      if !RealMonth(year, month) {
        return None;
      }
      var from := Ordinal(Civil(year, month, 1));
      var until := Ordinal(Civil(year, month, DaysInMonth(year, month)));
      MonthIsRange(year, month);
      r := DaysBetween(space, from, until, superadmin);
      if r.Some? {
        forall f
          ensures f in r.value.Keys <==> f in MonthDays(year, month)
        {
        }
      }
    }
  }

  function KeysAt(spaces: set<Id>, slot: Slot): set<Key> {
    set s | s in spaces :: Key(s, slot)
  }

  /** What the single check answers for each item. */
  function Answers(c: Config, t: Table, keys: seq<Key>): (r: seq<Answer>)
    ensures |r| == |keys| && forall i {:trigger r[i]} | 0 <= i < |keys| :: r[i] == Check(c, t, keys[i])
  {
    seq(|keys|, i requires 0 <= i < |keys| => Check(c, t, keys[i]))
  }

  /** The refused items, in order, each with its public status. */
  function Refused(keys: seq<Key>, answers: seq<Answer>): seq<(Id, PublicStatus)>
    requires |keys| == |answers|
  {
    if keys == [] then []
    else
      var n := |keys| - 1;
      var earlier := Refused(keys[..n], answers[..n]);
      if answers[n].available then earlier else earlier + [(keys[n].space, answers[n].estado)]
  }

  /** A refused item is reported after those refused before it, with its own space and status. */
  lemma {:induction false} RefusedInOrder(keys: seq<Key>, answers: seq<Answer>, i: nat)
    requires |keys| == |answers| && i < |keys| && !answers[i].available
    ensures
      var earlier := |Refused(keys[..i], answers[..i])|;
      earlier < |Refused(keys, answers)| && Refused(keys, answers)[earlier] == (keys[i].space, answers[i].estado)
    decreases |keys|
  {
    var n := |keys| - 1;
    if i < n {
      assert keys[..n][..i] == keys[..i] && answers[..n][..i] == answers[..i];
      RefusedInOrder(keys[..n], answers[..n], i);
    }
  }

  /** Nothing else is reported. */
  lemma {:induction false} RefusedOnce(keys: seq<Key>, answers: seq<Answer>)
    requires |keys| == |answers|
    ensures |Refused(keys, answers)| == |set i | 0 <= i < |answers| && !answers[i].available|
    decreases |keys|
  {
    if keys != [] {
      var n := |keys| - 1;
      RefusedOnce(keys[..n], answers[..n]);
      var earlier := set i | 0 <= i < n && !answers[..n][i].available;
      assert (set i | 0 <= i < |answers| && !answers[i].available) ==
             earlier + (if answers[n].available then {} else {n});
    }
  }

  /** The group check reports no conflict exactly when every item is available. */
  lemma {:induction false} NoneRefusedIff(keys: seq<Key>, answers: seq<Answer>)
    requires |keys| == |answers|
    ensures Refused(keys, answers) == [] <==> forall i | 0 <= i < |answers| :: answers[i].available
  {
    if keys != [] {
      var n := |keys| - 1;
      NoneRefusedIff(keys[..n], answers[..n]);
      assert forall i | 0 <= i < n :: answers[..n][i] == answers[i];
    }
  }

  /** Every allowed start is a time and its cell ends before midnight. */
  predicate StartsFit(rule: Rule, starts: seq<string>) {
    forall i | 0 <= i < |starts| :: CellSlot(0, rule, starts[i]).Some?
  }

  /** The cell the calendar generates for one start of one day; None where it raises. */
  function CellFor(c: Config, t: Table, space: Id, fecha: int, start: string, superadmin: bool): Option<Cell> {
    match CellSlot(fecha, RuleOf(c, space), start)
    case None => None
    case Some(slot) => Some(Cell(slot, CellStatus(c, t, Key(space, slot), RowIn(t, Key(space, slot)), superadmin)))
  }

  function CellsOf(c: Config, t: Table, space: Id, fecha: int, superadmin: bool): string -> Option<Cell> {
    start => CellFor(c, t, space, fecha, start, superadmin)
  }

  /** The cells of a day for a list of starts; None if one of them raises. */
  function DayOf(c: Config, t: Table, space: Id, fecha: int, starts: seq<string>, superadmin: bool): Option<seq<Cell>> {
    Collect(CellsOf(c, t, space, fecha, superadmin), starts)
  }

  /** Every value of f, in order; None if one of them is None. */
  function Collect<S, T>(f: S -> Option<T>, s: seq<S>): Option<seq<T>>
    decreases |s|
  {
    if s == [] then Some([])
    else
      match (Collect(f, s[..|s| - 1]), f(s[|s| - 1]))
      case (Some(values), Some(value)) => Some(values + [value])
      case _ => None
  }

  lemma CollectStep<S, T>(f: S -> Option<T>, s: seq<S>, i: nat)
    requires i < |s|
    ensures Collect(f, s[..i + 1]) ==
            match (Collect(f, s[..i]), f(s[i]))
            case (Some(values), Some(value)) => Some(values + [value])
            case _ => None
  {
    assert s[..i + 1][..i] == s[..i];
  }

  /** All is collected exactly when f gives a value everywhere, and then each value is in its place. */
  lemma {:induction false} CollectsAllIff<S, T>(f: S -> Option<T>, s: seq<S>)
    ensures Collect(f, s).Some? <==> forall i | 0 <= i < |s| :: f(s[i]).Some?
    ensures Collect(f, s).Some? ==> |Collect(f, s).value| == |s|
    ensures Collect(f, s).Some? ==> forall i | 0 <= i < |s| :: f(s[i]) == Some(Collect(f, s).value[i])
    decreases |s|
  {
    if s != [] {
      var n := |s| - 1;
      CollectsAllIff(f, s[..n]);
      assert forall i | 0 <= i < n :: s[..n][i] == s[i];
    }
  }

  lemma CellFitsIff(c: Config, t: Table, space: Id, fecha: int, start: string, superadmin: bool)
    ensures CellFor(c, t, space, fecha, start, superadmin).Some? <==> CellSlot(0, RuleOf(c, space), start).Some?
  {
  }

  lemma DayFitsIff(c: Config, t: Table, space: Id, fecha: int, starts: seq<string>, superadmin: bool)
    ensures DayOf(c, t, space, fecha, starts, superadmin).Some? <==> StartsFit(RuleOf(c, space), starts)
  {
    var f := CellsOf(c, t, space, fecha, superadmin);
    CollectsAllIff(f, starts);
    forall i | 0 <= i < |starts|
      ensures f(starts[i]).Some? <==> CellSlot(0, RuleOf(c, space), starts[i]).Some?
    {
      CellFitsIff(c, t, space, fecha, starts[i], superadmin);
    }
  }

  /** In the calendar of a month, a cell with a canonically spelled start reads AVAILABLE exactly when the
      direct check accepts its slot; a cell spelled otherwise is accepted exactly when it reads AVAILABLE and
      the canonical spelling is allowed too. */
  lemma CalendarCellsAgreeWithCheck(c: Config, t: Table, space: Id, fecha: int, superadmin: bool, i: nat)
    requires DayOf(c, t, space, fecha, RuleOf(c, space).starts, superadmin).Some? && i < |RuleOf(c, space).starts|
    ensures
      var start := RuleOf(c, space).starts[i];
      var cells := DayOf(c, t, space, fecha, RuleOf(c, space).starts, superadmin).value;
      && |cells| == |RuleOf(c, space).starts|
      && (Check(c, t, Key(space, cells[i].slot)).available <==>
            cells[i].status == PublicAvailable && Canonical(start) in RuleOf(c, space).starts)
  {
    var starts := RuleOf(c, space).starts;
    var cells := DayOf(c, t, space, fecha, starts, superadmin).value;
    CollectsAllIff(CellsOf(c, t, space, fecha, superadmin), starts);
    assert CellFor(c, t, space, fecha, starts[i], superadmin) == Some(cells[i]);
    CalendarAgreesWithCheckIff(c, t, space, fecha, starts[i], superadmin);
  }

  /** A space without a rule of its own: its calendar never raises, and every cell reads AVAILABLE exactly when
      the direct check accepts its slot. */
  lemma DefaultCalendarAgrees(c: Config, t: Table, space: Id, fecha: int, superadmin: bool)
    requires space !in c.rules && c.fallback == DefaultRule()
    ensures StartsFit(c.fallback, c.fallback.starts)
    ensures
      var day := DayOf(c, t, space, fecha, c.fallback.starts, superadmin);
      day.Some? && forall i | 0 <= i < |day.value| ::
        Check(c, t, Key(space, day.value[i].slot)).available <==> day.value[i].status == PublicAvailable
  {
    var starts := c.fallback.starts;
    forall i | 0 <= i < |starts|
      ensures CellSlot(0, c.fallback, starts[i]).Some?
    {
      DefaultStartFits(0, c.fallback, i);
    }
    DayFitsIff(c, t, space, fecha, starts, superadmin);
    var cells := DayOf(c, t, space, fecha, starts, superadmin).value;
    CollectsAllIff(CellsOf(c, t, space, fecha, superadmin), starts);
    forall i | 0 <= i < |cells|
      ensures Check(c, t, Key(space, cells[i].slot)).available <==> cells[i].status == PublicAvailable
    {
      DefaultStartFits(fecha, c.fallback, i);
      CalendarCellsAgreeWithCheck(c, t, space, fecha, superadmin, i);
    }
  }

  /** A month whose days Python can represent and step past. */
  predicate RealMonth(year: int, month: int) {
    1 <= month <= 12 && 1 <= year <= 9999 && !(year == 9999 && month == 12)
  }

  function MonthDays(year: int, month: int): set<int>
    requires 1 <= month <= 12
  {
    set d | 1 <= d <= DaysInMonth(year, month) :: Ordinal(Civil(year, month, d))
  }

  lemma MonthIsRange(year: int, month: int)
    requires 1 <= month <= 12
    ensures
      var from, until := Ordinal(Civil(year, month, 1)), Ordinal(Civil(year, month, DaysInMonth(year, month)));
      from <= until && forall f :: f in MonthDays(year, month) <==> from <= f <= until
  {
    var from, until := Ordinal(Civil(year, month, 1)), Ordinal(Civil(year, month, DaysInMonth(year, month)));
    forall f | from <= f <= until
      ensures f in MonthDays(year, month)
    {
      assert f == Ordinal(Civil(year, month, f - from + 1));
    }
  }

  lemma SameTable(a: Table, b: Table)
    requires a.Keys == b.Keys && forall x :: At(a, x) == At(b, x)
    ensures a == b
  {
    forall x | x in a
      ensures a[x] == b[x]
    {
      assert At(a, x) == At(b, x);
    }
  }

  lemma SameNeighbours(c: Config, a: Table, b: Table, k: Key)
    requires forall x :: At(a, x) == At(b, x)
    ensures ParentFree(c, a, k) <==> ParentFree(c, b, k)
    ensures ChildrenFree(c, a, k) <==> ChildrenFree(c, b, k)
  {
  }

  lemma SameOverlaps(a: Table, b: Table, k: Key)
    requires a.Keys <= b.Keys && forall x :: At(a, x) == At(b, x)
    ensures OverlapBlocked(a, k) <==> OverlapBlocked(b, k)
  {
    if OverlapBlocked(a, k) {
      var x :| x in a && x != k && Overlaps(x, k) && a[x].estado != Available;
      assert At(b, x).estado != Available;
    }
    if OverlapBlocked(b, k) {
      var x :| x in b && x != k && Overlaps(x, k) && b[x].estado != Available;
      assert At(a, x).estado != Available;
    }
  }

  /** The first i slots are held for the quote, in a table that has rows for all of them. */
  ghost predicate HoldsPlaced(before: Table, rows: Table, keys: seq<Key>, i: nat, quote: Id)
    requires i <= |keys|
  {
    && rows.Keys == before.Keys + (set k | k in keys)
    && HoldOk(before, keys[..i])
    && forall x :: At(rows, x) ==
         if x in keys[..i] then At(before, x).(estado := SoftHold, quote := Some(quote)) else At(before, x)
  }

  /** The next slot can be held exactly when it could be before and is not listed twice. */
  lemma HeldOnlyOnce(before: Table, rows: Table, keys: seq<Key>, i: nat, quote: Id)
    requires i < |keys| && HoldsPlaced(before, rows, keys, i, quote)
    ensures keys[i] in rows
    ensures !Holdable(rows[keys[i]]) ==> !HoldOk(before, keys)
    ensures
      var held := rows[keys[i] := rows[keys[i]].(estado := SoftHold, quote := Some(quote))];
      Holdable(rows[keys[i]]) ==> HoldsPlaced(before, held, keys, i + 1, quote)
  {
    assert keys[..i + 1] == keys[..i] + [keys[i]];
    assert rows[keys[i]] == At(rows, keys[i]);
    if keys[i] in keys[..i] {
      var j :| 0 <= j < i && keys[..i][j] == keys[i];
      assert keys[j] == keys[i];
    }
  }

  lemma HoldsAllPlaced(before: Table, rows: Table, keys: seq<Key>, quote: Id)
    requires HoldsPlaced(before, rows, keys, |keys|, quote)
    ensures HoldOk(before, keys) && rows == HoldTable(before, keys, quote)
  {
    assert keys[..|keys|] == keys;
    SameTable(rows, HoldTable(before, keys, quote));
  }
}
