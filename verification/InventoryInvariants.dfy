/** Every table update of module Inventory keeps the table sound, for any forest of spaces and with or
    without autoflush. */
module InventoryInvariants {
  import opened Common
  import opened Inventory

  // ----- Reading an updated table -----

  lemma AtClaim(c: Config, t: Table, k: Key, rid: Id, x: Key)
    ensures At(ClaimTable(c, t, k, rid), x) == ClaimRow(c, t, k, rid, x)
  {
    assert IsChild(c, k, x) ==> x == Key(x.space, k.slot);
  }

  /** The row x after k was freed. */
  ghost function FreeRow(c: Config, t: Table, k: Key, x: Key): Row
    requires k in t
  {
    var freed := t[k := t[k].(estado := Available, reservation := None)];
    if x == k then freed[k]
    else if IsParent(c, k, x) && !SiblingOccupies(c, if c.autoflush then freed else t, k) then
      Unshadow(At(t, x), BlockedByChild)
    else if IsRoot(c, k) && IsChild(c, k, x) then Unshadow(At(t, x), BlockedByParent)
    else At(t, x)
  }

  lemma AtFree(c: Config, t: Table, k: Key, x: Key)
    requires k in t
    ensures At(FreeTable(c, t, k), x) == FreeRow(c, t, k, x)
  {
    assert IsChild(c, k, x) ==> x == Key(x.space, k.slot);
  }

  /** Freeing a row leaves every other held row as it was. */
  lemma FreeKeepsOthers(c: Config, t: Table, k: Key, x: Key)
    requires k in t && x != k
    requires At(t, x).estado != BlockedByChild && At(t, x).estado != BlockedByParent
    ensures At(FreeTable(c, t, k), x) == At(t, x)
  {
    AtFree(c, t, k, x);
  }

  // ----- Claim -----

  lemma ClaimKeepsShaped(c: Config, t: Table, k: Key, rid: Id)
    requires Shaped(t) && ClaimOk(c, t, k)
    ensures Shaped(ClaimTable(c, t, k, rid))
  {
    var t' := ClaimTable(c, t, k, rid);
    forall x | x in t'
      ensures (Held(t'[x].estado) <==> t'[x].reservation.Some?) && (t'[x].estado == SoftHold <==> t'[x].quote.Some?)
    {
      AtClaim(c, t, k, rid, x);
      assert x in t ==> (Held(t[x].estado) <==> t[x].reservation.Some?);
    }
  }

  lemma NotOwnParent(c: Config, k: Key)
    requires Acyclic(c)
    ensures !IsParent(c, k, k)
  {
    assert Ancestor(c, k.space, 1) != Some(k.space);
  }

  lemma ClaimKeepsMarked(c: Config, t: Table, k: Key, rid: Id)
    requires Acyclic(c) && Marked(c, t) && ClaimOk(c, t, k)
    ensures Marked(c, ClaimTable(c, t, k, rid))
  {
    var t' := ClaimTable(c, t, k, rid);
    NotOwnParent(c, k);
    forall h, x | Held(At(t', h).estado)
      ensures IsParent(c, h, x) ==> At(t', x).estado == BlockedByChild
      ensures IsRoot(c, h) && IsChild(c, h, x) ==> At(t', x).estado == BlockedByParent
    {
      AtClaim(c, t, k, rid, h);
      AtClaim(c, t, k, rid, x);
      if h != k {
        assert Held(At(t, h).estado);
      }
    }
  }

  lemma ClaimKeepsApart(c: Config, t: Table, k: Key, rid: Id)
    requires HeldApart(t) && ClaimOk(c, t, k)
    ensures HeldApart(ClaimTable(c, t, k, rid))
  {
    var t' := ClaimTable(c, t, k, rid);
    forall h, x | Held(At(t', h).estado) && Held(At(t', x).estado) && h != x
      ensures !Overlaps(h, x)
    {
      AtClaim(c, t, k, rid, h);
      AtClaim(c, t, k, rid, x);
    }
  }

  /** The shadow row on the other side makes the overlap check refuse a claim at a different slot too. */
  lemma ClaimKeepsRootsApart(c: Config, t: Table, k: Key, rid: Id)
    requires Acyclic(c) && Marked(c, t) && RootsApart(c, t) && ClaimOk(c, t, k)
    ensures RootsApart(c, ClaimTable(c, t, k, rid))
  {
    var t' := ClaimTable(c, t, k, rid);
    NotOwnParent(c, k);
    forall a, b | UnderRoot(c, a, b) && Held(At(t', a).estado) && Held(At(t', b).estado)
      ensures !SlotsOverlap(a.slot, b.slot)
    {
      AtClaim(c, t, k, rid, a);
      AtClaim(c, t, k, rid, b);
      if b == k {
        var shadow := Key(k.space, a.slot);
        assert IsParent(c, a, shadow);
        assert a != k && At(t, shadow).estado == BlockedByChild;
      } else if a == k {
        var shadow := Key(k.space, b.slot);
        assert IsRoot(c, b) && IsChild(c, b, shadow);
        assert At(t, shadow).estado == BlockedByParent;
      }
    }
  }

  lemma ClaimKeepsPlaced(c: Config, t: Table, k: Key, rid: Id)
    requires Placed(c, t) && ClaimOk(c, t, k)
    ensures Placed(c, ClaimTable(c, t, k, rid))
  {
    var t' := ClaimTable(c, t, k, rid);
    forall x
      ensures At(t', x).estado == BlockedByParent ==> x.space in c.parent
      ensures At(t', x).estado == BlockedByChild ==> exists y :: IsChild(c, x, y)
      ensures Held(At(t', x).estado) ==> Granular(c, x)
    {
      AtClaim(c, t, k, rid, x);
      if IsParent(c, k, x) { assert IsChild(c, x, k); }
    }
  }

  lemma ClaimKeepsSound(c: Config, t: Table, k: Key, rid: Id)
    requires Acyclic(c) && Sound(c, t) && ClaimOk(c, t, k)
    ensures Sound(c, ClaimTable(c, t, k, rid))
  {
    ClaimKeepsShaped(c, t, k, rid);
    ClaimKeepsMarked(c, t, k, rid);
    ClaimKeepsApart(c, t, k, rid);
    ClaimKeepsRootsApart(c, t, k, rid);
    ClaimKeepsPlaced(c, t, k, rid);
  }

  // ----- Release -----

  lemma FreeKeepsMarked(c: Config, t: Table, k: Key)
    requires k in t && Held(t[k].estado) && Marked(c, t)
    ensures Marked(c, FreeTable(c, t, k))
  {
    var t' := FreeTable(c, t, k);
    var freed := t[k := t[k].(estado := Available, reservation := None)];
    forall h, x | Held(At(t', h).estado)
      ensures IsParent(c, h, x) ==> At(t', x).estado == BlockedByChild
      ensures IsRoot(c, h) && IsChild(c, h, x) ==> At(t', x).estado == BlockedByParent
    {
      AtFree(c, t, k, h);
      AtFree(c, t, k, x);
      assert h != k && Held(At(t, h).estado);
      if IsParent(c, h, x) {
        assert At(t, x).estado == BlockedByChild;
        if IsParent(c, k, x) {
          // h is a sibling that still occupies the slot, so the parent stays blocked
          assert h in freed && IsChild(c, Key(c.parent[k.space], k.slot), h);
          assert SiblingOccupies(c, if c.autoflush then freed else t, k);
        }
      }
    }
  }

  /** A freed table only ever turns statuses to AVAILABLE and keeps every quote. */
  lemma FreeOnlyOpens(c: Config, t: Table, k: Key, x: Key)
    requires k in t
    ensures At(FreeTable(c, t, k), x).estado == At(t, x).estado || At(FreeTable(c, t, k), x).estado == Available
    ensures At(FreeTable(c, t, k), x).quote == At(t, x).quote
  {
    AtFree(c, t, k, x);
  }

  lemma FreeKeepsShaped(c: Config, t: Table, k: Key)
    requires k in t && Held(t[k].estado) && Shaped(t)
    ensures Shaped(FreeTable(c, t, k))
  {
    var t' := FreeTable(c, t, k);
    forall x | x in t'
      ensures Held(t'[x].estado) <==> t'[x].reservation.Some?
      ensures t'[x].estado == SoftHold <==> t'[x].quote.Some?
    {
      AtFree(c, t, k, x);
      assert x in t ==> (Held(t[x].estado) <==> t[x].reservation.Some?);
    }
  }

  lemma FewerHoldsStayApart(c: Config, t: Table, t': Table)
    requires HeldApart(t) && RootsApart(c, t)
    requires forall x :: Held(At(t', x).estado) ==> Held(At(t, x).estado)
    ensures HeldApart(t') && RootsApart(c, t')
  {
    forall h, x | Held(At(t', h).estado) && Held(At(t', x).estado)
      ensures h != x ==> !Overlaps(h, x)
      ensures UnderRoot(c, h, x) ==> !SlotsOverlap(h.slot, x.slot)
    {
      assert Held(At(t, h).estado) && Held(At(t, x).estado);
    }
  }

  lemma FreeKeepsSound(c: Config, t: Table, k: Key)
    requires k in t && Held(t[k].estado) && Sound(c, t)
    ensures Sound(c, FreeTable(c, t, k))
  {
    FreeKeepsShaped(c, t, k);
    FreeKeepsMarked(c, t, k);
    forall x { FreeOnlyOpens(c, t, k, x); }
    FewerHoldsStayApart(c, t, FreeTable(c, t, k));
  }

  // ----- Confirm and soft holds -----

  /** Confirming a payment turns the reservation's row from TTL_BLOCKED to RESERVED. */
  function ConfirmTable(t: Table, k: Key): Table
    requires k in t
  {
    t[k := t[k].(estado := Reserved)]
  }

  lemma SameHoldsKeepSound(c: Config, t: Table, t': Table)
    requires Sound(c, t) && Shaped(t')
    requires forall x :: Held(At(t', x).estado) <==> Held(At(t, x).estado)
    requires forall x :: At(t', x).estado == BlockedByChild <==> At(t, x).estado == BlockedByChild
    requires forall x :: At(t', x).estado == BlockedByParent <==> At(t, x).estado == BlockedByParent
    ensures Sound(c, t')
  {
    FewerHoldsStayApart(c, t, t');
    assert Marked(c, t') by {
      forall h, x | Held(At(t', h).estado)
        ensures IsParent(c, h, x) ==> At(t', x).estado == BlockedByChild
        ensures IsRoot(c, h) && IsChild(c, h, x) ==> At(t', x).estado == BlockedByParent
      {
        assert Held(At(t, h).estado);
        assert IsParent(c, h, x) ==> At(t, x).estado == BlockedByChild;
      }
    }
  }

  lemma ConfirmKeepsSound(c: Config, t: Table, k: Key)
    requires k in t && Held(t[k].estado) && Sound(c, t)
    ensures Sound(c, ConfirmTable(t, k))
  {
    SameHoldsKeepSound(c, t, ConfirmTable(t, k));
  }

  lemma HoldKeepsSound(c: Config, t: Table, keys: seq<Key>, quote: Id)
    requires Sound(c, t) && HoldOk(t, keys)
    ensures Sound(c, HoldTable(t, keys, quote))
  {
    var t' := HoldTable(t, keys, quote);
    forall x
      ensures At(t', x) == if x in keys then At(t, x).(estado := SoftHold, quote := Some(quote)) else At(t, x)
      ensures x in keys ==> Holdable(At(t, x))
    {
    }
    SameHoldsKeepSound(c, t, t');
  }

  lemma DropHoldKeepsSound(c: Config, t: Table, quote: Id)
    requires Sound(c, t)
    ensures Sound(c, DropHoldTable(t, quote))
  {
    var t' := DropHoldTable(t, quote);
    forall x
      ensures At(t', x) ==
              if At(t, x).quote == Some(quote) then At(t, x).(estado := Available, quote := None) else At(t, x)
      ensures At(t, x).quote == Some(quote) ==> At(t, x).estado == SoftHold
    {
    }
    SameHoldsKeepSound(c, t, t');
  }
}
