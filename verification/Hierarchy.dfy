/** What a sound table means up and down the hierarchy: which pairs of spaces can never be held together,
    when the shadow blocks are exact, and when a release undoes a claim. */
module Hierarchy {
  import opened Common
  import opened Inventory
  import opened InventoryInvariants

  // ----- Exclusion -----

  /** y is the n-th ancestor of k's space and the shadow blocks separate the two: they are parent and child,
      or y is a root and k one of its grandchildren. */
  ghost predicate Guarded(c: Config, k: Key, n: nat, y: Id) {
    n == 1 || (n == 2 && y !in c.parent)
  }

  /** No space and none of its ancestors are both held for the same slot. */
  ghost predicate Exclusive(c: Config, t: Table) {
    forall k: Key, n: nat, y: Id | n > 0 && Ancestor(c, k.space, n) == Some(y) ::
      !(Held(At(t, k).estado) && Held(At(t, Key(y, k.slot)).estado))
  }

  lemma GuardedPairsExclude(c: Config, t: Table, k: Key, n: nat, y: Id)
    requires Marked(c, t)
    requires n > 0 && Ancestor(c, k.space, n) == Some(y) && Guarded(c, k, n, y)
    ensures !(Held(At(t, k).estado) && Held(At(t, Key(y, k.slot)).estado))
  {
    var p := Key(c.parent[k.space], k.slot);
    var top := Key(y, k.slot);
    assert IsParent(c, k, p);
    if n == 1 {
      assert Ancestor(c, p.space, 0) == Some(p.space);
      assert top == p;
    } else {
      assert Ancestor(c, k.space, 2) == Ancestor(c, p.space, 1);
      assert Ancestor(c, p.space, 1) == Ancestor(c, c.parent[p.space], 0);
      assert IsRoot(c, top) && IsChild(c, top, p);
    }
  }

  /** At most three levels: nobody has a great-grandparent. */
  ghost predicate ThreeLevels(c: Config) {
    forall s: Id :: Ancestor(c, s, 3) == None
  }

  lemma {:induction false} NoFurtherAncestor(c: Config, s: Id, m: nat, n: nat)
    requires m <= n && Ancestor(c, s, m) == None
    ensures Ancestor(c, s, n) == None
    decreases n
  {
    if s in c.parent && m > 0 {
      NoFurtherAncestor(c, c.parent[s], m - 1, n - 1);
    }
  }

  lemma {:induction false} AncestorStep(c: Config, s: Id, n: nat)
    ensures Ancestor(c, s, n + 1) ==
            (match Ancestor(c, s, n) case None => None
             case Some(y) => if y in c.parent then Some(c.parent[y]) else None)
    decreases n
  {
    if n == 0 {
      if s in c.parent {
        assert Ancestor(c, s, 1) == Ancestor(c, c.parent[s], 0);
      }
    } else if s in c.parent {
      AncestorStep(c, c.parent[s], n - 1);
    }
  }

  lemma ThreeLevelsAreGuarded(c: Config, k: Key, n: nat, y: Id)
    requires ThreeLevels(c)
    requires n > 0 && Ancestor(c, k.space, n) == Some(y)
    ensures Guarded(c, k, n, y)
  {
    if n >= 3 {
      NoFurtherAncestor(c, k.space, 3, n);
    } else if n == 2 {
      AncestorStep(c, k.space, 2);
    }
  }

  /** In a forest of at most three levels every sound table is exclusive. */
  lemma SoundIsExclusive(c: Config, t: Table)
    requires ThreeLevels(c) && Marked(c, t)
    ensures Exclusive(c, t)
  {
    forall k: Key, n: nat, y: Id | n > 0 && Ancestor(c, k.space, n) == Some(y)
      ensures !(Held(At(t, k).estado) && Held(At(t, Key(y, k.slot)).estado))
    {
      ThreeLevelsAreGuarded(c, k, n, y);
      GuardedPairsExclude(c, t, k, n, y);
    }
  }

  // ----- Exactness of the shadow blocks -----

  /** Every shadow block has its cause. */
  ghost predicate NoStaleShadows(c: Config, t: Table) {
    && (forall x | At(t, x).estado == BlockedByParent ::
          exists k :: IsParent(c, x, k) && IsRoot(c, k) && Held(At(t, k).estado))
    && (forall x | At(t, x).estado == BlockedByChild ::
          exists k :: IsChild(c, x, k) && Held(At(t, k).estado))
  }

  /** A row is BLOCKED_BY_PARENT exactly when its parent is a held root, and BLOCKED_BY_CHILD exactly when
      one of its children is held. */
  ghost predicate ExactShadows(c: Config, t: Table) {
    && (forall x :: At(t, x).estado == BlockedByParent <==>
          exists k :: IsParent(c, x, k) && IsRoot(c, k) && Held(At(t, k).estado))
    && (forall x :: At(t, x).estado == BlockedByChild <==>
          exists k :: IsChild(c, x, k) && Held(At(t, k).estado))
  }

  lemma ShadowsAreExact(c: Config, t: Table)
    requires Marked(c, t) && NoStaleShadows(c, t)
    ensures ExactShadows(c, t)
  {
    forall x, k | IsParent(c, x, k) && IsRoot(c, k) && Held(At(t, k).estado)
      ensures At(t, x).estado == BlockedByParent
    {
      assert IsChild(c, k, x);
    }
    forall x, k | IsChild(c, x, k) && Held(At(t, k).estado)
      ensures At(t, x).estado == BlockedByChild
    {
      assert IsParent(c, k, x);
    }
  }

  lemma ClaimLeavesNoStaleShadow(c: Config, t: Table, k: Key, rid: Id)
    requires NoStaleShadows(c, t) && ClaimOk(c, t, k)
    ensures NoStaleShadows(c, ClaimTable(c, t, k, rid))
  {
    var t' := ClaimTable(c, t, k, rid);
    forall x { AtClaim(c, t, k, rid, x); }
    forall x | At(t', x).estado == BlockedByParent
      ensures exists h :: IsParent(c, x, h) && IsRoot(c, h) && Held(At(t', h).estado)
    {
      if At(t, x).estado == BlockedByParent {
        var h :| IsParent(c, x, h) && IsRoot(c, h) && Held(At(t, h).estado);
        assert Held(At(t', h).estado);
      } else {
        assert IsParent(c, x, k) && Held(At(t', k).estado);
      }
    }
    forall x | At(t', x).estado == BlockedByChild
      ensures exists h :: IsChild(c, x, h) && Held(At(t', h).estado)
    {
      if At(t, x).estado == BlockedByChild {
        var h :| IsChild(c, x, h) && Held(At(t, h).estado);
        assert Held(At(t', h).estado);
      } else {
        assert IsChild(c, x, k) && Held(At(t', k).estado);
      }
    }
  }

  /** Another child of k's parent occupies the slot. */
  ghost predicate OtherChildOccupies(c: Config, t: Table, k: Key) {
    k.space in c.parent &&
    exists x :: x != k && IsChild(c, Key(c.parent[k.space], k.slot), x) && Occupying(At(t, x).estado)
  }

  lemma SeenSiblings(c: Config, t: Table, k: Key)
    requires k in t && Held(t[k].estado) && k.space in c.parent
    ensures
      var freed := t[k := t[k].(estado := Available, reservation := None)];
      SiblingOccupies(c, if c.autoflush then freed else t, k) <==> !c.autoflush || OtherChildOccupies(c, t, k)
  {
    var freed := t[k := t[k].(estado := Available, reservation := None)];
    var p := Key(c.parent[k.space], k.slot);
    if c.autoflush {
      if OtherChildOccupies(c, t, k) {
        var x :| x != k && IsChild(c, p, x) && Occupying(At(t, x).estado);
        assert x in freed && freed[x] == t[x];
      }
    } else {
      assert k in t && k.slot == k.slot && Occupying(t[k].estado);
    }
  }

  /** Without soft-held siblings, and with the release seeing its own write, freeing a slot leaves no
      shadow block behind. A slot without a parent needs neither. */
  lemma FreeLeavesNoStaleShadow(c: Config, t: Table, k: Key)
    requires k in t && Held(t[k].estado) && Shaped(t) && NoStaleShadows(c, t)
    requires k.space in c.parent ==> c.autoflush
    requires forall x :: At(t, x).estado != SoftHold
    ensures NoStaleShadows(c, FreeTable(c, t, k))
  {
    forall x | At(FreeTable(c, t, k), x).estado == BlockedByParent
      ensures exists h :: IsParent(c, x, h) && IsRoot(c, h) && Held(At(FreeTable(c, t, k), h).estado)
    {
      StillBlockedByParent(c, t, k, x);
    }
    forall x | At(FreeTable(c, t, k), x).estado == BlockedByChild
      ensures exists h :: IsChild(c, x, h) && Held(At(FreeTable(c, t, k), h).estado)
    {
      StillBlockedByChild(c, t, k, x);
    }
  }

  lemma StillBlockedByParent(c: Config, t: Table, k: Key, x: Key)
    requires k in t && Held(t[k].estado) && Shaped(t) && NoStaleShadows(c, t)
    requires At(FreeTable(c, t, k), x).estado == BlockedByParent
    ensures exists h :: IsParent(c, x, h) && IsRoot(c, h) && Held(At(FreeTable(c, t, k), h).estado)
  {
    AtFree(c, t, k, x);
    var h :| IsParent(c, x, h) && IsRoot(c, h) && Held(At(t, h).estado);
    AtFree(c, t, k, h);
    assert h == k ==> IsChild(c, k, x);
    assert Held(At(FreeTable(c, t, k), h).estado);
  }

  lemma StillBlockedByChild(c: Config, t: Table, k: Key, x: Key)
    requires k in t && Held(t[k].estado) && Shaped(t) && NoStaleShadows(c, t)
    requires k.space in c.parent ==> c.autoflush
    requires forall x :: At(t, x).estado != SoftHold
    requires At(FreeTable(c, t, k), x).estado == BlockedByChild
    ensures exists h :: IsChild(c, x, h) && Held(At(FreeTable(c, t, k), h).estado)
  {
    AtFree(c, t, k, x);
    var h :| IsChild(c, x, h) && Held(At(t, h).estado);
    if h == k {
      SeenSiblings(c, t, k);
      assert IsParent(c, k, x);
      h :| h != k && IsChild(c, x, h) && Occupying(At(t, h).estado);
    }
    AtFree(c, t, k, h);
    assert Held(At(FreeTable(c, t, k), h).estado);
  }

  // ----- When a release unlocks the parent -----

  /** Releasing a held child unlocks its parent if and only if the session flushes before the sibling query
      and no other child occupies the slot (a soft-held sibling counts). With the deployed setting,
      autoflush off, no release ever unlocks a parent. */
  lemma ReleaseUnlocksParentIff(c: Config, t: Table, k: Key, p: Key)
    requires Acyclic(c) && Sound(c, t) && k in t && Held(t[k].estado) && IsParent(c, k, p)
    ensures At(FreeTable(c, t, k), p).estado == Available <==> c.autoflush && !OtherChildOccupies(c, t, k)
  {
    AtFree(c, t, k, p);
    SeenSiblings(c, t, k);
    NotOwnParent(c, k);
    assert At(t, p).estado == BlockedByChild;
  }

  /** Claiming k and freeing it again gives every row back. */
  ghost predicate ClaimFreeIsIdentity(c: Config, t: Table, k: Key, rid: Id) {
    var t' := ClaimTable(c, t, k, rid);
    k in t' && forall x :: At(FreeTable(c, t', k), x) == At(t, x)
  }

  /** The state of the neighbours that decides whether a claim can be undone: a free parent needs the unlock
      to happen, a parent already blocked needs it not to, and a root must find no child blocked already. */
  ghost predicate Undoable(c: Config, t: Table, k: Key) {
    && (forall p | IsParent(c, k, p) :: At(t, p).estado == Available <==> (c.autoflush && !OtherChildOccupies(c, t, k)))
    && (IsRoot(c, k) ==> forall x | IsChild(c, k, x) :: At(t, x).estado != BlockedByParent)
  }

  lemma ClaimKeepsOtherChildren(c: Config, t: Table, k: Key, rid: Id)
    requires Acyclic(c) && k.space in c.parent
    ensures OtherChildOccupies(c, ClaimTable(c, t, k, rid), k) <==> OtherChildOccupies(c, t, k)
  {
    var t' := ClaimTable(c, t, k, rid);
    var p := Key(c.parent[k.space], k.slot);
    forall x | x != k && IsChild(c, p, x)
      ensures At(t', x) == At(t, x)
    {
      AtClaim(c, t, k, rid, x);
      NotOwnParent(c, x);
    }
  }

  lemma ClaimFreeOfChild(c: Config, t: Table, k: Key, rid: Id, p: Key)
    requires Acyclic(c) && Shaped(t) && ClaimOk(c, t, k) && IsParent(c, k, p)
    ensures k in ClaimTable(c, t, k, rid)
    ensures
      var t'' := FreeTable(c, ClaimTable(c, t, k, rid), k);
      && (At(t'', p) == At(t, p) <==> (At(t, p).estado == Available <==> c.autoflush && !OtherChildOccupies(c, t, k)))
      && forall x | x != p :: At(t'', x) == At(t, x)
  {
    var t' := ClaimTable(c, t, k, rid);
    NotOwnParent(c, k);
    AtClaim(c, t, k, rid, k);
    ClaimKeepsOtherChildren(c, t, k, rid);
    SeenSiblings(c, t', k);
    AtClaim(c, t, k, rid, p);
    AtFree(c, t', k, p);
    assert At(t, p).reservation == None;
    forall x | x != p
      ensures At(FreeTable(c, t', k), x) == At(t, x)
    {
      AtClaim(c, t, k, rid, x);
      AtFree(c, t', k, x);
    }
  }

  lemma ClaimFreeOfRoot(c: Config, t: Table, k: Key, rid: Id, x: Key)
    requires Acyclic(c) && Shaped(t) && ClaimOk(c, t, k) && IsRoot(c, k)
    ensures k in ClaimTable(c, t, k, rid)
    ensures
      At(FreeTable(c, ClaimTable(c, t, k, rid), k), x) == At(t, x) <==>
      (IsChild(c, k, x) ==> At(t, x).estado != BlockedByParent)
  {
    AtClaim(c, t, k, rid, k);
    AtClaim(c, t, k, rid, x);
    AtFree(c, ClaimTable(c, t, k, rid), k, x);
    assert x in t ==> (Held(t[x].estado) <==> t[x].reservation.Some?);
  }

  /** Claiming a slot and freeing it again gives every row back if and only if the neighbours allow it. */
  lemma ClaimFreeIsIdentityIff(c: Config, t: Table, k: Key, rid: Id)
    requires Acyclic(c) && Shaped(t) && ClaimOk(c, t, k)
    ensures ClaimFreeIsIdentity(c, t, k, rid) <==> Undoable(c, t, k)
  {
    if k.space in c.parent {
      ClaimFreeOfChild(c, t, k, rid, Key(c.parent[k.space], k.slot));
    } else {
      forall x { ClaimFreeOfRoot(c, t, k, rid, x); }
    }
  }

  /** Where the shadows are exact, the session flushes and nothing is soft-held, every claim can be undone. */
  lemma ExactShadowsUndo(c: Config, t: Table, k: Key, rid: Id)
    requires Acyclic(c) && Shaped(t) && ClaimOk(c, t, k) && ExactShadows(c, t)
    requires c.autoflush && forall x :: At(t, x).estado != SoftHold
    ensures ClaimFreeIsIdentity(c, t, k, rid)
  {
    forall p | IsParent(c, k, p)
      ensures At(t, p).estado == Available <==> !OtherChildOccupies(c, t, k)
    {
      if At(t, p).estado == BlockedByChild {
        var x :| IsChild(c, p, x) && Held(At(t, x).estado);
        assert x != k && Occupying(At(t, x).estado);
      }
      if OtherChildOccupies(c, t, k) {
        var x :| x != k && IsChild(c, p, x) && Occupying(At(t, x).estado);
        assert Held(At(t, x).estado);
      }
    }
    assert forall x, h | IsChild(c, k, x) && IsParent(c, x, h) :: h == k;
    ClaimFreeIsIdentityIff(c, t, k, rid);
  }
}
