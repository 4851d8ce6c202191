/** The space relationship table of `inventory/router.py` and the breadth-first cycle check of
    `inventory/services.py`: every run of create and delete steps keeps each tenant's graph acyclic. */
module Relationships {
  import opened Common
  import Inventory

  datatype Relationship = Relationship(tenant: Id, parent: Id, child: Id)

  type Edges = set<(Id, Id)>

  /** The parent-to-child edges of one tenant. */
  function EdgesOf(rels: map<Id, Relationship>, tenant: Id): Edges {
    set id | id in rels && rels[id].tenant == tenant :: (rels[id].parent, rels[id].child)
  }

  ghost predicate IsPath(e: Edges, p: seq<Id>) {
    p != [] && forall i | 0 <= i < |p| - 1 :: (p[i], p[i + 1]) in e
  }

  ghost predicate Connects(e: Edges, p: seq<Id>, a: Id, b: Id) {
    IsPath(e, p) && p[0] == a && p[|p| - 1] == b
  }

  /** b can be reached from a, in zero or more edges. */
  ghost predicate Reaches(e: Edges, a: Id, b: Id) {
    exists p :: Connects(e, p, a, b)
  }

  /** No path of at least one edge returns to its start. */
  ghost predicate AcyclicEdges(e: Edges) {
    forall p | IsPath(e, p) && |p| > 1 :: p[0] != p[|p| - 1]
  }

  // ----- Paths -----

  lemma ReachesSelf(e: Edges, a: Id)
    ensures Reaches(e, a, a)
  {
    assert Connects(e, [a], a, a);
  }

  lemma ReachesThrough(e: Edges, a: Id, b: Id, c: Id)
    requires Reaches(e, a, b) && Reaches(e, b, c)
    ensures Reaches(e, a, c)
  {
    var p :| Connects(e, p, a, b);
    var q :| Connects(e, q, b, c);
    assert Connects(e, p + q[1..], a, c);
  }

  lemma ReachesByEdge(e: Edges, a: Id, b: Id)
    requires (a, b) in e
    ensures Reaches(e, a, b)
  {
    assert Connects(e, [a, b], a, b);
  }

  lemma LongPathHasEdge(e: Edges, p: seq<Id>)
    ensures IsPath(e, p) && |p| > 1 ==> e != {}
  {
    if IsPath(e, p) && |p| > 1 { assert (p[0], p[1]) in e; }
  }

  lemma TailIsPath(e: Edges, p: seq<Id>)
    requires IsPath(e, p) && |p| > 1
    ensures IsPath(e, p[1..])
  {
    forall i | 0 <= i < |p| - 2
      ensures (p[1..][i], p[1..][i + 1]) in e
    {
      assert (p[i + 1], p[i + 1 + 1]) in e;
    }
  }

  lemma LongerPath(e: Edges, p: seq<Id>)
    requires |p| > 1 && (p[0], p[1]) in e && IsPath(e, p[1..])
    ensures IsPath(e, p)
  {
    forall i | 0 <= i < |p| - 1
      ensures (p[i], p[i + 1]) in e
    {
      if i > 0 { assert (p[1..][i - 1], p[1..][i - 1 + 1]) in e; }
    }
  }

  /** A set closed under the edges contains everything reachable from its members. */
  lemma {:induction false} ClosedContainsPath(e: Edges, closed: set<Id>, p: seq<Id>)
    requires IsPath(e, p) && p[0] in closed
    requires forall a, b | a in closed && (a, b) in e :: b in closed
    ensures p[|p| - 1] in closed
    decreases |p|
  {
    if |p| > 1 {
      assert (p[0], p[1]) in e;
      TailIsPath(e, p);
      ClosedContainsPath(e, closed, p[1..]);
    }
  }

  /** A path in the graph with one more edge avoids that edge, or leads to it and on from it. */
  lemma {:induction false} PathWithNewEdge(e: Edges, parent: Id, child: Id, p: seq<Id>)
    requires IsPath(e + {(parent, child)}, p)
    ensures IsPath(e, p) || (Reaches(e, p[0], parent) && Reaches(e, child, p[|p| - 1]))
    decreases |p|
  {
    if |p| > 1 {
      var rest := p[1..];
      assert (p[0], p[1]) in e + {(parent, child)};
      TailIsPath(e + {(parent, child)}, p);
      PathWithNewEdge(e, parent, child, rest);
      if (p[0], p[1]) in e {
        ReachesByEdge(e, p[0], p[1]);
        if Reaches(e, p[1], parent) { ReachesThrough(e, p[0], p[1], parent); }
        if IsPath(e, rest) { LongerPath(e, p); }
      } else {
        ReachesSelf(e, parent);
        if IsPath(e, rest) { assert Connects(e, rest, child, p[|p| - 1]); }
      }
    }
  }

  /** Adding an edge to an acyclic graph keeps it acyclic if and only if the check finds no cycle: the two
      ends differ and the parent cannot be reached from the child. */
  lemma AddedEdgeKeepsAcyclicIff(e: Edges, parent: Id, child: Id)
    requires AcyclicEdges(e)
    ensures AcyclicEdges(e + {(parent, child)}) <==> parent != child && !Reaches(e, child, parent)
  {
    var e' := e + {(parent, child)};
    if parent == child {
      assert IsPath(e', [parent, child]);
    } else if Reaches(e, child, parent) {
      var p :| Connects(e, p, child, parent);
      assert IsPath(e', [parent] + p) && ([parent] + p)[0] == ([parent] + p)[|p|];
    } else {
      forall p | IsPath(e', p) && |p| > 1
        ensures p[0] != p[|p| - 1]
      {
        PathWithNewEdge(e, parent, child, p);
        if p[0] == p[|p| - 1] && Reaches(e, p[0], parent) && Reaches(e, child, p[|p| - 1]) {
          ReachesThrough(e, child, p[0], parent);
        }
      }
    }
  }

  lemma FewerEdgesAcyclic(e: Edges, e': Edges)
    requires AcyclicEdges(e) && e' <= e
    ensures AcyclicEdges(e')
  {
    forall p | IsPath(e', p) && |p| > 1
      ensures p[0] != p[|p| - 1]
    {
      assert IsPath(e, p);
    }
  }

  // ----- Steps and runs -----

  datatype Step = Create(id: Id, rel: Relationship) | Delete(id: Id)

  /** The unique constraint on (parent, child), over all tenants. */
  predicate PairTaken(rels: map<Id, Relationship>, parent: Id, child: Id) {
    exists id :: id in rels && rels[id].parent == parent && rels[id].child == child
  }

  ghost predicate WouldCycle(rels: map<Id, Relationship>, rel: Relationship) {
    rel.parent == rel.child || Reaches(EdgesOf(rels, rel.tenant), rel.child, rel.parent)
  }

  /** One request. A refused or rolled back request leaves the table as it was. */
  ghost function After(rels: map<Id, Relationship>, s: Step): map<Id, Relationship> {
    match s
    case Create(id, rel) =>
      if WouldCycle(rels, rel) || id in rels || PairTaken(rels, rel.parent, rel.child) then rels else rels[id := rel]
    case Delete(id) => rels - {id}
  }

  /** Some chain of the tenant's relationships leads down from a to b, in zero or more steps. */
  ghost predicate LeadsDown(rels: map<Id, Relationship>, tenant: Id, a: Id, b: Id) {
    exists p: seq<Id> :: p != [] && p[0] == a && p[|p| - 1] == b &&
      forall i | 0 <= i < |p| - 1 :: Relationship(tenant, p[i], p[i + 1]) in rels.Values
  }

  lemma LeadsDownIff(rels: map<Id, Relationship>, tenant: Id, a: Id, b: Id)
    ensures Reaches(EdgesOf(rels, tenant), a, b) <==> LeadsDown(rels, tenant, a, b)
  {
    var e := EdgesOf(rels, tenant);
    forall x: Id, y: Id
      ensures (x, y) in e <==> Relationship(tenant, x, y) in rels.Values
    {
      if Relationship(tenant, x, y) in rels.Values {
        var id :| id in rels && rels[id] == Relationship(tenant, x, y);
      }
    }
    if Reaches(e, a, b) {
      var p :| Connects(e, p, a, b);
      assert p != [] && p[0] == a && p[|p| - 1] == b;
    }
    if LeadsDown(rels, tenant, a, b) {
      var p: seq<Id> :| p != [] && p[0] == a && p[|p| - 1] == b &&
        forall i | 0 <= i < |p| - 1 :: Relationship(tenant, p[i], p[i + 1]) in rels.Values;
      assert Connects(e, p, a, b);
    }
  }

  /** A relationship is refused exactly when its id exists, its two spaces are the same, the child already leads
      down to the parent, or the pair exists in any tenant; otherwise it is there beside all the others. */
  ghost predicate CreateOutcome(rels: map<Id, Relationship>, rels': map<Id, Relationship>, id: Id, rel: Relationship) {
    if id in rels || rel.parent == rel.child || LeadsDown(rels, rel.tenant, rel.child, rel.parent) ||
       exists x :: x in rels && rels[x].parent == rel.parent && rels[x].child == rel.child
    then rels' == rels
    else
      rels'.Keys == rels.Keys + {id} && rels'[id] == rel && forall x | x in rels :: rels'[x] == rels[x]
  }

  ghost predicate DeleteOutcome(rels: map<Id, Relationship>, rels': map<Id, Relationship>, id: Id) {
    id !in rels' && (forall x | x in rels' :: x in rels && rels'[x] == rels[x]) &&
    forall x | x in rels && x != id :: x in rels'
  }

  lemma StepOutcome(rels: map<Id, Relationship>, s: Step)
    ensures match s
            case Create(id, rel) => CreateOutcome(rels, After(rels, s), id, rel)
            case Delete(id) => DeleteOutcome(rels, After(rels, s), id)
  {
    match s
    case Create(id, rel) => LeadsDownIff(rels, rel.tenant, rel.child, rel.parent);
    case Delete(id) =>
  }

  ghost function AfterAll(rels: map<Id, Relationship>, run: seq<Step>): map<Id, Relationship>
    decreases |run|
  {
    if run == [] then rels else After(AfterAll(rels, run[..|run| - 1]), run[|run| - 1])
  }

  ghost predicate TenantsAcyclic(rels: map<Id, Relationship>) {
    forall tenant: Id :: AcyclicEdges(EdgesOf(rels, tenant))
  }

  lemma StepKeepsAcyclic(rels: map<Id, Relationship>, s: Step)
    requires TenantsAcyclic(rels)
    ensures TenantsAcyclic(After(rels, s))
  {
    var rels' := After(rels, s);
    forall tenant: Id
      ensures AcyclicEdges(EdgesOf(rels', tenant))
    {
      var e := EdgesOf(rels, tenant);
      if s.Create? && rels' != rels && s.rel.tenant == tenant {
        AddedEdgeKeepsAcyclicIff(e, s.rel.parent, s.rel.child);
        EdgesGrow(rels, s.id, s.rel, tenant);
      } else {
        FewerEdgesAcyclic(e, EdgesOf(rels', tenant));
      }
    }
  }

  /** In every run of create and delete requests, by any tenants, every tenant's graph stays acyclic. */
  lemma {:induction false} EveryRunIsAcyclic(run: seq<Step>)
    ensures TenantsAcyclic(AfterAll(map[], run))
    decreases |run|
  {
    if run == [] {
      forall tenant: Id, p
        ensures IsPath(EdgesOf(map[], tenant), p) ==> |p| <= 1
      {
        LongPathHasEdge(EdgesOf(map[], tenant), p);
      }
    } else {
      EveryRunIsAcyclic(run[..|run| - 1]);
      StepKeepsAcyclic(AfterAll(map[], run[..|run| - 1]), run[|run| - 1]);
    }
  }

  /** A parent map read off an acyclic table is an acyclic hierarchy in the sense of the inventory. */
  lemma AcyclicTableGivesForest(e: Edges, c: Inventory.Config)
    requires AcyclicEdges(e) && forall s | s in c.parent :: (c.parent[s], s) in e
    ensures Inventory.Acyclic(c)
  {
    forall s: Id, n: nat | n > 0
      ensures Inventory.Ancestor(c, s, n) != Some(s)
    {
      if Inventory.Ancestor(c, s, n).Some? {
        var p := PathFromAncestor(e, c, s, n);
      }
    }
  }

  lemma {:induction false} PathFromAncestor(e: Edges, c: Inventory.Config, s: Id, n: nat) returns (p: seq<Id>)
    requires Inventory.Ancestor(c, s, n).Some? && forall s | s in c.parent :: (c.parent[s], s) in e
    ensures Connects(e, p, Inventory.Ancestor(c, s, n).value, s) && |p| == n + 1
    decreases n
  {
    if n == 0 {
      p := [s];
    } else {
      var q := PathFromAncestor(e, c, c.parent[s], n - 1);
      p := q + [s];
    }
  }

  // ----- The table and its cycle check -----

  /** The breadth-first search: every space reached from the child is seen, and the parent is found exactly
      when it is one of them. */
  method Search(childrenOf: map<Id, seq<Id>>, parent: Id, child: Id, ghost e: Edges) returns (found: bool)
    requires parent != child && forall a, b :: (a in childrenOf && b in childrenOf[a]) <==> (a, b) in e
    ensures found <==> Reaches(e, child, parent)
  {
    ghost var all := {child} + set edge | edge in e :: edge.1;
    var seen := {child};
    var queue := [child];
    ReachesSelf(e, child);
    while queue != []
      invariant child in seen && parent !in seen && seen <= all
      invariant forall x | x in queue :: x in seen
      invariant forall x | x in seen :: Reaches(e, child, x)
      invariant forall x, y | x in seen && (x, y) in e :: x in queue || y in seen
      decreases all - seen, |queue|
    {
      var node := queue[0];
      queue := queue[1..];
      var successors := if node in childrenOf then childrenOf[node] else [];
      ghost var rest, before := queue, seen;
      for i := 0 to |successors|
        invariant child in seen && parent !in seen && seen <= all
        invariant forall x | x in queue :: x in seen
        invariant forall x | x in seen :: Reaches(e, child, x)
        invariant forall x, y | x in seen && (x, y) in e :: x == node || x in queue || y in seen
        invariant forall j | 0 <= j < i :: successors[j] in seen
        invariant node in seen && before <= seen
        invariant seen == before ==> queue == rest
      {
        var next := successors[i];
        assert (node, next) in e;
        ReachesByEdge(e, node, next);
        ReachesThrough(e, child, node, next);
        if next == parent {
          return true;
        }
        if next !in seen {
          assert (node, next).1 in all;
          seen := seen + {next};
          queue := queue + [next];
        }
      }
    }
    found := false;
    if Reaches(e, child, parent) {
      var p :| Connects(e, p, child, parent);
      ClosedContainsPath(e, seen, p);
    }
  }

  class RelationshipTable {
    var rels: map<Id, Relationship>

    constructor ()
      ensures rels == map[]
    {
      rels := map[];
    }

    /** The adjacency lists of a tenant, in the order the query returns the rows. */
    method ChildrenOf(tenant: Id) returns (childrenOf: map<Id, seq<Id>>)
      ensures forall a, b :: (a in childrenOf && b in childrenOf[a]) <==> (a, b) in EdgesOf(rels, tenant)
    {
      childrenOf := map[];
      var todo := rels.Keys;
      ghost var done: map<Id, Relationship> := map[];
      while todo != {}
        invariant todo <= rels.Keys && done == rels - todo
        invariant forall a, b :: (a in childrenOf && b in childrenOf[a]) <==> (a, b) in EdgesOf(done, tenant)
        decreases todo
      {
        var id :| id in todo;
        var rel := rels[id];
        EdgesGrow(done, id, rel, tenant);
        todo := todo - {id};
        done := done[id := rel];
        assert done == rels - todo;
        if rel.tenant == tenant {
          var list := if rel.parent in childrenOf then childrenOf[rel.parent] else [];
          childrenOf := childrenOf[rel.parent := list + [rel.child]];
        }
      }
      assert rels - todo == rels;
    }

    /** would_create_cycle: breadth-first search from the child. It terminates, and answers True exactly when
        the two spaces are the same or the parent can be reached from the child. */
    method WouldCreateCycle(tenant: Id, parent: Id, child: Id) returns (cycle: bool)
      ensures cycle <==> parent == child || Reaches(EdgesOf(rels, tenant), child, parent)
    {
      if parent == child {
        return true;
      }
      var childrenOf := ChildrenOf(tenant);
      cycle := Search(childrenOf, parent, child, EdgesOf(rels, tenant));
    }

    /** create_relationship: refused when it would create a cycle, rolled back when the pair exists. */
    method CreateRelationship(id: Id, rel: Relationship)
      modifies this
      ensures rels == After(old(rels), Create(id, rel))
      ensures CreateOutcome(old(rels), rels, id, rel)
    {
      StepOutcome(rels, Create(id, rel));
      var cycle := WouldCreateCycle(rel.tenant, rel.parent, rel.child);
      if cycle {
        return;
      }
      if id !in rels && !PairTaken(rels, rel.parent, rel.child) {
        rels := rels[id := rel];
      }
    }

    /** delete_relationship. */
    method DeleteRelationship(id: Id)
      modifies this
      ensures rels == After(old(rels), Delete(id))
      ensures DeleteOutcome(old(rels), rels, id)
    {
      StepOutcome(rels, Delete(id));
      if id in rels {
        rels := rels - {id};
      }
    }
  }

  lemma EdgesGrow(rels: map<Id, Relationship>, id: Id, rel: Relationship, tenant: Id)
    requires id !in rels
    ensures EdgesOf(rels[id := rel], tenant) ==
            EdgesOf(rels, tenant) + (if rel.tenant == tenant then {(rel.parent, rel.child)} else {})
  {
    var rels' := rels[id := rel];
    assert rels'[id] == rel;
    forall x | x in rels && rels[x].tenant == tenant
      ensures (rels[x].parent, rels[x].child) in EdgesOf(rels', tenant)
    {
      assert rels'[x] == rels[x];
    }
  }
}
