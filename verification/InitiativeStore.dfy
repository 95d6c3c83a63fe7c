/** The repository's statements over the parent column, and the service calls
    built on them, as methods that change a stored table
    (app/repositories/initiatives.py:442-663, app/services/initiatives.py:449-615). */
module InitiativeStore {
  import opened Wrappers
  import opened Initiatives
  import opened InitiativeRuns

  datatype Outcome = Done | SelfParent | ParentCycle | TooDeep(depth: nat) | ParentNotFound | InitiativeNotFound

  /** A chain of `n` edges runs through the new edge: down from some row to
      `moved`, and up from `parent`. */
  ghost predicate ChainThrough(g: Parents, moved: Id, parent: Id, n: nat) {
    exists x, j: nat, k: nat :: Below(g, moved, x, j) && Above(g, parent, k) && n == j + 1 + k
  }

  ghost predicate LongestThrough(g: Parents, moved: Id, parent: Id, n: nat) {
    ChainThrough(g, moved, parent, n) && forall m: nat :: ChainThrough(g, moved, parent, m) ==> m <= n
  }

  class InitiativeTable {
    var parents: Parents

    ghost predicate Valid()
      reads this
    {
      Closed(parents) && ForestWithin(parents, MAX_INITIATIVE_DEPTH)
    }

    constructor ()
      ensures Valid() && parents == map[]
    {
      parents := map[];
    }

    /** Every initiative is created at the top level. */
    method Create(id: Id) returns (created: bool)
      requires Valid()
      modifies this
      ensures Valid()
      ensures created == (id !in old(parents))
      ensures parents == if created then old(parents)[id := None] else old(parents)
    {
      created := id !in parents;
      if created {
        ghost var before := parents;
        parents := parents[id := None];
        ThinnerForest(before, parents);
      }
    }

    /** The re-parenting call, run whole under its lock: the row is rewritten
        exactly when both rows exist, differ, and the forest survives it. */
    method SetParent(moved: Id, parent: Id) returns (outcome: Outcome)
      requires Valid()
      modifies this
      ensures Valid()
      ensures outcome.Done? <==>
              && moved != parent && moved in old(parents) && parent in old(parents)
              && ForestWithin(Moved(old(parents), moved, parent), MAX_INITIATIVE_DEPTH)
      ensures parents == if outcome.Done? then Moved(old(parents), moved, parent) else old(parents)
      ensures outcome.SelfParent? <==> moved == parent
      ensures outcome.ParentCycle? <==> moved != parent && exists k: nat :: Ancestor(old(parents), parent, k) == Some(moved)
      ensures outcome.TooDeep? <==>
              && moved != parent && (forall k: nat :: Ancestor(old(parents), parent, k) != Some(moved))
              && exists n: nat :: MAX_INITIATIVE_DEPTH < n && ChainThrough(old(parents), moved, parent, n)
      ensures outcome.TooDeep? ==> LongestThrough(old(parents), moved, parent, outcome.depth)
      ensures outcome.InitiativeNotFound? <==> !(outcome.SelfParent? || outcome.ParentCycle? || outcome.TooDeep?) && moved !in old(parents)
      ensures outcome.ParentNotFound? <==>
              !(outcome.SelfParent? || outcome.ParentCycle? || outcome.TooDeep? || outcome.InitiativeNotFound?) && parent !in old(parents)
    {
      if moved == parent { return SelfParent; }
      var check := InspectParenting(parents, parent, moved, MAX_INITIATIVE_DEPTH);
      ForestIsAcyclic(parents, MAX_INITIATIVE_DEPTH);
      CycleReported(parents, parent, moved);
      DepthReported(parents, parent, moved);
      if moved in parents && parent in parents { ApprovalIffForest(parents, moved, parent); }
      if check.createsCycle { return ParentCycle; }
      if check.ResultingDepth() > MAX_INITIATIVE_DEPTH { return TooDeep(check.ResultingDepth()); }
      // the UPDATE: no row to change, or a foreign key that refuses the new value
      if moved !in parents { return InitiativeNotFound; }
      if parent !in parents { return ParentNotFound; }
      parents := Moved(parents, moved, parent);
      return Done;
    }

    /** Back to the top level; no lock and no check. */
    method ClearParent(id: Id) returns (found: bool)
      requires Valid()
      modifies this
      ensures Valid()
      ensures found == (id in old(parents)) && parents.Keys == old(parents.Keys)
      ensures forall x :: x in parents ==> parents[x] == if x == id then None else old(parents)[x]
    {
      found := id in parents;
      ghost var before := parents;
      parents := Promoted(parents, {id});
      ThinnerForest(before, parents);
    }

    /** Every row under `id` goes to the top level; no other row moves. */
    method ClearChildren(id: Id)
      requires Valid()
      modifies this
      ensures Valid()
      ensures parents.Keys == old(parents.Keys) && Children(parents, id) == {}
      ensures forall x :: x in parents ==> parents[x] == if old(parents)[x] == Some(id) then None else old(parents)[x]
    {
      ghost var before := parents;
      parents := Promoted(parents, Children(parents, id));
      ThinnerForest(before, parents);
    }

    /** Promotes the children, then deletes the row: nothing else is lost. */
    method Delete(id: Id) returns (deleted: bool)
      requires Valid()
      modifies this
      ensures Valid()
      ensures deleted == (id in old(parents))
      ensures parents.Keys == old(parents.Keys) - {id}
      ensures forall x :: x in parents ==> parents[x] == if old(parents)[x] == Some(id) then None else old(parents)[x]
    {
      ghost var before := parents;
      deleted := id in parents;
      ClearChildren(id);
      parents := parents - {id};
      ThinnerForest(before, parents);
    }
  }

  /** On a forest within the bound the walk reports a cycle exactly when the
      moved row lies on the proposed parent's chain. */
  lemma CycleReported(g: Parents, parent: Id, moved: Id)
    requires ForestWithin(g, MAX_INITIATIVE_DEPTH)
    ensures InspectParenting(g, parent, moved, MAX_INITIATIVE_DEPTH).createsCycle
            <==> exists k: nat :: Ancestor(g, parent, k) == Some(moved)
  {
    ForestIsAcyclic(g, MAX_INITIATIVE_DEPTH);
    var rows := UpRows(g, parent, 0, MAX_INITIATIVE_DEPTH, {});
    if k: nat :| Ancestor(g, parent, k) == Some(moved) {
      UpRowsComplete(g, parent, 0, MAX_INITIATIVE_DEPTH, {}, k);
      assert Row(moved, k) in (set r | r in rows);
    }
    forall r | r in rows ensures Ancestor(g, parent, r.depth) == Some(r.id) {
      UpRowsSound(g, parent, 0, MAX_INITIATIVE_DEPTH, {}, r);
    }
  }

  /** ... and the depth it reports is the longest chain through the new edge. */
  lemma DepthReported(g: Parents, parent: Id, moved: Id)
    requires ForestWithin(g, MAX_INITIATIVE_DEPTH)
    ensures LongestThrough(g, moved, parent, InspectParenting(g, parent, moved, MAX_INITIATIVE_DEPTH).ResultingDepth())
  {
    ForestIsAcyclic(g, MAX_INITIATIVE_DEPTH);
    var check := InspectParenting(g, parent, moved, MAX_INITIATIVE_DEPTH);
    var up := set r | r in UpRows(g, parent, 0, MAX_INITIATIVE_DEPTH, {});
    HighestIsAbove(g, parent, up, MAX_INITIATIVE_DEPTH);
    var x := LowestIsBelow(g, moved, MAX_INITIATIVE_DEPTH);
    assert Below(g, moved, x, check.subtreeHeight) && Above(g, parent, check.parentDepth);
    forall m: nat | ChainThrough(g, moved, parent, m) ensures m <= check.ResultingDepth() {
      var y, j: nat, k: nat :| Below(g, moved, y, j) && Above(g, parent, k) && m == j + 1 + k;
      DownReaches(g, moved, y, j);
      UpReaches(g, parent, k);
    }
  }
}
