/** The hierarchy under concurrent transactions: each statement is one step, an
    uncommitted write is seen by its own transaction only and holds its row, and
    the advisory lock is held from its statement to the end of the transaction
    (app/repositories/initiatives.py, app/services/initiatives.py). */
module InitiativeRuns {
  import opened Wrappers
  import opened Initiatives

  type TxId = int

  /** One open transaction and how far it has got. */
  datatype Tx =
    | Locked(moved: Id, parent: Id)       // holds the parenting lock
    | Inspected(moved: Id, parent: Id)    // ... and its walk approved the move
    | Rewritten(moved: Id, parent: Id)    // ... and it has written the parent column
    | Detached(moved: Id)                 // cleared one parent column, no lock taken
    | Cleared(gone: Id, orphans: set<Id>) // a delete, its children's columns cleared
    | Removed(gone: Id, orphans: set<Id>) // ... and the row itself deleted

  datatype State = State(parents: Parents, lock: Option<TxId>, open: map<TxId, Tx>)

  /** The rows a transaction has written and therefore holds. */
  function Writes(tx: Tx): set<Id> {
    match tx
    case Locked(_, _) => {}
    case Inspected(_, _) => {}
    case Rewritten(m, _) => {m}
    case Detached(m) => {m}
    case Cleared(_, orphans) => orphans
    case Removed(x, orphans) => orphans + {x}
  }

  predicate HoldsLock(tx: Tx) {
    tx.Locked? || tx.Inspected? || tx.Rewritten?
  }

  /** The detach UPDATE. */
  function Promoted(g: Parents, ids: set<Id>): Parents {
    map x | x in g :: if x in ids then None else g[x]
  }

  /** A delete once committed: its children at the top level, its row gone. */
  function Dropped(g: Parents, gone: Id, orphans: set<Id>): Parents {
    map x | x in g && x != gone :: if x in orphans then None else g[x]
  }

  /** The rows another transaction holds, which a write must wait for. */
  ghost predicate Held(s: State, t: TxId, id: Id) {
    exists u :: u in s.open && u != t && id in Writes(s.open[u])
  }

  /** Some other transaction's uncommitted row refers to `id` (its foreign-key
      check holds the row against deletion). */
  ghost predicate Referenced(s: State, t: TxId, id: Id) {
    exists u :: u in s.open && u != t && s.open[u].Rewritten? && s.open[u].parent == id
  }

  /** Another transaction has deleted `id` and not yet committed. */
  ghost predicate BeingRemoved(s: State, t: TxId, id: Id) {
    exists u :: u in s.open && u != t && s.open[u].Removed? && s.open[u].gone == id
  }

  function Closing(s: State, t: TxId, parents: Parents): State {
    State(parents, if s.lock == Some(t) then None else s.lock, s.open - {t})
  }

  datatype Event =
    | Lock(moved: Id, parent: Id)
    | Inspect
    | Rewrite
    | Detach(moved: Id)
    | ClearChildren(gone: Id, seen: set<Id>)
    | Remove
    | Create(id: Id)
    | Commit
    | Abort

  ghost predicate Step(s: State, s': State, t: TxId, e: Event) {
    match e
    case Lock(m, p) =>
      // a self-parent is refused before a connection is taken
      && t !in s.open && s.lock == None && m != p
      && s' == s.(lock := Some(t), open := s.open[t := Locked(m, p)])
    case Inspect =>
      && t in s.open && s.open[t].Locked?
      && var tx := s.open[t];
         s' == if Approves(s.parents, tx.moved, tx.parent)
               then s.(open := s.open[t := Inspected(tx.moved, tx.parent)])
               else Closing(s, t, s.parents)
    case Rewrite =>
      // no such row: nothing is updated; no such parent: the foreign key refuses
      && t in s.open && s.open[t].Inspected?
      && var tx := s.open[t];
         && !Held(s, t, tx.moved) && !BeingRemoved(s, t, tx.parent)
         && s' == if tx.moved in s.parents && tx.parent in s.parents
                  then s.(open := s.open[t := Rewritten(tx.moved, tx.parent)])
                  else Closing(s, t, s.parents)
    case Detach(m) =>
      && t !in s.open && m in s.parents && !Held(s, t, m)
      && s' == s.(open := s.open[t := Detached(m)])
    case ClearChildren(x, seen) =>
      // `seen`: the children its snapshot held, if it had to wait for one
      && t !in s.open && seen <= Children(s.parents, x)
      && (forall c :: c in seen ==> !Held(s, t, c))
      && s' == s.(open := s.open[t := Cleared(x, seen)])
    case Remove =>
      // RESTRICT: a child attached since the clearing refuses the delete
      && t in s.open && s.open[t].Cleared?
      && var tx := s.open[t];
         && !Held(s, t, tx.gone) && !Referenced(s, t, tx.gone)
         && s' == if tx.gone in s.parents && Children(s.parents, tx.gone) <= tx.orphans
                  then s.(open := s.open[t := Removed(tx.gone, tx.orphans)])
                  else Closing(s, t, s.parents)
    case Create(id) =>
      && id !in s.parents
      && s' == s.(parents := s.parents[id := None])
    case Commit =>
      && t in s.open
      && (match s.open[t]
          case Rewritten(m, p) => s' == Closing(s, t, Moved(s.parents, m, p))
          case Detached(m) => s' == Closing(s, t, Promoted(s.parents, {m}))
          case Removed(x, orphans) => s' == Closing(s, t, Dropped(s.parents, x, orphans))
          case _ => false)
    case Abort =>
      && t in s.open
      && s' == Closing(s, t, s.parents)
  }

  /** What every reachable state satisfies. */
  ghost predicate Inv(s: State) {
    && Closed(s.parents)
    && ForestWithin(s.parents, MAX_INITIATIVE_DEPTH)
    && (forall t :: t in s.open ==> HoldsLock(s.open[t]) ==> s.lock == Some(t))
    && (forall t, u, id :: t in s.open && u in s.open && t != u && id in Writes(s.open[t]) ==> id !in Writes(s.open[u]))
    && (forall t :: t in s.open ==> Sound(s, t))
  }

  /** What one open transaction may rely on. An approval taken under the lock is
      still an approval, whatever the unlocked steps have done since. */
  ghost predicate Sound(s: State, t: TxId)
    requires t in s.open
  {
    match s.open[t]
    case Locked(m, p) => m != p
    case Inspected(m, p) => m != p && Approves(s.parents, m, p)
    case Rewritten(m, p) =>
      && m != p && Approves(s.parents, m, p)
      && m in s.parents && p in s.parents && !BeingRemoved(s, t, p)
    case Detached(m) => m in s.parents
    case Cleared(x, orphans) => orphans <= s.parents.Keys
    case Removed(x, orphans) =>
      && orphans <= s.parents.Keys && x in s.parents
      && Children(s.parents, x) <= orphans
  }

  ghost predicate Init(s: State) {
    s == State(map[], None, map[])
  }

  ghost predicate Next(s: State, s': State) {
    exists t, e :: Step(s, s', t, e)
  }

  /** A run: each consecutive pair of states is one transaction's step. */
  ghost predicate Run(run: seq<State>) {
    && run != [] && Init(run[0])
    && forall i :: 0 < i < |run| ==> Next(run[i - 1], run[i])
  }

  // ------------------------------------------- steps that only thin the forest

  /** `h` is `g` with some edges cut, some unreferenced rows gone and some new
      top-level rows: all that a step without the lock can do. */
  ghost predicate Thinner(g: Parents, h: Parents) {
    forall x :: x in h ==> h[x] == None || (x in g && h[x] == g[x])
  }

  lemma {:induction false} ThinnerChain(g: Parents, h: Parents, x: Id, k: nat)
    requires Thinner(g, h) && Closed(g) && Ancestor(h, x, k).Some?
    ensures Ancestor(g, x, k) == Ancestor(h, x, k) || (k == 0 && x !in g)
    decreases k
  {
    if k > 0 {
      ThinnerChain(g, h, h[x].value, k - 1);
    }
  }

  lemma ThinnerForest(g: Parents, h: Parents)
    requires Thinner(g, h) && Closed(g) && ForestWithin(g, MAX_INITIATIVE_DEPTH)
    ensures ForestWithin(h, MAX_INITIATIVE_DEPTH)
  {
    forall x, k: nat | MAX_INITIATIVE_DEPTH < k ensures Ancestor(h, x, k) == None {
      if Ancestor(h, x, k).Some? { ThinnerChain(g, h, x, k); }
    }
  }

  /** The key lemma: an approval survives every thinning of the forest. */
  lemma ApprovalSurvives(g: Parents, h: Parents, moved: Id, parent: Id)
    requires Thinner(g, h) && Closed(g) && ForestWithin(g, MAX_INITIATIVE_DEPTH)
    requires moved != parent && Approves(g, moved, parent)
    ensures Approves(h, moved, parent)
  {
    ThinnerForest(g, h);
    ForestIsAcyclic(g, MAX_INITIATIVE_DEPTH);
    ForestIsAcyclic(h, MAX_INITIATIVE_DEPTH);
    WalkIsExact(g, moved, parent);
    WalkIsExact(h, moved, parent);
    forall k: nat ensures Ancestor(h, parent, k) != Some(moved) {
      if Ancestor(h, parent, k) == Some(moved) { ThinnerChain(g, h, parent, k); }
    }
    forall x, j: nat, k: nat | Below(h, moved, x, j) && Above(h, parent, k)
      ensures j + 1 + k <= MAX_INITIATIVE_DEPTH
    {
      if Ancestor(h, x, j) == Some(moved) { ThinnerChain(g, h, x, j); }
      if Ancestor(h, parent, k).Some? { ThinnerChain(g, h, parent, k); }
      assert Below(g, moved, x, j) && Above(g, parent, k);
    }
  }

  // --------------------------------------------------------------- invariance

  lemma StepKeepsInv(s: State, s': State, t: TxId, e: Event)
    requires Inv(s) && Step(s, s', t, e)
    ensures Inv(s')
  {
    match e
    case Create(id) =>
      assert Thinner(s.parents, s'.parents);
      ThinnedInv(s, s');
      forall u | u in s'.open ensures Sound(s', u) { assert Sound(s, u); }
    case Commit =>
      CommitKeepsInv(s, s', t);
    case _ =>
      QuietStepKeepsInv(s, s', t, e);
  }

  /** A step that commits nothing changes only its own transaction's entry. */
  lemma QuietStepKeepsSound(s: State, s': State, t: TxId, e: Event, u: TxId)
    requires Inv(s) && Step(s, s', t, e) && !e.Create? && !e.Commit? && u in s'.open
    ensures Sound(s', u) && (HoldsLock(s'.open[u]) ==> s'.lock == Some(u))
  {
    assert t in s.open ==> Sound(s, t);
    if u != t {
      assert Sound(s, u) && s'.open[u] == s.open[u];
    }
  }

  lemma QuietStepKeepsInv(s: State, s': State, t: TxId, e: Event)
    requires Inv(s) && Step(s, s', t, e) && !e.Create? && !e.Commit?
    ensures Inv(s')
  {
    forall u | u in s'.open ensures Sound(s', u) && (HoldsLock(s'.open[u]) ==> s'.lock == Some(u)) {
      QuietStepKeepsSound(s, s', t, e, u);
    }
    forall u, id | t in s'.open && u in s'.open && t != u && id in Writes(s'.open[t]) ensures id !in Writes(s'.open[u]) {
      if t !in s.open || id !in Writes(s.open[t]) { assert !Held(s, t, id); }
    }
  }

  lemma ThinnedInv(s: State, s': State)
    requires Inv(s) && Thinner(s.parents, s'.parents)
    ensures ForestWithin(s'.parents, MAX_INITIATIVE_DEPTH)
    ensures forall m, p :: m != p && Approves(s.parents, m, p) ==> Approves(s'.parents, m, p)
  {
    ThinnerForest(s.parents, s'.parents);
    forall m, p | m != p && Approves(s.parents, m, p) ensures Approves(s'.parents, m, p) {
      ApprovalSurvives(s.parents, s'.parents, m, p);
    }
  }

  lemma CommitKeepsInv(s: State, s': State, t: TxId)
    requires Inv(s) && Step(s, s', t, Commit)
    ensures Inv(s')
  {
    assert Sound(s, t);
    match s.open[t]
    case Rewritten(m, p) =>
      ApprovalIffForest(s.parents, m, p);
      forall u | u in s'.open ensures Sound(s', u) { assert Sound(s, u); }
    case Detached(m) =>
      assert Thinner(s.parents, s'.parents);
      ThinnedInv(s, s');
      forall u | u in s'.open ensures Sound(s', u) { assert Sound(s, u); }
    case Removed(x, orphans) =>
      assert Thinner(s.parents, s'.parents);
      ThinnedInv(s, s');
      assert x in Writes(s.open[t]);
      forall u | u in s'.open ensures Sound(s', u) {
        assert Sound(s, u);
        assert x !in Writes(s.open[u]);
      }
  }

  /** In every interleaving the hierarchy stays a forest within the bound. */
  lemma {:induction false} RunsStayForests(run: seq<State>, i: nat)
    requires Run(run) && i < |run|
    ensures Inv(run[i])
    ensures Acyclic(run[i].parents) && ForestWithin(run[i].parents, MAX_INITIATIVE_DEPTH)
  {
    if i > 0 {
      RunsStayForests(run, i - 1);
      var t, e :| Step(run[i - 1], run[i], t, e);
      StepKeepsInv(run[i - 1], run[i], t, e);
    } 
    ForestIsAcyclic(run[i].parents, MAX_INITIATIVE_DEPTH);
  }

  /** What the lock is for: two moves each approved on the same committed rows,
      and so without it both written, close a cycle neither could see. */
  lemma UnlockedMovesCloseACycle()
    ensures var g: Parents := map[1 := None, 2 := None];
            && ForestWithin(g, MAX_INITIATIVE_DEPTH) && Approves(g, 1, 2) && Approves(g, 2, 1)
            && !Acyclic(Moved(Moved(g, 1, 2), 2, 1))
  {
    var g: Parents := map[1 := None, 2 := None];
    forall x, k: nat | MAX_INITIATIVE_DEPTH < k ensures Ancestor(g, x, k) == None {}
    assert Ancestor(g, 1, 0) == Some(1) && Ancestor(g, 2, 0) == Some(2);
    forall x, k: nat | MAX_INITIATIVE_DEPTH < k ensures Ancestor(Moved(g, 1, 2), x, k) == None {
      if k > 1 && x == 1 { assert Ancestor(Moved(g, 1, 2), 2, k - 1) == None; }
    }
    forall x, k: nat | MAX_INITIATIVE_DEPTH < k ensures Ancestor(Moved(g, 2, 1), x, k) == None {
      if k > 1 && x == 2 { assert Ancestor(Moved(g, 2, 1), 1, k - 1) == None; }
    }
    ApprovalIffForest(g, 1, 2);
    ApprovalIffForest(g, 2, 1);
    var h := Moved(Moved(g, 1, 2), 2, 1);
    assert Ancestor(h, 2, 1) == Some(1);
    assert Ancestor(h, 1, 2) == Some(1);
  }
}
