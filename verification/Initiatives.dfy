/** The initiative hierarchy of one workspace, and the bounded two-way walk
    that judges a proposed re-parent (app/repositories/initiatives.py,
    app/domain/initiatives.py). */
module Initiatives {
  import opened Wrappers

  /** UUIDs, of which only equality matters. */
  type Id = int

  /** How many edges may sit above an initiative. */
  const MAX_INITIATIVE_DEPTH: nat := 4

  /** Each stored initiative and the parent column of its row. */
  type Parents = map<Id, Option<Id>>

  /** The row `k` edges above `id`; None when the chain ends first. */
  function Ancestor(g: Parents, id: Id, k: nat): Option<Id>
    decreases k
  {
    if id !in g then None
    else if k == 0 then Some(id)
    else match g[id]
      case None => None
      case Some(p) => Ancestor(g, p, k - 1)
  }

  /** `above` lies on the chain strictly over `id`. */
  ghost predicate LiesAbove(g: Parents, id: Id, above: Id) {
    exists k: nat :: 0 < k && Ancestor(g, id, k) == Some(above)
  }

  ghost predicate Acyclic(g: Parents) {
    forall id, k: nat :: 0 < k ==> Ancestor(g, id, k) != Some(id)
  }

  /** No row has more than `bound` edges above it. */
  ghost predicate ForestWithin(g: Parents, bound: nat) {
    forall id, k: nat :: bound < k ==> Ancestor(g, id, k) == None
  }

  /** initiatives_parent_fk: every named parent is a stored row. */
  ghost predicate Closed(g: Parents) {
    forall id :: id in g && g[id].Some? ==> g[id].value in g
  }

  // ---------------------------------------------------------------- the walk

  /** One row of a recursive term: an id, and its distance from the anchor. */
  datatype Row = Row(id: Id, depth: nat)

  /** The `ancestors` term from `id` on. `path` is what the CYCLE clause has
      accumulated: a repeated id is emitted once more and not expanded. */
  function UpRows(g: Parents, id: Id, depth: nat, maxDepth: nat, path: set<Id>): (rows: seq<Row>)
    requires depth <= maxDepth
    ensures forall r :: r in rows ==> depth <= r.depth <= maxDepth
    decreases maxDepth - depth
  {
    if id !in g then []
    else if id in path || depth == maxDepth || g[id].None? then [Row(id, depth)]
    else [Row(id, depth)] + UpRows(g, g[id].value, depth + 1, maxDepth, path + {id})
  }

  function Children(g: Parents, id: Id): set<Id> {
    set c | c in g && g[c] == Some(id)
  }

  /** The `descendants` term from `id` down, with the same CYCLE clause. */
  function DownRows(g: Parents, id: Id, depth: nat, maxDepth: nat, path: set<Id>): (rows: set<Row>)
    requires depth <= maxDepth
    ensures forall r :: r in rows ==> depth <= r.depth <= maxDepth
    decreases maxDepth - depth
  {
    if id !in g then {}
    else if id in path || depth == maxDepth then {Row(id, depth)}
    else
      var next, seen := depth + 1, path + {id};
      {Row(id, depth)} +
      set c, r | c in Children(g, id) && r in DownRows(g, c, next, maxDepth, seen) :: r
  }

  /** COALESCE(max(depth), 0), over rows at most `bound` deep. */
  function MaxDepth(rows: set<Row>, bound: nat): (d: nat)
    ensures d <= bound
    ensures forall r :: r in rows && r.depth <= bound ==> r.depth <= d
    ensures d == 0 || exists r :: r in rows && r.depth == d
  {
    if bound == 0 || exists r :: r in rows && r.depth == bound then bound
    else MaxDepth(rows, bound - 1)
  }

  datatype ParentingCheck = ParentingCheck(createsCycle: bool, parentDepth: nat, subtreeHeight: nat)
  {
    function ResultingDepth(): nat { parentDepth + 1 + subtreeHeight }
  }

  /** What one bounded walk finds about moving `moved` under `parent`. */
  function InspectParenting(g: Parents, parent: Id, moved: Id, maxDepth: nat): ParentingCheck {
    var up := set r | r in UpRows(g, parent, 0, maxDepth, {});
    ParentingCheck(
      exists r :: r in up && r.id == moved,
      MaxDepth(up, maxDepth),
      MaxDepth(DownRows(g, moved, 0, maxDepth, {}), maxDepth))
  }

  /** The service writes the new parent only when this holds. */
  predicate Approves(g: Parents, moved: Id, parent: Id) {
    var check := InspectParenting(g, parent, moved, MAX_INITIATIVE_DEPTH);
    !check.createsCycle && check.ResultingDepth() <= MAX_INITIATIVE_DEPTH
  }

  // ----------------------------------------------------- facts about chains

  lemma {:induction false} AncestorSplit(g: Parents, id: Id, j: nat, k: nat)
    ensures Ancestor(g, id, j + k) ==
            match Ancestor(g, id, j) { case None => None case Some(a) => Ancestor(g, a, k) }
    decreases j
  {
    if id in g && j > 0 && g[id].Some? {
      AncestorSplit(g, g[id].value, j - 1, k);
    }
  }

  /** A chain that repeats never ends. */
  lemma {:induction false} LoopNeverEnds(g: Parents, id: Id, k: nat, n: nat)
    requires 0 < k && Ancestor(g, id, k) == Some(id)
    ensures Ancestor(g, id, n).Some?
    decreases n
  {
    if n <= k {
      AncestorSplit(g, id, n, k - n);
    } else {
      AncestorSplit(g, id, k, n - k);
      LoopNeverEnds(g, id, k, n - k);
    }
  }

  lemma ForestIsAcyclic(g: Parents, bound: nat)
    requires ForestWithin(g, bound)
    ensures Acyclic(g)
  {
    forall id, k: nat | 0 < k ensures Ancestor(g, id, k) != Some(id) {
      if Ancestor(g, id, k) == Some(id) {
        LoopNeverEnds(g, id, k, bound + 1);
        assert false;
      }
    }
  }

  // ------------------------------------------------ what the walk really sees

  lemma {:induction false} UpRowsSound(g: Parents, id: Id, depth: nat, maxDepth: nat, path: set<Id>, r: Row)
    requires depth <= maxDepth && r in UpRows(g, id, depth, maxDepth, path)
    ensures depth <= r.depth <= maxDepth && Ancestor(g, id, r.depth - depth) == Some(r.id)
    decreases maxDepth - depth
  {
    if r != Row(id, depth) {
      UpRowsSound(g, g[id].value, depth + 1, maxDepth, path + {id}, r);
    }
  }

  lemma {:induction false} UpRowsComplete(g: Parents, id: Id, depth: nat, maxDepth: nat, path: set<Id>, k: nat)
    requires depth <= maxDepth && Acyclic(g) && depth + k <= maxDepth
    requires Ancestor(g, id, k).Some?
    requires forall y :: y in path ==> LiesAbove(g, y, id)
    ensures Row(Ancestor(g, id, k).value, depth + k) in UpRows(g, id, depth, maxDepth, path)
    decreases maxDepth - depth
  {
    if id in path {
      assert false;
    } else if k > 0 {
      var p := g[id].value;
      forall y | y in path + {id} ensures LiesAbove(g, y, p) {
        if y == id {
          assert Ancestor(g, p, 0) == Some(p);
          assert Ancestor(g, id, 1) == Some(p);
        } else {
          var j: nat :| 0 < j && Ancestor(g, y, j) == Some(id);
          AncestorSplit(g, y, j, 1);
          assert Ancestor(g, p, 0) == Some(p);
          assert Ancestor(g, y, j + 1) == Some(p);
        }
      }
      UpRowsComplete(g, p, depth + 1, maxDepth, path + {id}, k - 1);
    }
  }

  lemma {:induction false} DownRowsSound(g: Parents, id: Id, depth: nat, maxDepth: nat, path: set<Id>, r: Row)
    requires depth <= maxDepth && r in DownRows(g, id, depth, maxDepth, path)
    ensures depth <= r.depth <= maxDepth && Ancestor(g, r.id, r.depth - depth) == Some(id)
    decreases maxDepth - depth
  {
    if r != Row(id, depth) {
      var c :| c in Children(g, id) && r in DownRows(g, c, depth + 1, maxDepth, path + {id});
      DownRowsSound(g, c, depth + 1, maxDepth, path + {id}, r);
      AncestorSplit(g, r.id, r.depth - depth - 1, 1);
      assert Ancestor(g, c, 1) == Some(id);
    }
  }

  lemma {:induction false} DownRowsComplete(g: Parents, id: Id, depth: nat, maxDepth: nat, path: set<Id>, x: Id, k: nat)
    requires depth <= maxDepth && Acyclic(g) && depth + k <= maxDepth
    requires Ancestor(g, x, k) == Some(id)
    requires forall y :: y in path ==> LiesAbove(g, id, y)
    ensures Row(x, depth + k) in DownRows(g, id, depth, maxDepth, path)
    decreases maxDepth - depth
  {
    AncestorSplit(g, x, k, 0);
    if id in path {
      assert false;
    } else if k > 0 {
      AncestorSplit(g, x, k - 1, 1);
      var c := Ancestor(g, x, k - 1).value;
      assert Ancestor(g, c, 1) == Some(id);
      forall y | y in path + {id} ensures LiesAbove(g, c, y) {
        if y != id {
          var j: nat :| 0 < j && Ancestor(g, id, j) == Some(y);
          assert Ancestor(g, c, j + 1) == Some(y);
        }
      }
      assert c in Children(g, id);
      DownRowsComplete(g, c, depth + 1, maxDepth, path + {id}, x, k - 1);
    }
  }

  /** `x` sits `j` rows below `moved`; an absent row still counts as itself. */
  ghost predicate Below(g: Parents, moved: Id, x: Id, j: nat) {
    (j == 0 && x == moved) || Ancestor(g, x, j) == Some(moved)
  }

  /** At least `k` edges lie above `parent`. */
  ghost predicate Above(g: Parents, parent: Id, k: nat) {
    k == 0 || Ancestor(g, parent, k).Some?
  }

  /** The move is possible at all: no loop, and every chain it makes -- down
      from any row under `moved`, then up from `parent` -- fits the bound. */
  ghost predicate FitsUnder(g: Parents, moved: Id, parent: Id) {
    && (forall k: nat :: Ancestor(g, parent, k) != Some(moved))
    && (forall x, j: nat, k: nat :: Below(g, moved, x, j) && Above(g, parent, k)
          ==> j + 1 + k <= MAX_INITIATIVE_DEPTH)
  }

  /** On every acyclic graph, of any depth, the truncated walk decides exactly
      whether the move fits. */
  lemma WalkIsExact(g: Parents, moved: Id, parent: Id)
    requires Acyclic(g)
    ensures Approves(g, moved, parent) <==> FitsUnder(g, moved, parent)
  {
    if Approves(g, moved, parent) { ApprovedFits(g, moved, parent); }
    if FitsUnder(g, moved, parent) { FittingIsApproved(g, moved, parent); }
  }

  /** A full-depth row anywhere on a chain means the chain is at least so long. */
  lemma UpReaches(g: Parents, parent: Id, k: nat)
    requires Acyclic(g) && Above(g, parent, k)
    ensures var up := set r | r in UpRows(g, parent, 0, MAX_INITIATIVE_DEPTH, {});
            MaxDepth(up, MAX_INITIATIVE_DEPTH) >= if k <= MAX_INITIATIVE_DEPTH then k else MAX_INITIATIVE_DEPTH
  {
    var n := if k <= MAX_INITIATIVE_DEPTH then k else MAX_INITIATIVE_DEPTH;
    if n > 0 {
      AncestorSplit(g, parent, n, k - n);
      UpRowsComplete(g, parent, 0, MAX_INITIATIVE_DEPTH, {}, n);
    }
  }

  lemma DownReaches(g: Parents, moved: Id, x: Id, j: nat)
    requires Acyclic(g) && Below(g, moved, x, j)
    ensures MaxDepth(DownRows(g, moved, 0, MAX_INITIATIVE_DEPTH, {}), MAX_INITIATIVE_DEPTH)
            >= if j <= MAX_INITIATIVE_DEPTH then j else MAX_INITIATIVE_DEPTH
  {
    var n := if j <= MAX_INITIATIVE_DEPTH then j else MAX_INITIATIVE_DEPTH;
    if n > 0 {
      AncestorSplit(g, x, j - n, n);
      DownRowsComplete(g, moved, 0, MAX_INITIATIVE_DEPTH, {}, Ancestor(g, x, j - n).value, n);
    }
  }

  lemma ApprovedFits(g: Parents, moved: Id, parent: Id)
    requires Acyclic(g) && Approves(g, moved, parent)
    ensures FitsUnder(g, moved, parent)
  {
    var check := InspectParenting(g, parent, moved, MAX_INITIATIVE_DEPTH);
    forall x, j: nat, k: nat | Below(g, moved, x, j) && Above(g, parent, k)
      ensures j + 1 + k <= MAX_INITIATIVE_DEPTH
    {
      DownReaches(g, moved, x, j);
      UpReaches(g, parent, k);
    }
    forall k: nat ensures Ancestor(g, parent, k) != Some(moved) {
      if Ancestor(g, parent, k) == Some(moved) {
        UpReaches(g, parent, k);
        UpRowsComplete(g, parent, 0, MAX_INITIATIVE_DEPTH, {}, k);
        assert false;
      }
    }
  }

  lemma HighestIsAbove(g: Parents, parent: Id, up: set<Row>, bound: nat)
    requires up == set r | r in UpRows(g, parent, 0, bound, {})
    ensures Above(g, parent, MaxDepth(up, bound))
  {
    var height := MaxDepth(up, bound);
    assert Above(g, parent, 0);
    if height > 0 {
      var r :| r in up && r.depth == height;
      UpRowsSound(g, parent, 0, bound, {}, r);
    }
  }

  lemma LowestIsBelow(g: Parents, moved: Id, bound: nat) returns (x: Id)
    ensures Below(g, moved, x, MaxDepth(DownRows(g, moved, 0, bound, {}), bound))
  {
    var down := DownRows(g, moved, 0, bound, {});
    var height := MaxDepth(down, bound);
    assert Below(g, moved, moved, 0);
    x := moved;
    if height > 0 {
      var r :| r in down && r.depth == height;
      DownRowsSound(g, moved, 0, bound, {}, r);
      x := r.id;
    }
  }

  lemma NoRowIsMoved(g: Parents, moved: Id, parent: Id, bound: nat)
    requires forall k: nat :: Ancestor(g, parent, k) != Some(moved)
    ensures forall r :: r in UpRows(g, parent, 0, bound, {}) ==> r.id != moved
  {
    forall r | r in UpRows(g, parent, 0, bound, {}) ensures r.id != moved {
      UpRowsSound(g, parent, 0, bound, {}, r);
    }
  }

  lemma FittingIsApproved(g: Parents, moved: Id, parent: Id)
    requires Acyclic(g) && FitsUnder(g, moved, parent)
    ensures Approves(g, moved, parent)
  {
    var bound := MAX_INITIATIVE_DEPTH;
    NoRowIsMoved(g, moved, parent, bound);
    var up := set r | r in UpRows(g, parent, 0, bound, {});
    HighestIsAbove(g, parent, up, bound);
    var x := LowestIsBelow(g, moved, bound);
  }

  // --------------------------------------------------------- the moved graph

  /** The table once the approved UPDATE is committed. */
  function Moved(g: Parents, moved: Id, parent: Id): Parents {
    g[moved := Some(parent)]
  }

  ghost predicate Avoids(g: Parents, x: Id, moved: Id, k: nat) {
    forall j: nat :: j < k ==> Ancestor(g, x, j) != Some(moved)
  }

  /** Chains that do not meet `moved` are the same before and after the move. */
  lemma {:induction false} MoveKeepsChain(g: Parents, moved: Id, parent: Id, x: Id, k: nat)
    requires moved in g && Avoids(g, x, moved, k)
    ensures Ancestor(Moved(g, moved, parent), x, k) == Ancestor(g, x, k)
    decreases k
  {
    if k > 0 && x in g {
      assert Ancestor(g, x, 0) != Some(moved);
      if g[x].Some? {
        forall j: nat | j < k - 1 ensures Ancestor(g, g[x].value, j) != Some(moved) {
          assert Ancestor(g, x, j + 1) == Ancestor(g, g[x].value, j);
        }
        MoveKeepsChain(g, moved, parent, g[x].value, k - 1);
      }
    }
  }

  /** Where a chain first meets `moved`, it climbs to `parent` afterwards, and on
      up `parent`'s old chain. */
  lemma MoveRedirectsChain(g: Parents, moved: Id, parent: Id, x: Id, j: nat, k: nat)
    requires moved in g && Ancestor(g, x, j) == Some(moved)
    requires Avoids(g, x, moved, j) && Avoids(g, parent, moved, k)
    ensures Ancestor(Moved(g, moved, parent), x, j) == Some(moved)
    ensures Ancestor(Moved(g, moved, parent), x, j + 1 + k) == Ancestor(g, parent, k)
  {
    MoveKeepsChain(g, moved, parent, x, j);
    AncestorSplit(Moved(g, moved, parent), x, j, 1 + k);
    MoveKeepsChain(g, moved, parent, parent, k);
  }

  lemma FirstMeeting(g: Parents, x: Id, moved: Id, k: nat)
    requires Acyclic(g) && Ancestor(g, x, k) == Some(moved)
    ensures Avoids(g, x, moved, k)
  {
    forall i: nat | i < k ensures Ancestor(g, x, i) != Some(moved) {
      AncestorSplit(g, x, i, k - i);
    }
  }

  /** Every chain either avoids `moved` for good or meets it a first time. */
  lemma {:induction false} MeetsOrAvoids(g: Parents, x: Id, moved: Id, k: nat) returns (met: bool, j: nat)
    ensures met ==> j < k && Ancestor(g, x, j) == Some(moved) && Avoids(g, x, moved, j)
    ensures !met ==> Avoids(g, x, moved, k)
  {
    if k == 0 {
      met, j := false, 0;
    } else {
      met, j := MeetsOrAvoids(g, x, moved, k - 1);
      if !met && Ancestor(g, x, k - 1) == Some(moved) { met, j := true, k - 1; }
    }
  }

  /** Whatever the graph: a move under a row not below `moved` makes no cycle. */
  lemma NoNewCycle(g: Parents, moved: Id, parent: Id, x: Id, k: nat)
    requires moved in g && !(exists i: nat :: Ancestor(g, parent, i) == Some(moved))
    requires 0 < k && Ancestor(Moved(g, moved, parent), x, k) == Some(x)
    ensures Ancestor(g, x, k) == Some(x)
  {
    var h := Moved(g, moved, parent);
    var met, j := MeetsOrAvoids(g, x, moved, k);
    if met {
      MoveKeepsChain(g, moved, parent, x, j);
      AncestorSplit(h, x, k, j);
      AncestorSplit(h, x, j, k);
      // so `moved` lies k edges above itself, k - 1 above its new parent
      MoveKeepsChain(g, moved, parent, parent, k - 1);
      assert false;
    } else {
      MoveKeepsChain(g, moved, parent, x, k);
    }
  }

  lemma SubtreeStaysShallow(g: Parents, moved: Id, parent: Id, x: Id, j: nat, n: nat)
    requires Acyclic(g) && moved in g && FitsUnder(g, moved, parent)
    requires Ancestor(g, x, j) == Some(moved) && Ancestor(Moved(g, moved, parent), x, n).Some?
    ensures n <= MAX_INITIATIVE_DEPTH
  {
    assert Below(g, moved, x, j) && Above(g, parent, 0);
    if n > j {
      FirstMeeting(g, x, moved, j);
      MoveRedirectsChain(g, moved, parent, x, j, n - j - 1);
      assert Above(g, parent, n - j - 1);
    }
  }

  /** On any acyclic graph, however deep, an approved move closes no cycle and
      leaves every row of the moved sub-tree within the bound. */
  lemma ApprovalIsSafe(g: Parents, moved: Id, parent: Id)
    requires Acyclic(g) && moved in g && Approves(g, moved, parent)
    ensures Acyclic(Moved(g, moved, parent))
    ensures forall x, j: nat, n: nat ::
              Ancestor(g, x, j) == Some(moved) && Ancestor(Moved(g, moved, parent), x, n).Some?
              ==> n <= MAX_INITIATIVE_DEPTH
  {
    ApprovedFits(g, moved, parent);
    forall x, j: nat, n: nat | Ancestor(g, x, j) == Some(moved) && Ancestor(Moved(g, moved, parent), x, n).Some?
      ensures n <= MAX_INITIATIVE_DEPTH
    {
      SubtreeStaysShallow(g, moved, parent, x, j, n);
    }
    forall x, k: nat | 0 < k ensures Ancestor(Moved(g, moved, parent), x, k) != Some(x) {
      if Ancestor(Moved(g, moved, parent), x, k) == Some(x) { NoNewCycle(g, moved, parent, x, k); }
    }
  }

  lemma FittingKeepsForest(g: Parents, moved: Id, parent: Id)
    requires ForestWithin(g, MAX_INITIATIVE_DEPTH) && moved in g && FitsUnder(g, moved, parent)
    ensures ForestWithin(Moved(g, moved, parent), MAX_INITIATIVE_DEPTH)
  {
    ForestIsAcyclic(g, MAX_INITIATIVE_DEPTH);
    forall x, k: nat | MAX_INITIATIVE_DEPTH < k ensures Ancestor(Moved(g, moved, parent), x, k) == None {
      var met, j := MeetsOrAvoids(g, x, moved, k);
      if met {
        if Ancestor(Moved(g, moved, parent), x, k).Some? { SubtreeStaysShallow(g, moved, parent, x, j, k); }
      } else {
        MoveKeepsChain(g, moved, parent, x, k);
      }
    }
  }

  lemma ForestMoveFits(g: Parents, moved: Id, parent: Id)
    requires Acyclic(g) && moved in g && parent in g
    requires ForestWithin(Moved(g, moved, parent), MAX_INITIATIVE_DEPTH)
    ensures FitsUnder(g, moved, parent)
  {
    var h := Moved(g, moved, parent);
    ForestIsAcyclic(h, MAX_INITIATIVE_DEPTH);
    forall k: nat ensures Ancestor(g, parent, k) != Some(moved) {
      assert Ancestor(h, moved, k + 1) == Ancestor(h, parent, k);
      if Ancestor(g, parent, k) == Some(moved) {
        FirstMeeting(g, parent, moved, k);
        MoveKeepsChain(g, moved, parent, parent, k);
      }
    }
    forall x, j: nat, k: nat | Below(g, moved, x, j) && Above(g, parent, k)
      ensures j + 1 + k <= MAX_INITIATIVE_DEPTH
    {
      assert Ancestor(g, parent, 0) == Some(parent) && Ancestor(g, moved, 0) == Some(moved);
      FirstMeeting(g, x, moved, j);
      MoveRedirectsChain(g, moved, parent, x, j, k);
    }
  }

  /** The exact half: on a forest within the bound, over two stored rows,
      approval holds if and only if the moved graph is still such a forest. */
  lemma ApprovalIffForest(g: Parents, moved: Id, parent: Id)
    requires ForestWithin(g, MAX_INITIATIVE_DEPTH) && moved in g && parent in g
    ensures Approves(g, moved, parent) <==> ForestWithin(Moved(g, moved, parent), MAX_INITIATIVE_DEPTH)
  {
    ForestIsAcyclic(g, MAX_INITIATIVE_DEPTH);
    WalkIsExact(g, moved, parent);
    if FitsUnder(g, moved, parent) { FittingKeepsForest(g, moved, parent); }
    if ForestWithin(Moved(g, moved, parent), MAX_INITIATIVE_DEPTH) { ForestMoveFits(g, moved, parent); }
  }

  // ------------------------------------------ a hierarchy that is not a forest

  /** The parent of every id an untruncated upward walk emits is emitted too. */
  lemma {:induction false} UntruncatedIsClosed(g: Parents, id: Id, depth: nat, maxDepth: nat, path: set<Id>, r: Row)
    requires depth <= maxDepth
    requires forall q :: q in UpRows(g, id, depth, maxDepth, path) ==> q.depth < maxDepth
    requires r in UpRows(g, id, depth, maxDepth, path) && r.id !in path
    requires r.id in g && g[r.id].Some? && g[r.id].value in g
    ensures exists q :: q in UpRows(g, id, depth, maxDepth, path) && q.id == g[r.id].value
    decreases maxDepth - depth
  {
    assert UpRows(g, id, depth, maxDepth, path)[0] == Row(id, depth);
    if id in path {
    } else {
      var p := g[id].value;
      var rest := UpRows(g, p, depth + 1, maxDepth, path + {id});
      if r.id == id {
        assert rest[0] == Row(p, depth + 1);
        assert rest[0] in UpRows(g, id, depth, maxDepth, path);
      } else {
        UntruncatedIsClosed(g, p, depth + 1, maxDepth, path + {id}, r);
      }
    }
  }

  lemma {:induction false} ChainIsEmitted(g: Parents, parent: Id, k: nat)
    requires forall q :: q in UpRows(g, parent, 0, MAX_INITIATIVE_DEPTH, {}) ==> q.depth < MAX_INITIATIVE_DEPTH
    requires Ancestor(g, parent, k).Some?
    ensures exists r :: r in UpRows(g, parent, 0, MAX_INITIATIVE_DEPTH, {}) && r.id == Ancestor(g, parent, k).value
  {
    if k == 0 {
      assert UpRows(g, parent, 0, MAX_INITIATIVE_DEPTH, {})[0] == Row(parent, 0);
    } else {
      AncestorSplit(g, parent, k - 1, 1);
      ChainIsEmitted(g, parent, k - 1);
      var r :| r in UpRows(g, parent, 0, MAX_INITIATIVE_DEPTH, {}) && r.id == Ancestor(g, parent, k - 1).value;
      UntruncatedIsClosed(g, parent, 0, MAX_INITIATIVE_DEPTH, {}, r);
    }
  }

  /** On any graph whatever, broken ones included: an approved move never hangs
      `moved` below itself, so every cycle afterwards was there before. */
  lemma ApprovalNeverClosesACycle(g: Parents, moved: Id, parent: Id)
    requires moved in g && Approves(g, moved, parent)
    ensures forall x, k: nat :: 0 < k && Ancestor(Moved(g, moved, parent), x, k) == Some(x)
              ==> Ancestor(g, x, k) == Some(x)
  {
    var rows := UpRows(g, parent, 0, MAX_INITIATIVE_DEPTH, {});
    var up := set r | r in rows;
    assert forall r :: r in rows ==> r in up;
    forall k: nat ensures Ancestor(g, parent, k) != Some(moved) {
      if Ancestor(g, parent, k) == Some(moved) { ChainIsEmitted(g, parent, k); }
    }
    forall x, k: nat | 0 < k && Ancestor(Moved(g, moved, parent), x, k) == Some(x)
      ensures Ancestor(g, x, k) == Some(x)
    {
      NoNewCycle(g, moved, parent, x, k);
    }
  }

  /** `chain` climbs from its first row and then runs back into itself: all the
      distinct rows of an upward walk that never ends. */
  ghost predicate Loop(g: Parents, chain: seq<Id>) {
    && chain != []
    && (forall i :: 0 <= i < |chain| ==> chain[i] in g && g[chain[i]].Some?)
    && (forall i :: 0 < i < |chain| ==> g[chain[i - 1]].value == chain[i])
    && (forall i, k :: 0 <= i < k < |chain| ==> chain[i] != chain[k])
    && g[chain[|chain| - 1]].value in chain
  }

  function SetOf(ids: seq<Id>): set<Id> {
    set x | x in ids
  }

  lemma {:induction false} LoopRows(g: Parents, chain: seq<Id>, depth: nat)
    requires Loop(g, chain) && depth < |chain| && depth <= MAX_INITIATIVE_DEPTH
    ensures var rows := UpRows(g, chain[depth], depth, MAX_INITIATIVE_DEPTH, SetOf(chain[..depth]));
            && (forall r :: r in rows ==> r.id in chain && r.depth <= |chain|)
            && (forall k :: depth <= k < |chain| && k <= MAX_INITIATIVE_DEPTH ==> Row(chain[k], k) in rows)
            && (|chain| <= MAX_INITIATIVE_DEPTH ==> Row(g[chain[|chain| - 1]].value, |chain|) in rows)
    decreases MAX_INITIATIVE_DEPTH - depth
  {
    var path := SetOf(chain[..depth]);
    assert chain[depth] !in path;
    if depth < MAX_INITIATIVE_DEPTH {
      assert chain[..depth + 1] == chain[..depth] + [chain[depth]];
      assert path + {chain[depth]} == SetOf(chain[..depth + 1]);
      if depth + 1 < |chain| {
        LoopRows(g, chain, depth + 1);
      } else {
        assert chain[..depth + 1] == chain;
      }
    }
  }

  /** The `k` rows above `x` are stored, all different, and outside `path`. */
  ghost predicate ClimbsFresh(g: Parents, x: Id, k: nat, path: set<Id>) {
    && (forall a: nat :: 1 <= a <= k ==> Ancestor(g, x, a).Some? && Ancestor(g, x, a).value !in path)
    && (forall a: nat, b: nat :: 1 <= a < b <= k ==> Ancestor(g, x, a) != Ancestor(g, x, b))
  }

  /** `x` sits `j` rows below `moved` by a chain that meets no row twice before
      it reaches `x`: what is below, whether or not `moved` is on a loop itself. */
  ghost predicate BelowOnce(g: Parents, moved: Id, x: Id, j: nat) {
    Below(g, moved, x, j) && ClimbsFresh(g, x, j, {})
  }

  lemma {:induction false} DownRowsClimb(g: Parents, id: Id, depth: nat, maxDepth: nat, path: set<Id>, r: Row)
    requires depth <= maxDepth && r in DownRows(g, id, depth, maxDepth, path)
    ensures depth <= r.depth && Ancestor(g, r.id, r.depth - depth) == Some(id) && ClimbsFresh(g, r.id, r.depth - depth, path)
    decreases maxDepth - depth
  {
    if r != Row(id, depth) {
      var c :| c in Children(g, id) && r in DownRows(g, c, depth + 1, maxDepth, path + {id});
      DownRowsClimb(g, c, depth + 1, maxDepth, path + {id}, r);
      AncestorSplit(g, r.id, r.depth - depth - 1, 1);
      assert Ancestor(g, c, 1) == Some(id);
    }
  }

  lemma {:induction false} ClimbsAreEmitted(g: Parents, id: Id, depth: nat, maxDepth: nat, path: set<Id>, x: Id, k: nat)
    requires depth + k <= maxDepth && Ancestor(g, x, k) == Some(id) && ClimbsFresh(g, x, k, path)
    ensures Row(x, depth + k) in DownRows(g, id, depth, maxDepth, path)
    decreases maxDepth - depth
  {
    AncestorSplit(g, x, k, 0);
    if k > 0 {
      AncestorSplit(g, x, k - 1, 1);
      var c := Ancestor(g, x, k - 1).value;
      assert Ancestor(g, c, 1) == Some(id);
      assert c in Children(g, id) && id !in path;
      ClimbsAreEmitted(g, c, depth + 1, maxDepth, path + {id}, x, k - 1);
      var r := Row(x, depth + k);
      assert r in DownRows(g, c, depth + 1, maxDepth, path + {id});
    }
  }

  /** The upper part of a chain down from `moved`. */
  lemma ClimbCut(g: Parents, moved: Id, x: Id, j: nat, n: nat) returns (y: Id)
    requires BelowOnce(g, moved, x, j) && 0 < n <= j
    ensures BelowOnce(g, moved, y, n)
  {
    AncestorSplit(g, x, j - n, n);
    y := Ancestor(g, x, j - n).value;
    forall a: nat | 1 <= a <= n ensures Ancestor(g, y, a) == Ancestor(g, x, j - n + a) { AncestorSplit(g, x, j - n, a); }
  }

  /** The height the walk reports is that of the moved sub-tree, cut at the bound. */
  lemma HeightReaches(g: Parents, moved: Id, x: Id, j: nat, bound: nat)
    requires BelowOnce(g, moved, x, j)
    ensures MaxDepth(DownRows(g, moved, 0, bound, {}), bound) >= if j <= bound then j else bound
  {
    var n := if j <= bound then j else bound;
    if n > 0 {
      var y := ClimbCut(g, moved, x, j, n);
      ClimbsAreEmitted(g, moved, 0, bound, {}, y, n);
    }
  }

  lemma RowIsBelow(g: Parents, moved: Id, bound: nat, r: Row)
    requires r in DownRows(g, moved, 0, bound, {})
    ensures BelowOnce(g, moved, r.id, r.depth)
  {
    DownRowsClimb(g, moved, 0, bound, {}, r);
  }

  lemma HeightIsReached(g: Parents, moved: Id, bound: nat) returns (x: Id)
    ensures BelowOnce(g, moved, x, MaxDepth(DownRows(g, moved, 0, bound, {}), bound))
  {
    var down := DownRows(g, moved, 0, bound, {});
    var height := MaxDepth(down, bound);
    if height == 0 {
      x := moved;
    } else {
      var r :| r in down && r.depth == height;
      RowIsBelow(g, moved, bound, r);
      x := r.id;
    }
  }

  /** With a loop over the proposed parent, the move is approved exactly when
      the moved row is not on it and its distinct rows, one edge and any chain
      down from the moved row still add up to at most the bound. */
  lemma LoopedParentApprovedIff(g: Parents, moved: Id, parent: Id, chain: seq<Id>)
    requires Loop(g, chain) && chain[0] == parent
    ensures Approves(g, moved, parent) <==>
            moved !in chain && forall x, j: nat :: BelowOnce(g, moved, x, j) ==> |chain| + 1 + j <= MAX_INITIATIVE_DEPTH
  {
    LoopedParentHeight(g, moved, parent, chain);
    var bound := MAX_INITIATIVE_DEPTH;
    var height := MaxDepth(DownRows(g, moved, 0, bound, {}), bound);
    var x0 := HeightIsReached(g, moved, bound);
    forall x, j: nat | BelowOnce(g, moved, x, j) && |chain| + 1 + height <= bound ensures |chain| + 1 + j <= bound {
      HeightReaches(g, moved, x, j, bound);
    }
  }

  lemma LoopedParentHeight(g: Parents, moved: Id, parent: Id, chain: seq<Id>)
    requires Loop(g, chain) && chain[0] == parent
    ensures Approves(g, moved, parent) <==>
            && moved !in chain
            && |chain| + 1 + InspectParenting(g, parent, moved, MAX_INITIATIVE_DEPTH).subtreeHeight <= MAX_INITIATIVE_DEPTH
  {
    LoopRows(g, chain, 0);
    assert SetOf(chain[..0]) == {};
    var rows := UpRows(g, parent, 0, MAX_INITIATIVE_DEPTH, {});
    var up := set r | r in rows;
    if |chain| <= MAX_INITIATIVE_DEPTH {
      assert Row(g[chain[|chain| - 1]].value, |chain|) in up;
      assert MaxDepth(up, MAX_INITIATIVE_DEPTH) == |chain|;
      if moved in chain {
        var k :| 0 <= k < |chain| && chain[k] == moved;
        assert Row(moved, k) in up;
      }
    } else {
      assert Row(chain[MAX_INITIATIVE_DEPTH], MAX_INITIATIVE_DEPTH) in up;
    }
  }

  /** The comment's stronger claim, that a hierarchy already holding a cycle
      "still refuses the write", is false of the code: a two-row loop under the
      proposed parent is walked in full, and the move is approved. */
  lemma ShortCycleIsApproved()
    ensures var g: Parents := map[1 := Some(2), 2 := Some(1), 3 := None];
            !Acyclic(g) && Approves(g, 3, 1)
  {
    var g: Parents := map[1 := Some(2), 2 := Some(1), 3 := None];
    assert Ancestor(g, 1, 2) == Some(1) by { assert Ancestor(g, 2, 1) == Some(1); }
    var rows := UpRows(g, 1, 0, 4, {});
    assert UpRows(g, 1, 2, 4, {1, 2}) == [Row(1, 2)];
    assert {} + {1} + {2} == {1, 2} && {} + {1} == {1};
    assert UpRows(g, 2, 1, 4, {1}) == [Row(2, 1), Row(1, 2)];
    assert rows == [Row(1, 0), Row(2, 1), Row(1, 2)];
    assert Children(g, 3) == {};
    assert DownRows(g, 3, 0, 4, {}) == {Row(3, 0)};
  }
}
