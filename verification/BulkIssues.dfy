/** Bulk writes over `issues`: statements over an array of ids, and the service
    methods that make each batch all or nothing (app/repositories/bulk.py:91-365;
    app/domain/bulk.py:47-127; app/services/bulk.py:135-376, 420-631). */
module BulkIssues {
  import opened Wrappers
  import opened Collections
  import opened Cursors
  import opened Activity

  /** An issue by its id, ids in UUID order. */
  type Id = nat

  datatype Issue = Issue(workspace: int, fields: Snapshot, estimate: Option<int>, dueDate: Option<int>, milestone: Option<Uuid>,
                         completedAt: Option<int>, archivedAt: Option<int>, triaged: bool, updatedAt: int)

  type Table = map<Id, Issue>

  /** The type of a workflow state, where the workspace has it. */
  type States = (int, Uuid) -> Option<string>

  const BULK_MIN := 1
  const BULK_MAX := 100
  const PRIORITY_MIN := 0
  const PRIORITY_MAX := 4
  const ESTIMATE_MIN := 0

  predicate Terminal(states: States, workspace: int, state: Uuid) {
    states(workspace, state).Some? && states(workspace, state).value in ["completed", "canceled"]
  }

  // ------------------------------------------------------------------- patches

  datatype Field<+T> = Unset | Set(value: Option<T>)

  datatype Patch = Patch(state: Field<Uuid>, assignee: Field<Uuid>, priority: Field<int>, estimate: Field<int>, dueDate: Field<int>,
                         project: Field<Uuid>, milestone: Field<Uuid>, cycle: Field<Uuid>)
  {
    predicate IsEmpty() {
      && state.Unset? && assignee.Unset? && priority.Unset? && estimate.Unset? && dueDate.Unset?
      && project.Unset? && milestone.Unset? && cycle.Unset?
    }

    /** The rules of _validate, for a request that touches no label. */
    predicate IsAcceptable() {
      && !IsEmpty()
      && (state.Set? ==> state.value.Some?) && (priority.Set? ==> priority.value.Some?)
      && project.Unset? == milestone.Unset?
      && (milestone.Set? && milestone.value.Some? ==> project.Set? && project.value.Some?)
      && (priority.Set? ==> PRIORITY_MIN <= priority.value.value <= PRIORITY_MAX)
      && (estimate.Set? && estimate.value.Some? ==> ESTIMATE_MIN <= estimate.value.value)
    }
  }

  /** CASE WHEN flag THEN value ELSE column END */
  function Merge<T>(field: Field<T>, column: Option<T>): Option<T> {
    if field.Set? then field.value else column
  }

  function MergeRequired<T>(field: Field<T>, column: T): T {
    if field.Set? && field.value.Some? then field.value.value else column
  }

  function Patched(issue: Issue, patch: Patch, states: States, now: int): Issue {
    var f := issue.fields;
    var state := MergeRequired(patch.state, f.state);
    issue.(fields := Snapshot(f.title, state, MergeRequired(patch.priority, f.priority), Merge(patch.assignee, f.assignee),
                              Merge(patch.project, f.project), Merge(patch.cycle, f.cycle)),
           estimate := Merge(patch.estimate, issue.estimate),
           dueDate := Merge(patch.dueDate, issue.dueDate),
           milestone := Merge(patch.milestone, issue.milestone),
           completedAt := if !Terminal(states, issue.workspace, state) then None
                          else if issue.completedAt.Some? then issue.completedAt else Some(now),
           updatedAt := now)
  }

  /** The two requests of a batch. */
  datatype Request = Update(patch: Patch) | Archive

  function Changed(issue: Issue, request: Request, states: States, now: int): Issue {
    match request
    case Update(patch) => Patched(issue, patch, states, now)
    case Archive => issue.(archivedAt := Some(now), updatedAt := now)
  }

  /** A touched row is complete exactly when it ends up in a terminal state. */
  predicate Completion(issue: Issue, states: States) {
    issue.completedAt.Some? <==> Terminal(states, issue.workspace, issue.fields.state)
  }

  /** A column moves exactly when the patch names it, and then to what it says;
      a finished issue keeps the instant it was finished. */
  lemma PatchMovesWhatItNames(issue: Issue, patch: Patch, states: States, now: int)
    requires patch.IsAcceptable()
    ensures var r := Patched(issue, patch, states, now);
            && (r.fields.state == if patch.state.Set? then patch.state.value.value else issue.fields.state)
            && (r.fields.priority == if patch.priority.Set? then patch.priority.value.value else issue.fields.priority)
            && (patch.assignee.Set? ==> r.fields.assignee == patch.assignee.value)
            && (patch.project.Set? ==> r.fields.project == patch.project.value && r.milestone == patch.milestone.value)
            && (patch.cycle.Set? ==> r.fields.cycle == patch.cycle.value)
            && (patch.estimate.Set? ==> r.estimate == patch.estimate.value)
            && (patch.dueDate.Set? ==> r.dueDate == patch.dueDate.value)
            && (patch.assignee.Unset? ==> r.fields.assignee == issue.fields.assignee)
            && (patch.project.Unset? ==> r.fields.project == issue.fields.project && r.milestone == issue.milestone)
            && (patch.cycle.Unset? ==> r.fields.cycle == issue.fields.cycle)
            && (patch.estimate.Unset? ==> r.estimate == issue.estimate)
            && (patch.dueDate.Unset? ==> r.dueDate == issue.dueDate)
            && r.fields.title == issue.fields.title && r.workspace == issue.workspace
            && r.archivedAt == issue.archivedAt && r.triaged == issue.triaged
            && (issue.completedAt.Some? && r.completedAt.Some? ==> r.completedAt == issue.completedAt)
    ensures forall later :: Patched(Patched(issue, patch, states, now), patch, states, later)
                            == Patched(issue, patch, states, now).(updatedAt := later)
  {}

  // ---------------------------------------------------------------- statements

  predicate Live(issues: Table, workspace: int, id: Id) {
    id in issues && issues[id].workspace == workspace && issues[id].archivedAt.None?
  }

  /** What lock_snapshots returns. */
  function Snapshots(issues: Table, workspace: int, ids: set<Id>): map<Id, Snapshot> {
    map id | id in ids && Live(issues, workspace, id) :: issues[id].fields
  }

  /** The rows either UPDATE returns. */
  function Rewritten(issues: Table, workspace: int, ids: set<Id>, request: Request, states: States, now: int): Table {
    map id | id in ids && Live(issues, workspace, id) :: Changed(issues[id], request, states, now)
  }

  /** issues_triage_is_not_archived */
  predicate Refused(issues: Table, workspace: int, ids: set<Id>, request: Request) {
    request.Archive? && exists id :: id in ids && Live(issues, workspace, id) && issues[id].triaged
  }

  /** The history rows of one changed issue. */
  function Records(request: Request, id: Id, before: Snapshot, after: Snapshot): seq<Entry> {
    if request.Archive? then [Entry(id, Archived, None, None)] else Changes(id, before, after)
  }

  /** The history rows of a batch whose rows came back in this order. */
  function Recorded(request: Request, order: seq<Id>, before: map<Id, Snapshot>, after: Table): seq<Entry>
    requires forall id :: id in order ==> id in before && id in after
  {
    if order == [] then []
    else
      var n := |order| - 1;
      Recorded(request, order[..n], before, after) + Records(request, order[n], before[order[n]], after[order[n]].fields)
  }

  ghost predicate IsOrderOf(order: seq<Id>, ids: set<Id>) {
    && (forall i, j :: 0 <= i < j < |order| ==> order[i] != order[j])
    && (forall id :: id in order <==> id in ids)
  }

  lemma RecordedStep(request: Request, order: seq<Id>, before: map<Id, Snapshot>, after: Table, n: nat)
    requires forall i :: i in order ==> i in before && i in after
    requires |order| == n + 1
    ensures order[n] in order && forall i :: i in order[..n] ==> i in order
    ensures Recorded(request, order, before, after)
            == Recorded(request, order[..n], before, after) + Records(request, order[n], before[order[n]], after[order[n]].fields)
  {}

  /** A batch records each field of each of its issues at most once, and
      nothing about any other issue. */
  lemma {:induction false} RecordedLinks(request: Request, order: seq<Id>, before: map<Id, Snapshot>, after: Table, id: Id, kind: Kind)
    requires forall i :: i in order ==> i in before && i in after
    requires forall i, j :: 0 <= i < j < |order| ==> order[i] != order[j]
    requires kind != Archived
    ensures Links(Recorded(request, order, before, after), id, kind)
            == if id in order && request.Update? then Move(id, before[id], after[id].fields, kind) else []
  {
    if order != [] {
      var n := |order| - 1;
      var last := order[n];
      RecordedStep(request, order, before, after, n);
      RecordedLinks(request, order[..n], before, after, id, kind);
      LinksJoin(Recorded(request, order[..n], before, after), Records(request, last, before[last], after[last].fields), id, kind);
      RecordsLink(request, last, before[last], after[last].fields, id, kind);
      InPrefix(order, n, id);
    }
  }

  lemma InPrefix(order: seq<Id>, n: nat, id: Id)
    requires |order| == n + 1 && forall i, j :: 0 <= i < j < |order| ==> order[i] != order[j]
    ensures id in order <==> id in order[..n] || id == order[n]
    ensures order[n] !in order[..n]
  {}

  lemma RecordsLink(request: Request, last: Id, before: Snapshot, after: Snapshot, id: Id, kind: Kind)
    requires kind != Archived
    ensures Links(Records(request, last, before, after), id, kind)
            == if id == last && request.Update? then Move(id, before, after, kind) else []
  {
    if request.Archive? {
      LinksOfOne(Entry(last, Archived, None, None), id, kind);
    } else if id == last {
      ChangesLink(id, before, after, kind);
    } else {
      ChangesAreAbout(KINDS, last, before, after);
      LinksElsewhere(Changes(last, before, after), id, kind);
    }
  }

  lemma ChangesStep(kinds: seq<Kind>, i: nat, id: Id, before: Snapshot, after: Snapshot)
    requires i < |kinds|
    ensures ChangesIn(kinds[i..], id, before, after) == Move(id, before, after, kinds[i]) + ChangesIn(kinds[i + 1..], id, before, after)
  {
    assert kinds[i..][0] == kinds[i] && kinds[i..][1..] == kinds[i + 1..];
  }

  lemma Regroup(was: seq<Entry>, done: seq<Entry>, move: seq<Entry>, rest: seq<Entry>)
    ensures (was + done) + move == was + (done + move) && done + (move + rest) == (done + move) + rest
    ensures was + done + [] == was + done
  {}

  lemma NextRecorded(request: Request, order: seq<Id>, before: map<Id, Snapshot>, after: Table, id: Id, left: set<Id>, was: seq<Entry>)
    requires id in left && left <= after.Keys && IsOrderOf(order, after.Keys - left) && forall i :: i in after ==> i in before
    ensures IsOrderOf(order + [id], after.Keys - (left - {id}))
    ensures was + Recorded(request, order + [id], before, after)
            == was + Recorded(request, order, before, after) + Records(request, id, before[id], after[id].fields)
  {
    var longer := order + [id];
    assert longer[..|order|] == order && longer[|order|] == id;
    forall i ensures i in longer <==> i in after.Keys - (left - {id}) { assert i in longer <==> i in order || i == id; }
  }

  // --------------------------------------------------------------- the service

  datatype Problem = Invalid | UnknownIssues | Conflict

  /** The database the service writes, seen by one transaction at a time. */
  class IssueStore {
    var issues: Table
    var history: seq<Entry>

    constructor ()
      ensures issues == map[] && history == []
    {
      issues := map[];
      history := [];
    }

    /** The live named issues and no others, as they stand; as many of them as
        were named exactly when every one is live and of this workspace. */
    method LockSnapshots(workspace: int, ids: set<Id>) returns (r: map<Id, Snapshot>)
      ensures forall id :: id in r <==> id in ids && Live(issues, workspace, id)
      ensures forall id :: id in r ==> id in issues && r[id] == issues[id].fields
      ensures |r| == |ids| <==> forall id :: id in ids ==> Live(issues, workspace, id)
    {
      r := map id | id in ids && Live(issues, workspace, id) :: issues[id].fields;
      assert |r| == |r.Keys|;
      SameSizeIsSame(r.Keys, ids);
    }

    /** update_many and archive_many: every live row among the ids, no other. */
    method Rewrite(workspace: int, ids: set<Id>, request: Request, states: States, now: int) returns (rows: Table)
      modifies this`issues
      ensures rows == Rewritten(old(issues), workspace, ids, request, states, now)
      ensures issues.Keys == old(issues).Keys
      ensures forall id :: id in rows ==> issues[id] == rows[id]
      ensures forall id :: id in issues && id !in rows ==> issues[id] == old(issues)[id]
    {
      rows := map id | id in ids && Live(issues, workspace, id) :: Changed(issues[id], request, states, now);
      issues := issues + rows;
    }

    method RecordChanges(id: Id, before: Snapshot, after: Snapshot)
      modifies this`history
      ensures history == old(history) + Changes(id, before, after)
    {
      ghost var was, done := history, [];
      assert KINDS[0..] == KINDS;
      assert done + Changes(id, before, after) == Changes(id, before, after);
      var i := 0;
      while i < |KINDS|
        invariant 0 <= i <= |KINDS|
        invariant history == was + done && done + ChangesIn(KINDS[i..], id, before, after) == Changes(id, before, after)
      {
        var kind := KINDS[i];
        ChangesStep(KINDS, i, id, before, after);
        if Differ(before, after, kind) {
          var entry := Entry(id, kind, TextOf(before, kind), TextOf(after, kind));
          history := history + [entry];
        }
        Regroup(was, done, Move(id, before, after, kind), ChangesIn(KINDS[i + 1..], id, before, after));
        done := done + Move(id, before, after, kind);
        i := i + 1;
      }
      assert done + [] == done;
    }

    /** One history row per field that moved, per issue, or one per archive. */
    method RecordAll(request: Request, before: map<Id, Snapshot>, after: Table) returns (order: seq<Id>)
      requires forall id :: id in after ==> id in before
      modifies this`history
      ensures IsOrderOf(order, after.Keys)
      ensures history == old(history) + Recorded(request, order, before, after)
    {
      ghost var was := history;
      order := [];
      var left := after.Keys;
      while left != {}
        invariant left <= after.Keys
        invariant IsOrderOf(order, after.Keys - left)
        invariant history == was + Recorded(request, order, before, after)
      {
        var id :| id in left;
        if request.Archive? {
          history := history + [Entry(id, Archived, None, None)];
        } else {
          RecordChanges(id, before[id], after[id].fields);
        }
        NextRecorded(request, order, before, after, id, left, was);
        order := order + [id];
        left := left - {id};
      }
    }

    /** One transaction. `conflict` is a foreign key refusing the statement. */
    method RunBatch(workspace: int, issueIds: seq<Id>, request: Request, states: States, now: int, conflict: bool)
      returns (r: Result<Table, Problem>, ghost order: seq<Id>)
      modifies this
      ensures var verdict := Verdict(old(issues), workspace, issueIds, request, conflict);
              if verdict.Some? then r == Err(verdict.value) && issues == old(issues) && history == old(history)
              else
                && r == Ok(Rewritten(old(issues), workspace, IdSet(issueIds), request, states, now))
                && WholeBatch(old(issues), issues, IdSet(issueIds), request, states, now)
                && IsOrderOf(order, IdSet(issueIds)) && r.value.Keys == IdSet(issueIds)
                && Snapshots(old(issues), workspace, IdSet(issueIds)).Keys == IdSet(issueIds)
                && history == old(history) + Recorded(request, order, Snapshots(old(issues), workspace, IdSet(issueIds)), r.value)
    {
      order := [];
      if |issueIds| < BULK_MIN || |issueIds| > BULK_MAX { return Err(Invalid), []; }
      if request.Update? && !request.patch.IsAcceptable() { return Err(Invalid), []; }
      var ids := IdSet(issueIds);
      var before := LockSnapshots(workspace, ids);
      assert before == Snapshots(issues, workspace, ids);
      if |before| != |ids| { return Err(UnknownIssues), []; }
      if conflict || Refused(issues, workspace, ids, request) { return Err(Conflict), []; }
      var rows := Rewrite(workspace, ids, request, states, now);
      assert rows.Keys == before.Keys == ids;
      order := RecordAll(request, before, rows);
      return Ok(rows), order;
    }
  }

  /** The distinct ids of a request. */
  function IdSet(issueIds: seq<Id>): set<Id> { set id | id in issueIds }

  /** Why a batch is refused, None when it is not: one id that names no live
      issue of the workspace is enough. */
  function Verdict(issues: Table, workspace: int, issueIds: seq<Id>, request: Request, conflict: bool): Option<Problem> {
    if !(BULK_MIN <= |issueIds| <= BULK_MAX) || (request.Update? && !request.patch.IsAcceptable()) then Some(Invalid)
    else if exists id :: id in IdSet(issueIds) && !Live(issues, workspace, id) then Some(UnknownIssues)
    else if conflict || Refused(issues, workspace, IdSet(issueIds), request) then Some(Conflict)
    else None
  }

  /** Every named issue changed and no other. */
  predicate WholeBatch(before: Table, after: Table, ids: set<Id>, request: Request, states: States, now: int) {
    && after.Keys == before.Keys && ids <= before.Keys
    && (forall id :: id in ids ==> after[id] == Changed(before[id], request, states, now))
    && (forall id :: id in before && id !in ids ==> after[id] == before[id])
  }
}
