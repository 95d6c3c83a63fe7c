/** What a batch leaves in each row it named, column by column, and when it is
    refused (app/repositories/bulk.py:163-365; app/services/bulk.py:135-344). */
module BulkTheorems {
  import opened Wrappers
  import opened Collections
  import opened Cursors
  import opened Activity
  import opened BulkIssues
  import opened BulkRuns

  /** On the workspace's board. */
  predicate OnBoard(issues: Table, workspace: int, id: Id) {
    id in issues && issues[id].workspace == workspace && issues[id].archivedAt == None
  }

  /** The row is off the board as of `now`, and nothing else about it has moved. */
  predicate IsArchived(was: Issue, row: Issue, now: int) {
    && row.archivedAt == Some(now) && row.updatedAt == now
    && row.workspace == was.workspace && row.fields == was.fields && row.estimate == was.estimate && row.dueDate == was.dueDate
    && row.milestone == was.milestone && row.completedAt == was.completedAt && row.triaged == was.triaged
  }

  /** A column is what the request says, or what it was. */
  predicate Follows<T(==)>(field: BulkIssues.Field<T>, was: Option<T>, column: Option<T>) {
    match field
    case Unset => column == was
    case Set(value) => column == value
  }

  predicate Finished(states: States, workspace: int, state: Uuid) {
    states(workspace, state) == Some("completed") || states(workspace, state) == Some("canceled")
  }

  predicate IsUpdated(was: Issue, row: Issue, patch: Patch, states: States, now: int) {
    && row.updatedAt == now && row.archivedAt == was.archivedAt
    && row.workspace == was.workspace && row.fields.title == was.fields.title && row.triaged == was.triaged
    && Follows(patch.state, Some(was.fields.state), Some(row.fields.state))
    && Follows(patch.priority, Some(was.fields.priority), Some(row.fields.priority))
    && Follows(patch.assignee, was.fields.assignee, row.fields.assignee)
    && Follows(patch.project, was.fields.project, row.fields.project)
    && Follows(patch.cycle, was.fields.cycle, row.fields.cycle)
    && Follows(patch.estimate, was.estimate, row.estimate)
    && Follows(patch.dueDate, was.dueDate, row.dueDate)
    && Follows(patch.milestone, was.milestone, row.milestone)
    && IsCompleted(was, row, states, now)
  }

  /** The instant an issue was first finished, while it stays finished. */
  predicate IsCompleted(was: Issue, row: Issue, states: States, now: int) {
    if !Finished(states, row.workspace, row.fields.state) then row.completedAt == None
    else if was.completedAt == None then row.completedAt == Some(now)
    else row.completedAt == was.completedAt
  }

  lemma UpdateUpdates(issue: Issue, patch: Patch, states: States, now: int)
    requires patch.IsAcceptable()
    ensures IsUpdated(issue, Changed(issue, Update(patch), states, now), patch, states, now)
  {
    PatchMovesWhatItNames(issue, patch, states, now);
  }

  /** A batch archives every issue it names, or updates every one of them, and
      every other row stays as it was. */
  lemma BatchLeaves(before: Table, after: Table, ids: set<Id>, request: Request, states: States, now: int)
    requires WholeBatch(before, after, ids, request, states, now)
    requires request.Update? ==> request.patch.IsAcceptable()
    ensures request.Archive? ==> forall id :: id in ids ==> IsArchived(before[id], after[id], now)
    ensures request.Update? ==> forall id :: id in ids ==> IsUpdated(before[id], after[id], request.patch, states, now)
    ensures after.Keys == before.Keys && forall id :: id in before && id !in ids ==> after[id] == before[id]
  {
    if request.Update? {
      forall id | id in ids ensures IsUpdated(before[id], after[id], request.patch, states, now) {
        UpdateUpdates(before[id], request.patch, states, now);
      }
    }
  }

  /** So an archived issue is on no workspace's board any more. */
  lemma ArchivedIsGone(before: Table, after: Table, ids: set<Id>, states: States, now: int, workspace: int, id: Id)
    requires WholeBatch(before, after, ids, Archive, states, now)
    ensures OnBoard(after, workspace, id) <==> OnBoard(before, workspace, id) && id !in ids
  {
    BatchLeaves(before, after, ids, Archive, states, now);
  }

  /** A batch is refused exactly when it names none or more than 100 issues, asks
      for nothing a row could hold, names an issue that is not on the workspace's
      board, or would break a constraint. */
  lemma VerdictMeans(issues: Table, workspace: int, issueIds: seq<Id>, request: Request, conflict: bool)
    ensures var verdict := Verdict(issues, workspace, issueIds, request, conflict);
            && (verdict == Some(Invalid) <==> |issueIds| < 1 || |issueIds| > 100 || (request.Update? && !request.patch.IsAcceptable()))
            && (verdict == None <==>
                  && 1 <= |issueIds| <= 100 && (request.Update? ==> request.patch.IsAcceptable()) && !conflict
                  && (forall id :: id in issueIds ==> OnBoard(issues, workspace, id))
                  && (request.Archive? ==> forall id :: id in issueIds ==> !issues[id].triaged))
            && (verdict == Some(UnknownIssues) ==> exists id :: id in issueIds && !OnBoard(issues, workspace, id))
            && (verdict == Some(Conflict) ==> forall id :: id in issueIds ==> OnBoard(issues, workspace, id))
  {
    var ids := IdSet(issueIds);
    assert forall id :: id in ids <==> id in issueIds;
    assert forall id :: Live(issues, workspace, id) <==> OnBoard(issues, workspace, id);
  }

  /** What the table's constraints allow a row. */
  predicate IsSound(issue: Issue) {
    && 0 <= issue.fields.priority <= 4
    && (issue.estimate.Some? ==> 0 <= issue.estimate.value)
    && (issue.milestone.Some? ==> issue.fields.project.Some?)
  }

  /** A request that changes no row out of what the constraints allow. */
  lemma SoundRowsStaySound(before: Table, after: Table, ids: set<Id>, request: Request, states: States, now: int)
    requires WholeBatch(before, after, ids, request, states, now)
    requires request.Update? ==> request.patch.IsAcceptable()
    requires forall id :: id in before ==> IsSound(before[id])
    ensures forall id :: id in after ==> IsSound(after[id])
  {
    BatchLeaves(before, after, ids, request, states, now);
  }

  // ----------------------------------------------------------------- in every run

  /** What a commit leaves, in every run of concurrent batches. */
  lemma CommitLeaves(trace: seq<State>, events: seq<Event>, states: States, i: nat, id: Id)
    requires Run(trace, events, states) && i < |events| && events[i].Commit?
    ensures events[i].b in trace[i].batches
    ensures var s, t, x := trace[i], trace[i + 1], trace[i].batches[events[i].b];
            && x.phase.Staged?
            && (id in x.ids ==> OnBoard(s.issues, x.workspace, id) && id in t.issues)
            && (id in x.ids && x.request.Archive? ==> IsArchived(s.issues[id], t.issues[id], x.phase.now))
            && (id in x.ids && x.request.Update? && x.request.patch.IsAcceptable() ==>
                  IsUpdated(s.issues[id], t.issues[id], x.request.patch, states, x.phase.now))
            && (id in s.issues && id !in x.ids ==> id in t.issues && t.issues[id] == s.issues[id])
  {
    BatchIsAllOrNothing(trace, events, states, i);
    var s, t, x := trace[i], trace[i + 1], trace[i].batches[events[i].b];
    assert Enabled(s, events[i]);
    if x.request.Archive? || x.request.patch.IsAcceptable() {
      BatchLeaves(s.issues, t.issues, x.ids, x.request, states, x.phase.now);
    }
  }

  /** An issue ever updated has a completion instant exactly when its state is of
      a finished type. */
  lemma CompletionMeans(trace: seq<State>, events: seq<Event>, states: States, i: nat, id: Id)
    requires Run(trace, events, states) && i < |trace| && id in trace[i].touched
    ensures id in trace[i].issues
    ensures var issue := trace[i].issues[id];
            issue.completedAt != None <==> Finished(states, issue.workspace, issue.fields.state)
  {
    CompletionFollowsState(trace, events, states, i, id);
  }

  // --------------------------------------------------------------- what is told

  /** The history tells of each archived issue once, and of no other. */
  lemma {:induction false} ArchiveIsToldOnce(order: seq<Id>, before: map<Id, Snapshot>, after: Table, id: Id)
    requires forall i :: i in order ==> i in before && i in after
    requires forall i, j :: 0 <= i < j < |order| ==> order[i] != order[j]
    ensures Links(Recorded(Archive, order, before, after), id, Archived)
            == if id in order then [Entry(id, Archived, None, None)] else []
  {
    if order != [] {
      var n := |order| - 1;
      var last := order[n];
      RecordedStep(Archive, order, before, after, n);
      ArchiveIsToldOnce(order[..n], before, after, id);
      LinksJoin(Recorded(Archive, order[..n], before, after), [Entry(last, Archived, None, None)], id, Archived);
      LinksOfOne(Entry(last, Archived, None, None), id, Archived);
      InPrefix(order, n, id);
    }
  }
}
