/** Bulk batches running side by side: each takes its row locks one by one in id
    order, counts, writes, records and commits, or gives up at any point
    (app/repositories/bulk.py:91-161; app/services/bulk.py:135-376). */
module BulkRuns {
  import opened Wrappers
  import opened Collections
  import opened Cursors
  import opened Activity
  import opened BulkIssues

  /** Writes are private to a transaction until it commits. */
  datatype Phase = Locking | Staged(rows: Table, now: int)

  datatype Batch = Batch(workspace: int, ids: set<Id>, request: Request,
                         queue: seq<Id>, held: set<Id>, seen: map<Id, Snapshot>, phase: Phase)

  /** `batches` are the unfinished ones. `origin` remembers how each issue began
      and `touched` which ones an update has rewritten. */
  datatype State = State(issues: Table, history: seq<Entry>, batches: map<nat, Batch>,
                         origin: map<Id, Snapshot>, touched: set<Id>)

  datatype Event =
    | Begin(b: nat, workspace: int, ids: set<Id>, request: Request, queue: seq<Id>)
    | Lock(b: nat)
    | Stage(b: nat, now: int)
    | Commit(b: nat, order: seq<Id>)
    | Abort(b: nat)
    | Create(id: Id, issue: Issue)

  predicate IsAscending(queue: seq<Id>) {
    forall i, j :: 0 <= i < j < |queue| ==> queue[i] < queue[j]
  }

  /** No other transaction holds the row. */
  predicate Free(s: State, b: nat, id: Id) {
    forall c :: c in s.batches && c != b ==> id !in s.batches[c].held
  }

  ghost predicate Enabled(s: State, e: Event) {
    match e
    case Begin(b, workspace, ids, request, queue) =>
      // the rows the statement's snapshot selects, ORDER BY id
      b !in s.batches && IsAscending(queue) && forall id :: id in queue <==> id in ids && Live(s.issues, workspace, id)
    case Lock(b) => b in s.batches && s.batches[b].phase.Locking? && s.batches[b].queue != [] && Free(s, b, s.batches[b].queue[0])
    case Stage(b, now) =>
      && b in s.batches && s.batches[b].phase.Locking? && s.batches[b].queue == []
      && |s.batches[b].seen| == |s.batches[b].ids|
      && !Refused(s.issues, s.batches[b].workspace, s.batches[b].ids, s.batches[b].request)
    case Commit(b, order) => b in s.batches && s.batches[b].phase.Staged? && IsOrderOf(order, s.batches[b].phase.rows.Keys)
    case Abort(b) => b in s.batches
    case Create(id, issue) => id !in s.issues
  }

  /** FOR UPDATE re-reads a row once it has waited for it: only one that still
      matches is returned. */
  function Locked(s: State, x: Batch): Batch
    requires x.queue != []
  {
    var id := x.queue[0];
    x.(queue := x.queue[1..], held := x.held + {id},
       seen := if Live(s.issues, x.workspace, id) then x.seen[id := s.issues[id].fields] else x.seen)
  }

  ghost predicate SeenAll(s: State, b: nat)
  {
    b in s.batches && s.batches[b].phase.Staged? && s.batches[b].phase.rows.Keys <= s.batches[b].seen.Keys
  }

  ghost function After(s: State, e: Event, states: States): State
    requires Enabled(s, e) && (e.Commit? ==> SeenAll(s, e.b))
  {
    match e
    case Begin(b, workspace, ids, request, queue) => s.(batches := s.batches[b := Batch(workspace, ids, request, queue, {}, map[], Locking)])
    case Lock(b) => s.(batches := s.batches[b := Locked(s, s.batches[b])])
    case Stage(b, now) =>
      var x := s.batches[b];
      s.(batches := s.batches[b := x.(phase := Staged(Rewritten(s.issues, x.workspace, x.ids, x.request, states, now), now))])
    case Commit(b, order) =>
      var x := s.batches[b];
      s.(issues := s.issues + x.phase.rows, history := s.history + Recorded(x.request, order, x.seen, x.phase.rows),
         batches := s.batches - {b}, touched := if x.request.Update? then s.touched + x.ids else s.touched)
    case Abort(b) => s.(batches := s.batches - {b})
    case Create(id, issue) => s.(issues := s.issues[id := issue], origin := s.origin[id := issue.fields])
  }

  // ---------------------------------------------------------------- invariants

  ghost predicate Exclusive(s: State) {
    forall b, c, id :: b in s.batches && c in s.batches && b != c && id in s.batches[b].held ==> id !in s.batches[c].held
  }

  /** Every lock already taken lies below every lock still wanted. */
  ghost predicate Ordered(x: Batch) {
    IsAscending(x.queue) && forall h, q :: h in x.held && q in x.queue ==> h < q
  }

  /** What a batch has read of a row it has locked is what the row still holds. */
  ghost predicate Current(issues: Table, x: Batch) {
    && x.seen.Keys <= x.held && x.seen.Keys <= x.ids
    && (forall q :: q in x.queue ==> q in x.ids)
    && forall id :: id in x.seen ==> Live(issues, x.workspace, id) && x.seen[id] == issues[id].fields
  }

  ghost predicate StagedRight(issues: Table, x: Batch, states: States) {
    x.phase.Staged? ==>
      && x.queue == [] && x.phase.rows.Keys == x.ids == x.seen.Keys && x.ids <= issues.Keys
      && forall id :: id in x.ids ==> x.phase.rows[id] == Changed(issues[id], x.request, states, x.phase.now)
  }

  ghost predicate BatchOk(issues: Table, x: Batch, states: States) {
    Ordered(x) && Current(issues, x) && StagedRight(issues, x, states)
  }

  ghost predicate BatchesOk(s: State, states: States) {
    Exclusive(s) && forall b :: b in s.batches ==> BatchOk(s.issues, s.batches[b], states)
  }

  /** The history of one field leads from how the issue began to how it is. */
  ghost predicate FieldTold(s: State, id: Id, kind: Kind)
    requires id in s.issues && id in s.origin
  {
    Chained(TextOf(s.origin[id], kind), Links(s.history, id, kind), TextOf(s.issues[id].fields, kind))
  }

  ghost predicate HistoryOk(s: State) {
    && s.origin.Keys == s.issues.Keys
    && (forall e :: e in s.history ==> e.issue in s.issues)
    && forall id, kind :: id in s.issues && kind != Archived ==> FieldTold(s, id, kind)
  }

  ghost predicate TouchedOk(s: State, states: States) {
    s.touched <= s.issues.Keys && forall id :: id in s.touched ==> Completion(s.issues[id], states)
  }

  ghost predicate Inv(s: State, states: States) {
    BatchesOk(s, states) && HistoryOk(s) && TouchedOk(s, states)
  }

  lemma LockKeepsBatches(s: State, b: nat, states: States)
    requires BatchesOk(s, states) && Enabled(s, Lock(b))
    ensures BatchesOk(After(s, Lock(b), states), states)
  {
    var x := s.batches[b];
    assert BatchOk(s.issues, x, states);
    var y := Locked(s, x);
    assert x.queue[0] in x.queue;
    assert forall q :: q in y.queue ==> q in x.queue;
    forall q | q in y.queue ensures x.queue[0] < q {
      var i :| 0 <= i < |y.queue| && y.queue[i] == q;
      assert x.queue[0] < x.queue[i + 1];
    }
    assert BatchOk(s.issues, y, states);
  }

  lemma StageKeepsBatches(s: State, b: nat, now: int, states: States)
    requires BatchesOk(s, states) && Enabled(s, Stage(b, now))
    ensures BatchesOk(After(s, Stage(b, now), states), states)
  {
    var x := s.batches[b];
    assert BatchOk(s.issues, x, states);
    SameSizeIsSame(x.seen.Keys, x.ids);
    var y := After(s, Stage(b, now), states).batches[b];
    assert forall id :: id in x.ids ==> Live(s.issues, x.workspace, id);
    assert BatchOk(s.issues, y, states);
  }

  /** Only rows the committing batch holds move, and nobody else has read them. */
  lemma CommitKeepsBatches(s: State, b: nat, order: seq<Id>, states: States)
    requires BatchesOk(s, states) && Enabled(s, Commit(b, order)) && SeenAll(s, b)
    ensures BatchesOk(After(s, Commit(b, order), states), states)
  {
    var x, t := s.batches[b], After(s, Commit(b, order), states);
    assert BatchOk(s.issues, x, states);
    forall c | c in t.batches ensures BatchOk(t.issues, t.batches[c], states) {
      var y := s.batches[c];
      assert BatchOk(s.issues, y, states);
      forall id | id in y.seen ensures id !in x.phase.rows {
        assert id in y.held && (id in x.phase.rows ==> id in x.held);
      }
    }
  }

  lemma StepKeepsBatches(s: State, e: Event, states: States)
    requires BatchesOk(s, states) && Enabled(s, e)
    ensures (e.Commit? ==> SeenAll(s, e.b)) && BatchesOk(After(s, e, states), states)
  {
    match e
    case Lock(b) => LockKeepsBatches(s, b, states);
    case Stage(b, now) => StageKeepsBatches(s, b, now, states);
    case Commit(b, order) =>
      assert BatchOk(s.issues, s.batches[b], states);
      CommitKeepsBatches(s, b, order, states);
    case Begin(b, workspace, ids, request, queue) =>
      assert BatchOk(s.issues, After(s, e, states).batches[b], states);
    case Abort(b) =>
    case Create(id, issue) =>
      var t := After(s, e, states);
      forall c | c in t.batches ensures BatchOk(t.issues, t.batches[c], states) {
        assert BatchOk(s.issues, s.batches[c], states);
      }
  }

  /** A commit changes exactly the batch's ids, each into its requested form. */
  lemma CommitIsWhole(s: State, b: nat, order: seq<Id>, states: States)
    requires BatchesOk(s, states) && Enabled(s, Commit(b, order)) && SeenAll(s, b)
    ensures var x, t := s.batches[b], After(s, Commit(b, order), states);
            && WholeBatch(s.issues, t.issues, x.ids, x.request, states, x.phase.now)
            && (forall id :: id in x.ids ==> Live(s.issues, x.workspace, id) && x.seen[id] == s.issues[id].fields)
  {
    assert BatchOk(s.issues, s.batches[b], states);
  }

  lemma ArchiveKeepsFields(issue: Issue, states: States, now: int)
    ensures Changed(issue, Archive, states, now).fields == issue.fields
  {}

  /** A field's history, lengthened by what one commit wrote about it. */
  lemma ToldFurther(origin: Snapshot, history: seq<Entry>, records: seq<Entry>, id: Id, kind: Kind, before: Snapshot, after: Snapshot)
    requires Chained(TextOf(origin, kind), Links(history, id, kind), TextOf(before, kind))
    requires Links(records, id, kind) == Move(id, before, after, kind) || (Links(records, id, kind) == [] && before == after)
    ensures Chained(TextOf(origin, kind), Links(history + records, id, kind), TextOf(after, kind))
  {
    LinksJoin(history, records, id, kind);
    ChainGrows(TextOf(origin, kind), Links(history, id, kind), id, before, after, kind);
    assert Links(history, id, kind) + [] == Links(history, id, kind);
  }

  lemma CommitTells(s: State, b: nat, order: seq<Id>, states: States, id: Id, kind: Kind)
    requires BatchesOk(s, states) && HistoryOk(s) && Enabled(s, Commit(b, order)) && SeenAll(s, b)
    requires id in s.issues && kind != Archived
    ensures id in After(s, Commit(b, order), states).issues && FieldTold(After(s, Commit(b, order), states), id, kind)
  {
    var x, t := s.batches[b], After(s, Commit(b, order), states);
    CommitIsWhole(s, b, order, states);
    assert FieldTold(s, id, kind);
    RecordedLinks(x.request, order, x.seen, x.phase.rows, id, kind);
    ArchiveKeepsFields(s.issues[id], states, x.phase.now);
    RowsAre(s, b, states);
    ToldFurther(s.origin[id], s.history, Recorded(x.request, order, x.seen, x.phase.rows), id, kind, s.issues[id].fields, t.issues[id].fields);
  }

  lemma RowsAre(s: State, b: nat, states: States)
    requires BatchesOk(s, states) && b in s.batches && s.batches[b].phase.Staged?
    ensures var x := s.batches[b];
            x.phase.rows.Keys == x.ids == x.seen.Keys && x.ids <= s.issues.Keys
  {
    assert BatchOk(s.issues, s.batches[b], states);
  }

  lemma {:induction false} RecordedAbout(request: Request, order: seq<Id>, before: map<Id, Snapshot>, after: Table)
    requires forall id :: id in order ==> id in before && id in after
    ensures forall e :: e in Recorded(request, order, before, after) ==> e.issue in order
  {
    if order != [] {
      var n := |order| - 1;
      RecordedAbout(request, order[..n], before, after);
      ChangesAreAbout(KINDS, order[n], before[order[n]], after[order[n]].fields);
    }
  }

  lemma CommitKeepsHistory(s: State, b: nat, order: seq<Id>, states: States)
    requires Inv(s, states) && Enabled(s, Commit(b, order)) && SeenAll(s, b)
    ensures HistoryOk(After(s, Commit(b, order), states))
  {
    var x, t := s.batches[b], After(s, Commit(b, order), states);
    CommitIsWhole(s, b, order, states);
    RecordedAbout(x.request, order, x.seen, x.phase.rows);
    forall id, kind | id in t.issues && kind != Archived ensures FieldTold(t, id, kind) {
      CommitTells(s, b, order, states, id, kind);
    }
  }

  lemma ChangedCompletes(issue: Issue, request: Request, states: States, now: int)
    ensures request.Update? ==> Completion(Changed(issue, request, states, now), states)
    ensures request.Archive? && Completion(issue, states) ==> Completion(Changed(issue, request, states, now), states)
  {}

  lemma CommitKeepsCompletion(s: State, b: nat, order: seq<Id>, states: States)
    requires Inv(s, states) && Enabled(s, Commit(b, order)) && SeenAll(s, b)
    ensures TouchedOk(After(s, Commit(b, order), states), states)
  {
    var x, t := s.batches[b], After(s, Commit(b, order), states);
    CommitIsWhole(s, b, order, states);
    forall id | id in t.touched ensures id in t.issues && Completion(t.issues[id], states) {
      if id in x.ids { ChangedCompletes(s.issues[id], x.request, states, x.phase.now); }
    }
  }

  lemma CreateKeepsHistory(s: State, id: Id, issue: Issue, states: States)
    requires Inv(s, states) && id !in s.issues
    ensures var t := After(s, Create(id, issue), states); HistoryOk(t) && TouchedOk(t, states)
  {
    var t := After(s, Create(id, issue), states);
    forall i, kind | i in t.issues && kind != Archived ensures FieldTold(t, i, kind) {
      if i == id { LinksElsewhere(s.history, id, kind); } else { assert FieldTold(s, i, kind); }
    }
  }

  lemma StepKeepsInv(s: State, e: Event, states: States)
    requires Inv(s, states) && Enabled(s, e)
    ensures (e.Commit? ==> SeenAll(s, e.b)) && Inv(After(s, e, states), states)
  {
    StepKeepsBatches(s, e, states);
    match e
    case Commit(b, order) =>
      CommitKeepsHistory(s, b, order, states);
      CommitKeepsCompletion(s, b, order, states);
    case Create(id, issue) => CreateKeepsHistory(s, id, issue, states);
    case _ =>
      var t := After(s, e, states);
      forall i, kind | i in t.issues && kind != Archived ensures FieldTold(t, i, kind) { assert FieldTold(s, i, kind); }
  }

  // ---------------------------------------------------------------------- runs

  /** The state every run starts from: any issues, nobody writing, no history. */
  function Start(issues: Table): State {
    State(issues, [], map[], map id | id in issues :: issues[id].fields, {})
  }

  lemma StartIsInv(issues: Table, states: States)
    ensures Inv(Start(issues), states)
  {}

  /** The states a run of events passes through. */
  ghost predicate Run(trace: seq<State>, events: seq<Event>, states: States) {
    && |trace| == |events| + 1 && trace[0] == Start(trace[0].issues)
    && forall i :: 0 <= i < |events| ==> Enabled(trace[i], events[i]) && StepTo(trace[i], events[i], trace[i + 1], states)
  }

  ghost predicate StepTo(s: State, e: Event, t: State, states: States)
    requires Enabled(s, e)
  {
    (e.Commit? ==> SeenAll(s, e.b)) && t == After(s, e, states)
  }

  lemma {:induction false} RunsKeepInv(trace: seq<State>, events: seq<Event>, states: States, i: nat)
    requires Run(trace, events, states) && i < |trace|
    ensures Inv(trace[i], states)
  {
    if i == 0 {
      StartIsInv(trace[0].issues, states);
    } else {
      RunsKeepInv(trace, events, states, i - 1);
      assert StepTo(trace[i - 1], events[i - 1], trace[i], states);
      StepKeepsInv(trace[i - 1], events[i - 1], states);
    }
  }

  /** In every run, aborted batches included, the records of every field of every
      issue replay: each starts at the text the one before it ended at, none
      stands still, and the last ends at the value the issue has. */
  lemma HistoryReplays(trace: seq<State>, events: seq<Event>, states: States, i: nat, id: Id, kind: Kind)
    requires Run(trace, events, states) && i < |trace| && id in trace[i].issues && kind != Archived
    ensures id in trace[i].origin
    ensures var links, begun, now := Links(trace[i].history, id, kind), TextOf(trace[i].origin[id], kind), TextOf(trace[i].issues[id].fields, kind);
            && (forall k :: 0 <= k < |links| ==> links[k].from != links[k].to)
            && (forall k :: 0 < k < |links| ==> links[k].from == links[k - 1].to)
            && (if links == [] then begun == now else links[0].from == begun && links[|links| - 1].to == now)
  {
    RunsKeepInv(trace, events, states, i);
    assert FieldTold(trace[i], id, kind);
    ChainMeans(TextOf(trace[i].origin[id], kind), Links(trace[i].history, id, kind), TextOf(trace[i].issues[id].fields, kind));
  }

  /** Every issue an update ever touched has completed_at set exactly when its
      state is terminal. */
  lemma CompletionFollowsState(trace: seq<State>, events: seq<Event>, states: States, i: nat, id: Id)
    requires Run(trace, events, states) && i < |trace| && id in trace[i].touched
    ensures id in trace[i].issues && Completion(trace[i].issues[id], states)
  {
    RunsKeepInv(trace, events, states, i);
  }

  /** A step of a batch changes all the issues it named, each live and in its
      workspace, and no other; or it changes no issue and records nothing. */
  lemma BatchIsAllOrNothing(trace: seq<State>, events: seq<Event>, states: States, i: nat)
    requires Run(trace, events, states) && i < |events| && !events[i].Create?
    ensures var s, t, e := trace[i], trace[i + 1], events[i];
            if e.Commit? then
              var x := s.batches[e.b];
              && x.phase.Staged? && WholeBatch(s.issues, t.issues, x.ids, x.request, states, x.phase.now)
              && (forall id :: id in x.ids ==> Live(s.issues, x.workspace, id))
              && (forall id :: id in s.issues && s.issues[id].workspace != x.workspace ==> t.issues[id] == s.issues[id])
            else t.issues == s.issues && t.history == s.history
  {
    RunsKeepInv(trace, events, states, i);
    assert StepTo(trace[i], events[i], trace[i + 1], states);
    if events[i].Commit? { CommitIsWhole(trace[i], events[i].b, events[i].order, states); }
  }

  // ----------------------------------------------------------------- no deadlock

  /** What an unfinished batch does next, when nothing stands in its way. */
  ghost predicate IsForward(s: State, e: Event, b: nat) {
    match e
    case Lock(c) => c == b
    case Stage(c, _) => c == b
    case Commit(c, _) => c == b
    case Abort(c) => c == b && b in s.batches && MustAbort(s, s.batches[b])
    case _ => false
  }

  /** The count disagrees, or a constraint refuses the write. */
  predicate MustAbort(s: State, x: Batch) {
    && x.phase.Locking? && x.queue == []
    && (|x.seen| != |x.ids| || Refused(s.issues, x.workspace, x.ids, x.request))
  }

  ghost predicate CanGo(s: State, b: nat) {
    exists e :: Enabled(s, e) && IsForward(s, e, b)
  }

  lemma {:induction false} SomeOrder(ids: set<Id>) returns (order: seq<Id>)
    ensures IsOrderOf(order, ids)
  {
    if ids == {} {
      order := [];
    } else {
      var id :| id in ids;
      var rest := SomeOrder(ids - {id});
      order := rest + [id];
    }
  }

  /** Only a lock somebody else holds stops a batch. */
  lemma GoesOrWaits(s: State, b: nat)
    requires b in s.batches
    ensures CanGo(s, b) || (s.batches[b].queue != [] && !Free(s, b, s.batches[b].queue[0]))
  {
    var x := s.batches[b];
    if x.phase.Staged? {
      var order := SomeOrder(x.phase.rows.Keys);
      assert Enabled(s, Commit(b, order)) && IsForward(s, Commit(b, order), b);
    } else if x.queue == [] {
      if MustAbort(s, x) {
        assert Enabled(s, Abort(b)) && IsForward(s, Abort(b), b);
      } else {
        assert Enabled(s, Stage(b, 0)) && IsForward(s, Stage(b, 0), b);
      }
    } else if Free(s, b, x.queue[0]) {
      assert Enabled(s, Lock(b)) && IsForward(s, Lock(b), b);
    }
  }

  /** Somebody can go: follow the waiting from batch to holder; the awaited ids
      only grow, so the chase ends at a batch that waits for nobody. */
  lemma {:induction false} NeverDeadlocked(s: State, states: States, b: nat, bound: nat)
    requires BatchesOk(s, states) && b in s.batches
    requires forall c :: c in s.batches && s.batches[c].queue != [] ==> s.batches[c].queue[0] < bound
    ensures exists c :: c in s.batches && CanGo(s, c)
    decreases bound - if s.batches[b].queue == [] then bound else s.batches[b].queue[0]
  {
    GoesOrWaits(s, b);
    if !CanGo(s, b) {
      var wanted := s.batches[b].queue[0];
      var c :| c in s.batches && c != b && wanted in s.batches[c].held;
      GoesOrWaits(s, c);
      if !CanGo(s, c) {
        assert BatchOk(s.issues, s.batches[c], states);
        assert s.batches[c].queue[0] in s.batches[c].queue;
        NeverDeadlocked(s, states, c, bound);
      }
    }
  }

  lemma SomeMember(bs: set<nat>) returns (b: nat)
    requires bs != {}
    ensures b in bs
  {
    b :| b in bs;
  }

  /** A bound on every awaited id. */
  lemma {:induction false} SomeBound(batches: map<nat, Batch>, bs: set<nat>) returns (bound: nat)
    requires bs <= batches.Keys
    ensures forall c :: c in bs && batches[c].queue != [] ==> batches[c].queue[0] < bound
  {
    if bs == {} {
      bound := 0;
    } else {
      var b := SomeMember(bs);
      bound := SomeBound(batches, bs - {b});
      if batches[b].queue != [] && bound <= batches[b].queue[0] { bound := batches[b].queue[0] + 1; }
    }
  }

  /** In every reachable state with an unfinished batch, some batch can step. */
  lemma RunsNeverDeadlock(trace: seq<State>, events: seq<Event>, states: States, i: nat)
    requires Run(trace, events, states) && i < |trace| && trace[i].batches.Keys != {}
    ensures exists c :: c in trace[i].batches && CanGo(trace[i], c)
  {
    RunsKeepInv(trace, events, states, i);
    var b := SomeMember(trace[i].batches.Keys);
    var bound := SomeBound(trace[i].batches, trace[i].batches.Keys);
    NeverDeadlocked(trace[i], states, b, bound);
  }

  /** How many steps of its own a batch is from its end. */
  function Left(x: Batch): nat { if x.phase.Staged? then 1 else |x.queue| + 2 }

  /** Each such step brings its batch closer to the end and leaves every other
      batch as it is. */
  lemma ForwardIsProgress(s: State, e: Event, b: nat, states: States)
    requires BatchesOk(s, states) && Enabled(s, e) && IsForward(s, e, b)
    ensures e.Commit? ==> SeenAll(s, e.b)
    ensures b in s.batches
    ensures var t := After(s, e, states);
            && t.batches.Keys - {b} == s.batches.Keys - {b}
            && (forall c :: c in t.batches && c != b ==> t.batches[c] == s.batches[c])
            && (b in t.batches ==> Left(t.batches[b]) < Left(s.batches[b]))
  {
    if e.Commit? { CommitIsReady(s, e.b, states); }
  }

  lemma CommitIsReady(s: State, b: nat, states: States)
    requires BatchesOk(s, states) && b in s.batches && s.batches[b].phase.Staged?
    ensures SeenAll(s, b)
  {
    assert BatchOk(s.issues, s.batches[b], states);
  }

  /** How many steps all batches together are from their ends. */
  ghost function AllLeft(batches: map<nat, Batch>, bs: set<nat>): nat
    requires bs <= batches.Keys
    decreases |bs|
  {
    if bs == {} then 0
    else
      var b := Least(bs);
      Left(batches[b]) + AllLeft(batches, bs - {b})
  }

  ghost predicate IsLeast(b: nat, bs: set<nat>) { b in bs && forall c :: c in bs ==> b <= c }

  lemma {:induction false} SomeLeast(bs: set<nat>) returns (least: nat)
    requires bs != {}
    ensures IsLeast(least, bs)
    decreases |bs|
  {
    var b := SomeMember(bs);
    var rest := bs - {b};
    if rest == {} {
      assert bs == {b};
      least := b;
    } else {
      var l := SomeLeast(rest);
      least := if b < l then b else l;
      forall c | c in bs ensures least <= c { assert c == b || c in rest; }
    }
  }

  ghost function Least(bs: set<nat>): (b: nat)
    requires bs != {}
    ensures IsLeast(b, bs)
  {
    assert exists b :: IsLeast(b, bs) by { var l := SomeLeast(bs); }
    var b :| IsLeast(b, bs);
    b
  }

  /** One batch's share can be taken out of the sum. */
  lemma {:induction false} LeftTakenOut(batches: map<nat, Batch>, bs: set<nat>, b: nat)
    requires bs <= batches.Keys && b in bs
    ensures AllLeft(batches, bs) == Left(batches[b]) + AllLeft(batches, bs - {b})
    decreases |bs|
  {
    var l := Least(bs);
    if l != b {
      LeftTakenOut(batches, bs - {l}, b);
      var rest := bs - {b};
      assert l in rest && IsLeast(Least(rest), rest) && IsLeast(l, bs);
      assert (bs - {l}) - {b} == rest - {l};
    }
  }

  lemma {:induction false} LeftElsewhere(a: map<nat, Batch>, b: map<nat, Batch>, bs: set<nat>)
    requires bs <= a.Keys && bs <= b.Keys && forall c :: c in bs ==> a[c] == b[c]
    ensures AllLeft(a, bs) == AllLeft(b, bs)
    decreases |bs|
  {
    if bs != {} { LeftElsewhere(a, b, bs - {Least(bs)}); }
  }

  lemma ForwardShrinks(s: State, e: Event, b: nat, states: States)
    requires BatchesOk(s, states) && Enabled(s, e) && IsForward(s, e, b)
    ensures e.Commit? ==> SeenAll(s, e.b)
    ensures var t := After(s, e, states); AllLeft(t.batches, t.batches.Keys) < AllLeft(s.batches, s.batches.Keys)
  {
    ForwardIsProgress(s, e, b, states);
    var t := After(s, e, states);
    var others := s.batches.Keys - {b};
    LeftTakenOut(s.batches, s.batches.Keys, b);
    LeftElsewhere(s.batches, t.batches, others);
    if b in t.batches {
      LeftTakenOut(t.batches, t.batches.Keys, b);
      assert t.batches.Keys - {b} == others;
    } else {
      assert t.batches.Keys == others;
    }
  }

  /** A run of forward steps only, from `s`. */
  ghost predicate ForwardRun(s: State, trace: seq<State>, events: seq<Event>, states: States) {
    && |trace| == |events| + 1 && trace[0] == s
    && forall i :: 0 <= i < |events| ==> ForwardStep(trace[i], events[i], trace[i + 1], states)
  }

  ghost predicate ForwardStep(s: State, e: Event, t: State, states: States) {
    (exists b :: IsForward(s, e, b)) && Enabled(s, e) && StepTo(s, e, t, states)
  }

  /** From every reachable state the batches at hand can all run to their ends, in
      finitely many steps of their own. */
  lemma {:induction false} AllFinish(s: State, states: States) returns (trace: seq<State>, events: seq<Event>)
    requires BatchesOk(s, states)
    ensures ForwardRun(s, trace, events, states)
    ensures trace[|events|].batches.Keys == {} && |events| <= AllLeft(s.batches, s.batches.Keys)
    decreases AllLeft(s.batches, s.batches.Keys)
  {
    if s.batches.Keys == {} {
      trace, events := [s], [];
    } else {
      var b, e := NextForward(s, states);
      ForwardShrinks(s, e, b, states);
      StepKeepsBatches(s, e, states);
      var t := After(s, e, states);
      var more: seq<State>, rest: seq<Event> := AllFinish(t, states);
      trace, events := [s] + more, [e] + rest;
      assert ForwardStep(s, e, t, states);
      Prepended(s, e, t, more, rest, states);
      assert trace[|events|] == more[|rest|];
    }
  }

  lemma Prepended(s: State, e: Event, t: State, more: seq<State>, rest: seq<Event>, states: States)
    requires ForwardStep(s, e, t, states) && ForwardRun(t, more, rest, states)
    ensures ForwardRun(s, [s] + more, [e] + rest, states)
  {
    var trace, events := [s] + more, [e] + rest;
    forall i | 0 <= i < |events| ensures ForwardStep(trace[i], events[i], trace[i + 1], states) {
      if i > 0 { assert ForwardStep(more[i - 1], rest[i - 1], more[i], states); }
    }
  }

  /** A batch that can go, and its step. */
  lemma NextForward(s: State, states: States) returns (b: nat, e: Event)
    requires BatchesOk(s, states) && s.batches.Keys != {}
    ensures b in s.batches && Enabled(s, e) && IsForward(s, e, b)
  {
    var first := SomeMember(s.batches.Keys);
    var bound := SomeBound(s.batches, s.batches.Keys);
    NeverDeadlocked(s, states, first, bound);
    b :| b in s.batches && CanGo(s, b);
    e :| Enabled(s, e) && IsForward(s, e, b);
  }

  lemma RunsCanFinish(trace: seq<State>, events: seq<Event>, states: States, i: nat) returns (more: seq<State>, rest: seq<Event>)
    requires Run(trace, events, states) && i < |trace|
    ensures ForwardRun(trace[i], more, rest, states) && more[|rest|].batches.Keys == {}
  {
    RunsKeepInv(trace, events, states, i);
    more, rest := AllFinish(trace[i], states);
  }
}
