/** The outbox of domain events and its Slack drainers (app/repositories/events.py:83-106,
    330-458; app/services/notifications.py:81-90, 216-272, 376-434). */
module Outbox {
  import opened Wrappers
  import opened Collections

  const MAX_ATTEMPTS: nat := 5

  /** The primary key: reporting one fact twice names one row. */
  datatype Key = Key(workspace: int, kind: string, dedupe: string)

  /** What the message says, captured when the event is written. */
  datatype Message = Message(subject: string, summary: string, path: string)

  datatype DeliveryState = Pending | Delivered | Failed | Skipped

  datatype Row = Row(message: Message, state: DeliveryState, failure: Option<string>,
                     attempts: nat, nextAttempt: real, deliveredAt: Option<real>)

  type Table = map<Key, Row>

  /** The two states that close an event without a delivery. */
  type Closing = s: DeliveryState | s.Failed? || s.Skipped? witness Failed

  /** How one delivery went. */
  datatype Outcome = Posted | Refused(state: Closing, reason: string) | SlackError(reason: string)

  /** The table's CHECK constraints. */
  predicate Constrained(row: Row) {
    && (row.state.Delivered? <==> row.deliveredAt.Some?)
    && (row.state.Failed? ==> row.failure.Some?)
    && (row.state.Pending? || row.state.Delivered? ==> row.failure.None?)
  }

  // ---------------------------------------------------------------- statements

  /** record_*: ON CONFLICT DO NOTHING. */
  function WithEvent(rows: Table, key: Key, message: Message, now: real): Table {
    if key in rows then rows else rows[key := Row(message, Pending, None, 0, now, None)]
  }

  predicate IsDue(rows: Table, key: Key, now: real) {
    key in rows && rows[key].state.Pending? && rows[key].nextAttempt <= now
  }

  /** ORDER BY slack_next_attempt_at LIMIT 1 FOR UPDATE SKIP LOCKED */
  predicate IsNext(rows: Table, locked: set<Key>, now: real, key: Key) {
    && IsDue(rows, key, now) && key !in locked
    && forall k :: k in rows && IsDue(rows, k, now) && k !in locked ==> rows[key].nextAttempt <= rows[k].nextAttempt
  }

  /** The pause after the n-th claim. */
  function Pause(n: nat, retryDelay: real, backoffSteps: nat): real { retryDelay * Lesser(n, backoffSteps) as real }

  function ClaimedRow(row: Row, now: real, retryDelay: real, backoffSteps: nat): Row {
    row.(attempts := row.attempts + 1, nextAttempt := now + Pause(row.attempts + 1, retryDelay, backoffSteps))
  }

  function DeliveredRow(row: Row, now: real): Row { row.(state := Delivered, deliveredAt := Some(now), failure := None) }

  function ClosedRow(row: Row, state: DeliveryState, failure: string): Row {
    row.(state := state, failure := Some(failure), deliveredAt := None)
  }

  /** What _deliver makes of an outcome: one kind of failure, while attempts are
      left, leaves the row as the claim left it. */
  function Answered(row: Row, attempts: nat, outcome: Outcome, now: real): Row {
    match outcome
    case Posted => DeliveredRow(row, now)
    case Refused(state, reason) => ClosedRow(row, state, reason)
    case SlackError(reason) =>
      if reason == "slack_unreachable" && attempts < MAX_ATTEMPTS then row else ClosedRow(row, Failed, reason)
  }

  /** A claim takes a pending event that is due, held by nobody and due no later
      than any other such event; it counts one attempt more and keeps the event
      from the next claim for as many delays, up to `backoffSteps` of them. */
  ghost predicate ClaimedRight(before: Table, key: Key, row: Row, now: real, retryDelay: real, backoffSteps: nat, locked: set<Key>)
    requires key in before
  {
    var was := before[key];
    && was.state == Pending && was.nextAttempt <= now && key !in locked
    && (forall k :: k in before && k !in locked && before[k].state == Pending && before[k].nextAttempt <= now ==> was.nextAttempt <= before[k].nextAttempt)
    && row.attempts == was.attempts + 1 && row.state == Pending && row.message == was.message
    && row.failure == was.failure && row.deliveredAt == was.deliveredAt
    && row.nextAttempt == now + (if row.attempts <= backoffSteps then row.attempts as real else backoffSteps as real) * retryDelay
  }

  /** What an answer says of its event: delivered at `now`; closed as refused, or
      as failed, with the reason given; or, for a Slack that could not be reached
      with attempts left, nothing. It never touches the message or the schedule. */
  predicate AnsweredRight(was: Row, row: Row, attempts: nat, outcome: Outcome, now: real) {
    && row.message == was.message && row.attempts == was.attempts && row.nextAttempt == was.nextAttempt
    && match outcome
       case Posted => row.state == Delivered && row.deliveredAt == Some(now) && row.failure == None
       case Refused(state, reason) => row.state == state && row.failure == Some(reason) && row.deliveredAt == None
       case SlackError(reason) =>
         if reason == "slack_unreachable" && attempts < 5 then row == was
         else row.state == Failed && row.failure == Some(reason) && row.deliveredAt == None
  }

  predicate AllConstrained(rows: Table) { forall key :: key in rows ==> Constrained(rows[key]) }

  /** Nothing but the row at `key` differs. */
  predicate OnlyAt(before: Table, after: Table, key: Key) {
    before.Keys - {key} == after.Keys - {key} && forall k :: k in before && k in after && k != key ==> after[k] == before[k]
  }

  lemma {:induction false} SomeNext(rows: Table, locked: set<Key>, now: real, due: set<Key>)
    requires due != {} && due == set k | k in rows && IsDue(rows, k, now) && k !in locked
    ensures exists key :: IsNext(rows, locked, now, key)
  {
    var key := Earliest(rows, due);
    assert IsNext(rows, locked, now, key);
  }

  lemma {:induction false} Earliest(rows: Table, due: set<Key>) returns (key: Key)
    requires due != {} && due <= rows.Keys
    ensures key in due && forall k :: k in due ==> rows[key].nextAttempt <= rows[k].nextAttempt
    decreases due
  {
    key :| key in due;
    if due != {key} {
      var other := Earliest(rows, due - {key});
      if rows[other].nextAttempt < rows[key].nextAttempt { key := other; }
    }
  }

  lemma OneRowWritten(before: Table, after: Table, key: Key)
    requires OnlyAt(before, after, key) && key in before && key in after
    ensures after == before[key := after[key]]
  {
    forall k ensures k in after <==> k in before {
      assert k != key ==> (k in after.Keys - {key} <==> k in before.Keys - {key});
    }
  }

  class EventTable {
    var rows: Table

    ghost predicate Valid()
      reads this
    {
      AllConstrained(rows)
    }

    constructor ()
      ensures Valid() && rows == map[]
    {
      rows := map[];
    }

    /** A fact already written is left alone; a new one is due from now on. */
    method Record(key: Key, message: Message, now: real)
      requires Valid()
      modifies this
      ensures Valid()
      ensures key in old(rows) ==> rows == old(rows)
      ensures key !in old(rows) ==>
                && OnlyAt(old(rows), rows, key) && key in rows
                && rows[key].message == message && rows[key].attempts == 0
                && forall t: real :: IsDue(rows, key, t) <==> now <= t
    {
      if key !in rows { rows := rows[key := Row(message, Pending, None, 0, now, None)]; }
    }

    /** `locked` are the rows other claims hold at this moment. */
    method ClaimNext(now: real, retryDelay: real, backoffSteps: nat, locked: set<Key>) returns (r: Option<(Key, Row)>)
      requires Valid()
      modifies this
      ensures Valid()
      ensures r.None? <==> forall k :: k in old(rows) ==> !IsDue(old(rows), k, now) || k in locked
      ensures r.None? ==> rows == old(rows)
      ensures r.Some? ==>
                && IsNext(old(rows), locked, now, r.value.0)
                && r.value.1 == ClaimedRow(old(rows)[r.value.0], now, retryDelay, backoffSteps)
                && ClaimedRight(old(rows), r.value.0, r.value.1, now, retryDelay, backoffSteps, locked)
                && rows == old(rows)[r.value.0 := r.value.1]
    {
      var due := set k | k in rows && IsDue(rows, k, now) && k !in locked;
      if due == {} {
        assert forall k :: k in rows && IsDue(rows, k, now) && k !in locked ==> k in due;
        return None;
      }
      SomeNext(rows, locked, now, due);
      var key :| key in rows && IsNext(rows, locked, now, key);
      var row := ClaimedRow(rows[key], now, retryDelay, backoffSteps);
      rows := rows[key := row];
      return Some((key, row));
    }

    /** The event is closed for good, its message and attempts as they were. */
    method MarkDelivered(key: Key, now: real)
      requires Valid()
      modifies this
      ensures Valid()
      ensures key !in old(rows) ==> rows == old(rows)
      ensures key in old(rows) ==>
                && OnlyAt(old(rows), rows, key) && key in rows
                && rows[key].state.Delivered? && rows[key].deliveredAt == Some(now)
                && rows[key].message == old(rows)[key].message && rows[key].attempts == old(rows)[key].attempts
                && rows[key].nextAttempt == old(rows)[key].nextAttempt
                && forall t: real :: !IsDue(rows, key, t)
    {
      if key in rows { rows := rows[key := rows[key].(state := Delivered, deliveredAt := Some(now), failure := None)]; }
    }

    /** The event is closed for good with a reason. A state that is no closing is
        refused by the table's own constraints. */
    method MarkNotDelivered(key: Key, state: DeliveryState, failure: string) returns (refused: bool)
      requires Valid()
      modifies this
      ensures Valid()
      ensures refused <==> key in old(rows) && (state.Pending? || state.Delivered?)
      ensures refused || key !in old(rows) ==> rows == old(rows)
      ensures !refused && key in old(rows) ==>
                && OnlyAt(old(rows), rows, key) && key in rows
                && rows[key].state == state && rows[key].failure == Some(failure)
                && rows[key].message == old(rows)[key].message && rows[key].attempts == old(rows)[key].attempts
                && rows[key].nextAttempt == old(rows)[key].nextAttempt
                && forall t: real :: !IsDue(rows, key, t)
    {
      refused := false;
      if key in rows {
        var row := rows[key].(state := state, failure := Some(failure), deliveredAt := None);
        if Constrained(row) { rows := rows[key := row]; } else { refused := true; }
      }
    }

    /** The write after one attempt; true when Slack took the message. */
    method Finish(key: Key, attempts: nat, outcome: Outcome, now: real) returns (delivered: bool)
      requires Valid()
      modifies this
      ensures Valid()
      ensures rows == if key in old(rows) then old(rows)[key := Answered(old(rows)[key], attempts, outcome, now)] else old(rows)
      ensures key in old(rows) ==> key in rows && OnlyAt(old(rows), rows, key) && AnsweredRight(old(rows)[key], rows[key], attempts, outcome, now)
      ensures delivered == outcome.Posted?
    {
      ghost var before := rows;
      var refused := false;
      match outcome {
        case Posted =>
          MarkDelivered(key, now);
        case Refused(state, reason) =>
          refused := MarkNotDelivered(key, state, reason);
        case SlackError(reason) =>
          // left pending while attempts are left: the claim has already pushed the next one out
          if reason != "slack_unreachable" || attempts >= MAX_ATTEMPTS {
            refused := MarkNotDelivered(key, Failed, reason);
          }
      }
      assert key in before ==> rows[key] == Answered(before[key], attempts, outcome, now);
      if key in before { OneRowWritten(before, rows, key); }
      delivered := outcome.Posted?;
    }
  }

  // ---------------------------------------------------------------------- runs

  /** Steps of any number of writers and drainers. A drainer may die after its
      claim, and its answer may come late. */
  datatype Event =
    | Record(key: Key, message: Message, now: real)
    | Claim(key: Key, now: real)
    | Answer(key: Key, attempts: nat, outcome: Outcome, now: real)

  predicate Enabled(rows: Table, e: Event) {
    match e
    case Record(_, _, _) => true
    case Claim(key, now) => IsDue(rows, key, now)
    case Answer(key, attempts, _, _) => key in rows && attempts <= rows[key].attempts
  }

  function After(rows: Table, e: Event, retryDelay: real, backoffSteps: nat): Table
    requires Enabled(rows, e)
  {
    match e
    case Record(key, message, now) => WithEvent(rows, key, message, now)
    case Claim(key, now) => rows[key := ClaimedRow(rows[key], now, retryDelay, backoffSteps)]
    case Answer(key, attempts, outcome, now) => rows[key := Answered(rows[key], attempts, outcome, now)]
  }

  ghost predicate Steps(rows: Table, e: Event, rows': Table, retryDelay: real, backoffSteps: nat) {
    Enabled(rows, e) && rows' == After(rows, e, retryDelay, backoffSteps)
  }

  ghost predicate Run(trace: seq<Table>, events: seq<Event>, retryDelay: real, backoffSteps: nat) {
    && |trace| == |events| + 1 && trace[0] == map[]
    && forall i :: 0 <= i < |events| ==> Steps(trace[i], events[i], trace[i + 1], retryDelay, backoffSteps)
  }

  /** When a key was claimed. */
  function ClaimTimes(events: seq<Event>, key: Key): seq<real> {
    if events == [] then []
    else
      var e := events[|events| - 1];
      ClaimTimes(events[..|events| - 1], key) + if e.Claim? && e.key == key then [e.now] else []
  }

  /** The pauses after the first n claims, added up. */
  function Pauses(n: nat, retryDelay: real, backoffSteps: nat): real {
    if n == 0 then 0.0 else Pauses(n - 1, retryDelay, backoffSteps) + Pause(n, retryDelay, backoffSteps)
  }

  /** 1 + 2 + ... + n, each term cut off at the number of backoff steps. */
  function CutSum(n: nat, backoffSteps: nat): nat {
    if n == 0 then 0 else CutSum(n - 1, backoffSteps) + Lesser(n, backoffSteps)
  }

  lemma {:induction false} PausesAddUp(n: nat, retryDelay: real, backoffSteps: nat)
    ensures Pauses(n, retryDelay, backoffSteps) == retryDelay * CutSum(n, backoffSteps) as real
  {
    if n > 0 {
      PausesAddUp(n - 1, retryDelay, backoffSteps);
      AddPause(retryDelay, CutSum(n - 1, backoffSteps), Lesser(n, backoffSteps));
    }
  }

  lemma AddPause(d: real, a: nat, b: nat)
    ensures d * (a + b) as real == d * a as real + d * b as real
  {
    Spread(d, a as real, b as real);
    assert (a + b) as real == a as real + b as real;
  }

  lemma Spread(d: real, a: real, b: real)
    ensures d * (a + b) == d * a + d * b
  {}

  ghost predicate Paced(times: seq<real>, retryDelay: real, backoffSteps: nat) {
    forall i :: 0 <= i < |times| ==> times[i] >= times[0] + Pauses(i, retryDelay, backoffSteps)
  }

  /** A row remembers its claims: how many, and when the next may come. */
  ghost predicate Remembers(row: Row, times: seq<real>, retryDelay: real, backoffSteps: nat) {
    && Constrained(row)
    && row.attempts == |times|
    && Paced(times, retryDelay, backoffSteps)
    && (times != [] ==> row.nextAttempt == times[|times| - 1] + Pause(|times|, retryDelay, backoffSteps))
  }

  lemma ClaimIsPaced(row: Row, times: seq<real>, now: real, retryDelay: real, backoffSteps: nat)
    requires Remembers(row, times, retryDelay, backoffSteps) && row.state.Pending? && row.nextAttempt <= now
    ensures Remembers(ClaimedRow(row, now, retryDelay, backoffSteps), times + [now], retryDelay, backoffSteps)
  {
    var n, longer := |times|, times + [now];
    forall i | 0 <= i < |longer| ensures longer[i] >= longer[0] + Pauses(i, retryDelay, backoffSteps) {
      if i < n {
        assert longer[i] == times[i] && longer[0] == times[0];
      } else if n > 0 {
        assert times[n - 1] >= times[0] + Pauses(n - 1, retryDelay, backoffSteps);
      }
    }
  }

  lemma AnswerRemembers(row: Row, attempts: nat, outcome: Outcome, now: real, times: seq<real>, retryDelay: real, backoffSteps: nat)
    requires Remembers(row, times, retryDelay, backoffSteps)
    ensures Remembers(Answered(row, attempts, outcome, now), times, retryDelay, backoffSteps)
  {}

  lemma {:induction false} RunsRemember(trace: seq<Table>, events: seq<Event>, retryDelay: real, backoffSteps: nat, i: nat, key: Key)
    requires Run(trace, events, retryDelay, backoffSteps) && i < |trace|
    ensures key in trace[i] ==> Remembers(trace[i][key], ClaimTimes(events[..i], key), retryDelay, backoffSteps)
    ensures key !in trace[i] ==> ClaimTimes(events[..i], key) == []
  {
    if i > 0 {
      RunsRemember(trace, events, retryDelay, backoffSteps, i - 1, key);
      var e, times := events[i - 1], ClaimTimes(events[..i - 1], key);
      assert Steps(trace[i - 1], e, trace[i], retryDelay, backoffSteps);
      assert events[..i][..i - 1] == events[..i - 1];
      if e.key == key {
        match e
        case Claim(_, now) => ClaimIsPaced(trace[i - 1][key], times, now, retryDelay, backoffSteps);
        case Answer(_, attempts, outcome, now) =>
          AnswerRemembers(trace[i - 1][key], attempts, outcome, now, times, retryDelay, backoffSteps);
        case Record(_, _, _) =>
      }
    }
  }

  /** However many processes drain, and whichever of them die: the n-th claim of
      an event comes no sooner after its first than the backoff adds up to. */
  lemma RetriesArePaced(trace: seq<Table>, events: seq<Event>, retryDelay: real, backoffSteps: nat, key: Key, n: nat)
    requires Run(trace, events, retryDelay, backoffSteps) && n < |ClaimTimes(events, key)|
    ensures var times := ClaimTimes(events, key);
            times[n] >= times[0] + retryDelay * CutSum(n, backoffSteps) as real
    ensures key in trace[|events|] && trace[|events|][key].attempts == |ClaimTimes(events, key)|
  {
    RunsRemember(trace, events, retryDelay, backoffSteps, |events|, key);
    assert events[..|events|] == events;
    PausesAddUp(n, retryDelay, backoffSteps);
  }

  lemma ClosedStays(rows: Table, e: Event, retryDelay: real, backoffSteps: nat, key: Key)
    requires Enabled(rows, e) && key in rows && !rows[key].state.Pending?
    ensures key in After(rows, e, retryDelay, backoffSteps) && !After(rows, e, retryDelay, backoffSteps)[key].state.Pending?
    ensures !(e.Claim? && e.key == key)
  {}

  /** An event once delivered, failed or skipped is never taken again. */
  lemma {:induction false} ClosedIsNeverClaimed(trace: seq<Table>, events: seq<Event>, retryDelay: real, backoffSteps: nat, i: nat, j: nat, key: Key)
    requires Run(trace, events, retryDelay, backoffSteps) && i <= j < |trace| && key in trace[i] && !trace[i][key].state.Pending?
    ensures key in trace[j] && !trace[j][key].state.Pending?
    ensures j < |events| ==> !(events[j].Claim? && events[j].key == key)
  {
    if i < j {
      ClosedIsNeverClaimed(trace, events, retryDelay, backoffSteps, i, j - 1, key);
      assert Steps(trace[j - 1], events[j - 1], trace[j], retryDelay, backoffSteps);
      ClosedStays(trace[j - 1], events[j - 1], retryDelay, backoffSteps, key);
    }
    if j < |events| {
      assert Steps(trace[j], events[j], trace[j + 1], retryDelay, backoffSteps);
      ClosedStays(trace[j], events[j], retryDelay, backoffSteps, key);
    }
  }

  /** Reporting a fact again changes nothing: the message stays what it was when
      the event was first written, and no attempt is forgotten. */
  lemma {:induction false} FirstReportStands(trace: seq<Table>, events: seq<Event>, retryDelay: real, backoffSteps: nat, i: nat, j: nat, key: Key)
    requires Run(trace, events, retryDelay, backoffSteps) && i <= j < |trace| && key in trace[i]
    ensures key in trace[j] && trace[j][key].message == trace[i][key].message && trace[j][key].attempts >= trace[i][key].attempts
  {
    if i < j {
      FirstReportStands(trace, events, retryDelay, backoffSteps, i, j - 1, key);
      assert Steps(trace[j - 1], events[j - 1], trace[j], retryDelay, backoffSteps);
    }
  }

  // ------------------------------------------------------------ bounded retries

  /** An answer that ends an event: any but an unreachable Slack with attempts left. */
  predicate Closes(e: Event, key: Key) {
    && e.Answer? && e.key == key
    && (e.outcome.SlackError? && e.outcome.reason == "slack_unreachable" ==> e.attempts >= MAX_ATTEMPTS)
  }

  ghost predicate Closed(events: seq<Event>, key: Key) {
    exists i :: 0 <= i < |events| && Closes(events[i], key)
  }

  lemma ClosedStep(events: seq<Event>, i: nat, key: Key)
    requires 0 < i <= |events|
    ensures Closed(events[..i], key) <==> Closed(events[..i - 1], key) || Closes(events[i - 1], key)
  {
    var longer, shorter := events[..i], events[..i - 1];
    if Closed(longer, key) {
      var j :| 0 <= j < i && Closes(longer[j], key);
      if j < i - 1 { assert Closes(shorter[j], key); }
    }
    if Closed(shorter, key) {
      var j :| 0 <= j < i - 1 && Closes(shorter[j], key);
      assert Closes(longer[j], key);
    }
    if Closes(events[i - 1], key) { assert Closes(longer[i - 1], key); }
  }

  /** An event is pending exactly until its first closing answer. */
  lemma {:induction false} PendingUntilClosed(trace: seq<Table>, events: seq<Event>, retryDelay: real, backoffSteps: nat, i: nat, key: Key)
    requires Run(trace, events, retryDelay, backoffSteps) && i < |trace|
    ensures key in trace[i] ==> (trace[i][key].state.Pending? <==> !Closed(events[..i], key))
    ensures key !in trace[i] ==> !Closed(events[..i], key)
  {
    if i > 0 {
      var e := events[i - 1];
      PendingUntilClosed(trace, events, retryDelay, backoffSteps, i - 1, key);
      assert Steps(trace[i - 1], e, trace[i], retryDelay, backoffSteps);
      ClosedStep(events, i, key);
    }
  }

  /** A claim can be taken once MAX_ATTEMPTS were spent exactly when the event is
      due again and no answer has closed it -- so when every drainer of it died,
      or is late, on its last attempt and each one after. */
  lemma ClaimedBeyondBoundIff(trace: seq<Table>, events: seq<Event>, retryDelay: real, backoffSteps: nat, i: nat, key: Key, now: real)
    requires Run(trace, events, retryDelay, backoffSteps) && i < |trace|
    ensures Enabled(trace[i], Claim(key, now)) && trace[i][key].attempts >= MAX_ATTEMPTS <==>
            && key in trace[i] && |ClaimTimes(events[..i], key)| >= MAX_ATTEMPTS
            && trace[i][key].nextAttempt <= now && !Closed(events[..i], key)
  {
    RunsRemember(trace, events, retryDelay, backoffSteps, i, key);
    PendingUntilClosed(trace, events, retryDelay, backoffSteps, i, key);
  }

  lemma Extended(trace: seq<Table>, events: seq<Event>, e: Event, retryDelay: real, backoffSteps: nat)
    requires Run(trace, events, retryDelay, backoffSteps) && Enabled(trace[|events|], e)
    ensures Run(trace + [After(trace[|events|], e, retryDelay, backoffSteps)], events + [e], retryDelay, backoffSteps)
  {
    var n, longer := |events|, trace + [After(trace[|events|], e, retryDelay, backoffSteps)];
    forall i | 0 <= i <= n ensures Steps(longer[i], (events + [e])[i], longer[i + 1], retryDelay, backoffSteps) {
      if i < n { assert Steps(trace[i], events[i], trace[i + 1], retryDelay, backoffSteps); }
    }
  }

  /** Counting attempts when they are claimed does not bound them: drainers that
      die after every claim take one event any number of times. */
  lemma {:induction false} ClaimedAnyNumberOfTimes(key: Key, message: Message, retryDelay: real, backoffSteps: nat, n: nat)
    returns (trace: seq<Table>, events: seq<Event>)
    ensures Run(trace, events, retryDelay, backoffSteps) && |ClaimTimes(events, key)| == n
    ensures key in trace[|events|] && trace[|events|][key].state.Pending?
  {
    if n == 0 {
      trace, events := [map[]], [];
      Extended(trace, events, Record(key, message, 0.0), retryDelay, backoffSteps);
      trace, events := trace + [After(map[], Record(key, message, 0.0), retryDelay, backoffSteps)], [Record(key, message, 0.0)];
      assert [] + events == events && events[..0] == [];
    } else {
      var t: seq<Table>, es: seq<Event> := ClaimedAnyNumberOfTimes(key, message, retryDelay, backoffSteps, n - 1);
      var e := Claim(key, t[|es|][key].nextAttempt);
      Extended(t, es, e, retryDelay, backoffSteps);
      trace, events := t + [After(t[|es|], e, retryDelay, backoffSteps)], es + [e];
      assert events[..|es|] == es;
    }
  }

  /** A claim of the key that nobody has answered yet. */
  predicate Unanswered(events: seq<Event>, key: Key) {
    if events == [] then false
    else
      var e := events[|events| - 1];
      if e.key == key && e.Claim? then true
      else if e.key == key && e.Answer? then false
      else Unanswered(events[..|events| - 1], key)
  }

  /** No drainer of this key dies or is overtaken: every claim is answered, for
      the attempt it was, before the next. */
  ghost predicate Orderly(trace: seq<Table>, events: seq<Event>, key: Key)
    requires |trace| == |events| + 1
  {
    forall i :: 0 <= i < |events| && events[i].key == key ==>
      && (events[i].Claim? ==> !Unanswered(events[..i], key))
      && (events[i].Answer? ==> key in trace[i] && events[i].attempts == trace[i][key].attempts)
  }

  lemma {:induction false} LastAttemptCloses(trace: seq<Table>, events: seq<Event>, retryDelay: real, backoffSteps: nat, i: nat, key: Key)
    requires Run(trace, events, retryDelay, backoffSteps) && Orderly(trace, events, key) && i < |trace| && key in trace[i]
    ensures trace[i][key].attempts <= MAX_ATTEMPTS
    ensures trace[i][key].attempts == MAX_ATTEMPTS && !Unanswered(events[..i], key) ==> !trace[i][key].state.Pending?
  {
    if i > 0 {
      var e := events[i - 1];
      assert Steps(trace[i - 1], e, trace[i], retryDelay, backoffSteps);
      assert events[..i][..i - 1] == events[..i - 1];
      if key in trace[i - 1] { LastAttemptCloses(trace, events, retryDelay, backoffSteps, i - 1, key); }
    }
  }

  /** So an event whose drainers all live to answer in turn is tried at most
      MAX_ATTEMPTS times. */
  lemma RetriesAreBounded(trace: seq<Table>, events: seq<Event>, retryDelay: real, backoffSteps: nat, key: Key)
    requires Run(trace, events, retryDelay, backoffSteps) && Orderly(trace, events, key)
    ensures |ClaimTimes(events, key)| <= MAX_ATTEMPTS
  {
    RunsRemember(trace, events, retryDelay, backoffSteps, |events|, key);
    assert events[..|events|] == events;
    if key in trace[|events|] { LastAttemptCloses(trace, events, retryDelay, backoffSteps, |events|, key); }
  }

  /** In general: every attempt from the last allowed one on, if another claim
      follows it, was never answered before that claim. */
  lemma AttemptsBeyondBoundWereLost(trace: seq<Table>, events: seq<Event>, retryDelay: real, backoffSteps: nat, i: nat, j: nat, key: Key)
    requires Run(trace, events, retryDelay, backoffSteps) && i < j < |events| && events[j].Claim? && events[j].key == key
    requires events[i].Answer? && events[i].key == key
    ensures events[i].attempts < MAX_ATTEMPTS
    ensures events[i].outcome == SlackError("slack_unreachable")
  {
    PendingUntilClosed(trace, events, retryDelay, backoffSteps, j, key);
    assert Steps(trace[j], events[j], trace[j + 1], retryDelay, backoffSteps);
    assert events[..j][i] == events[i];
    assert !Closes(events[i], key);
  }
}
