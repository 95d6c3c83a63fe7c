/** What one write to an issue is worth recording, and how the records of a
    field link up (app/domain/activity.py:85-166; app/repositories/activity.py:49-105). */
module Activity {
  import opened Wrappers
  import opened Decimal
  import opened Cursors

  /** The fields the history compares. */
  datatype Snapshot = Snapshot(title: string, state: Uuid, priority: int,
                               assignee: Option<Uuid>, project: Option<Uuid>, cycle: Option<Uuid>)

  datatype Kind =
    | TitleChanged | StateChanged | PriorityChanged | AssigneeChanged | ProjectChanged | CycleChanged
    | Archived

  /** A row of `issue_activity`. */
  datatype Entry = Entry(issue: nat, kind: Kind, from: Option<string>, to: Option<string>)

  /** The pairs `changes` compares, in its order. */
  const KINDS := [TitleChanged, StateChanged, PriorityChanged, AssigneeChanged, ProjectChanged, CycleChanged]

  function OptionalText(id: Option<Uuid>): Option<string> {
    if id.None? then None else Some(UuidText(id.value))
  }

  /** _text of the field a kind reports on. */
  function TextOf(s: Snapshot, kind: Kind): Option<string> {
    match kind
    case TitleChanged => Some(s.title)
    case StateChanged => Some(UuidText(s.state))
    case PriorityChanged => Some(Numeral(s.priority))
    case AssigneeChanged => OptionalText(s.assignee)
    case ProjectChanged => OptionalText(s.project)
    case CycleChanged => OptionalText(s.cycle)
    case Archived => None
  }

  /** old != new */
  predicate Differ(old_: Snapshot, new_: Snapshot, kind: Kind) {
    match kind
    case TitleChanged => old_.title != new_.title
    case StateChanged => old_.state != new_.state
    case PriorityChanged => old_.priority != new_.priority
    case AssigneeChanged => old_.assignee != new_.assignee
    case ProjectChanged => old_.project != new_.project
    case CycleChanged => old_.cycle != new_.cycle
    case Archived => false
  }

  function ChangesIn(kinds: seq<Kind>, issue: nat, before: Snapshot, after: Snapshot): seq<Entry> {
    if kinds == [] then []
    else
      (if Differ(before, after, kinds[0]) then [Entry(issue, kinds[0], TextOf(before, kinds[0]), TextOf(after, kinds[0]))] else [])
      + ChangesIn(kinds[1..], issue, before, after)
  }

  /** changes(before, after), as the rows they become. */
  function Changes(issue: nat, before: Snapshot, after: Snapshot): seq<Entry> {
    ChangesIn(KINDS, issue, before, after)
  }

  lemma OptionalTextTells(a: Option<Uuid>, b: Option<Uuid>)
    ensures OptionalText(a) == OptionalText(b) <==> a == b
  {
    if a.Some? { UuidReads(a.value); }
    if b.Some? { UuidReads(b.value); }
  }

  /** Comparing values and comparing their texts is the same: a recorded change
      always shows two different texts. */
  lemma DifferInText(before: Snapshot, after: Snapshot, kind: Kind)
    ensures Differ(before, after, kind) <==> TextOf(before, kind) != TextOf(after, kind)
  {
    UuidReads(before.state);
    UuidReads(after.state);
    OptionalTextTells(before.assignee, after.assignee);
    OptionalTextTells(before.project, after.project);
    OptionalTextTells(before.cycle, after.cycle);
    if Numeral(before.priority) == Numeral(after.priority) { NumeralIsInjective(before.priority, after.priority); }
  }

  /** The records of one field of one issue, in write order. */
  function Links(history: seq<Entry>, issue: nat, kind: Kind): seq<Entry> {
    if history == [] then []
    else
      Links(history[..|history| - 1], issue, kind)
      + if history[|history| - 1].issue == issue && history[|history| - 1].kind == kind then [history[|history| - 1]] else []
  }

  lemma {:induction false} LinksJoin(a: seq<Entry>, b: seq<Entry>, issue: nat, kind: Kind)
    ensures Links(a + b, issue, kind) == Links(a, issue, kind) + Links(b, issue, kind)
    decreases |b|
  {
    if b == [] {
      assert a + b == a;
    } else {
      var n := |b| - 1;
      assert (a + b)[..|a + b| - 1] == a + b[..n];
      LinksJoin(a, b[..n], issue, kind);
    }
  }

  lemma LinksOfOne(e: Entry, issue: nat, kind: Kind)
    ensures Links([e], issue, kind) == if e.issue == issue && e.kind == kind then [e] else []
  {
    assert [e][..0] == [];
  }

  lemma {:induction false} LinksElsewhere(history: seq<Entry>, issue: nat, kind: Kind)
    requires forall e :: e in history ==> e.issue != issue || e.kind != kind
    ensures Links(history, issue, kind) == []
  {
    if history != [] { LinksElsewhere(history[..|history| - 1], issue, kind); }
  }

  lemma {:induction false} ChangesAreAbout(kinds: seq<Kind>, issue: nat, before: Snapshot, after: Snapshot)
    ensures forall e :: e in ChangesIn(kinds, issue, before, after) ==> e.issue == issue && e.kind in kinds
  {
    if kinds != [] { ChangesAreAbout(kinds[1..], issue, before, after); }
  }

  predicate NoRepeat(kinds: seq<Kind>) {
    forall i, j :: 0 <= i < j < |kinds| ==> kinds[i] != kinds[j]
  }

  function Move(issue: nat, before: Snapshot, after: Snapshot, kind: Kind): seq<Entry> {
    if Differ(before, after, kind) then [Entry(issue, kind, TextOf(before, kind), TextOf(after, kind))] else []
  }

  lemma {:induction false} ChangesLinkIn(kinds: seq<Kind>, issue: nat, before: Snapshot, after: Snapshot, kind: Kind)
    requires NoRepeat(kinds)
    ensures Links(ChangesIn(kinds, issue, before, after), issue, kind)
            == if kind in kinds then Move(issue, before, after, kind) else []
  {
    if kinds == [] {
    } else {
      var head, rest := Move(issue, before, after, kinds[0]), ChangesIn(kinds[1..], issue, before, after);
      LinksJoin(head, rest, issue, kind);
      if head != [] { LinksOfOne(head[0], issue, kind); }
      ChangesLinkIn(kinds[1..], issue, before, after, kind);
    }
  }

  /** One write records a field once, if it moved, and never otherwise. */
  lemma ChangesLink(issue: nat, before: Snapshot, after: Snapshot, kind: Kind)
    ensures Links(Changes(issue, before, after), issue, kind) == Move(issue, before, after, kind)
  {
    assert NoRepeat(KINDS);
    ChangesLinkIn(KINDS, issue, before, after, kind);
    assert kind != Archived ==> kind in KINDS;
  }

  /** Records that lead from one value to another: each starts where the one
      before it ended, and none stands still. */
  predicate Chained(from: Option<string>, links: seq<Entry>, to: Option<string>) {
    if links == [] then from == to
    else
      var last := links[|links| - 1];
      last.from != last.to && last.to == to && Chained(from, links[..|links| - 1], last.from)
  }

  lemma ChainGrows(from: Option<string>, links: seq<Entry>, issue: nat, before: Snapshot, after: Snapshot, kind: Kind)
    requires Chained(from, links, TextOf(before, kind))
    ensures Chained(from, links + Move(issue, before, after, kind), TextOf(after, kind))
  {
    DifferInText(before, after, kind);
    var move := Move(issue, before, after, kind);
    if move == [] { assert links + move == links; } else { assert (links + move)[..|links|] == links; }
  }

  /** What a chain means: its records in order, from the first value to the last. */
  lemma {:induction false} ChainMeans(from: Option<string>, links: seq<Entry>, to: Option<string>)
    requires Chained(from, links, to)
    ensures forall i :: 0 <= i < |links| ==> links[i].from != links[i].to
    ensures forall i :: 0 < i < |links| ==> links[i].from == links[i - 1].to
    ensures links != [] ==> links[0].from == from && links[|links| - 1].to == to
    ensures links == [] ==> from == to
  {
    if links != [] { ChainMeans(from, links[..|links| - 1], links[|links| - 1].from); }
  }
}
