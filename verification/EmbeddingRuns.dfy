/** Every interleaving of edits, sweeps and any number of workers, late, crashed or
    duplicated, one SQL statement at a time (app/repositories/embedding_jobs.py:51-338;
    app/repositories/embeddings.py:39-175; app/services/embedding_jobs.py:113-183, 272-333). */
module EmbeddingRuns {
  import opened Wrappers
  import opened EmbeddingQueue

  /** The embedding a model gives a text. */
  type Model<V> = (string, string) -> V

  /** The tables, every text anybody has ever read and might still write a vector
      for, and the claims that workers have not reported on, once for each claim. */
  datatype World<V> = World(db: State<V>, read: set<Source>, claimed: multiset<Source>)

  datatype Event =
    | File(key: Key, issue: Issue)
    | Edit(key: Key, title: string, description: Option<string>)
    | SetArchived(key: Key, archived: bool)
    | Delete(key: Key)
    | Enqueue(model: string, limit: nat, now: real, picked: set<Key>)
    | Claim(limit: nat, now: real, lease: real, locked: set<Key>, picked: set<Key>)
    | Read(key: Key)
    | Upsert(model: string, source: Source)
    | Complete(source: Source)
    | Fail(source: Source, now: real, error: string, retryAfter: real)

  predicate Enabled<V>(w: World<V>, e: Event, md5: Md5) {
    match e
    case File(key, _) => key !in w.db.issues
    case Edit(key, _, _) => key in w.db.issues
    case SetArchived(key, _) => key in w.db.issues
    // a stored vector keeps its issue from being deleted
    case Delete(key) => key in w.db.issues && key !in w.db.rows
    case Enqueue(model, limit, now, picked) => IsSweep(w.db, md5, model, limit, picked)
    case Claim(limit, now, lease, locked, picked) => IsClaim(w.db, limit, now, locked, picked)
    case Read(key) => Live(w.db, key)
    // what was once read may be written however late, and any number of times
    case Upsert(_, source) => source in w.read
    // a worker reports once on each job it claimed, or never
    case Fail(source, _, _, _) => source in w.claimed
    case Complete(source) => source in w.claimed
  }

  function After<V>(w: World<V>, e: Event, md5: Md5, embed: Model<V>): World<V>
    requires Enabled(w, e, md5)
  {
    var s := w.db;
    match e
    case File(key, issue) => w.(db := s.(issues := s.issues[key := issue]))
    case Edit(key, title, description) =>
      w.(db := s.(issues := s.issues[key := s.issues[key].(title := title, description := description)]))
    case SetArchived(key, archived) => w.(db := s.(issues := s.issues[key := s.issues[key].(archived := archived)]))
    case Delete(key) => w.(db := s.(issues := s.issues - {key}, jobs := s.jobs - {key}))
    case Enqueue(_, _, now, picked) => w.(db := Enqueued(s, md5, now, picked))
    case Claim(_, now, lease, _, picked) =>
      var sources := set key | key in picked :: SourceOf(s, md5, key);
      World(Claimed(s, now, lease, picked), w.read + sources, w.claimed + multiset(sources))
    case Read(key) => w.(read := w.read + {SourceOf(s, md5, key)})
    case Upsert(model, source) =>
      w.(db := Upserted(s, md5, model, source, embed(model, TextOf(source.title, source.description))))
    // neither statement names the text the worker had read, only its issue
    case Complete(source) => w.(db := Completed(s, source.key), claimed := w.claimed - multiset{source})
    case Fail(source, now, error, retryAfter) =>
      w.(db := Failed(s, source.key, now, error, MAX_ATTEMPTS, retryAfter), claimed := w.claimed - multiset{source})
  }

  // ---------------------------------------------------------------------- runs

  function Start<V>(issues: map<Key, Issue>): World<V> { World(State(issues, map[], map[]), {}, multiset{}) }

  ghost predicate Steps<V(!new)>(w: World<V>, e: Event, w': World<V>, md5: Md5, embed: Model<V>) {
    Enabled(w, e, md5) && w' == After(w, e, md5, embed)
  }

  ghost predicate Run<V(!new)>(trace: seq<World<V>>, events: seq<Event>, md5: Md5, embed: Model<V>) {
    && |trace| == |events| + 1 && trace[0] == Start(trace[0].db.issues)
    && forall i :: 0 <= i < |events| ==> Steps(trace[i], events[i], trace[i + 1], md5, embed)
  }

  lemma Extended<V(!new)>(trace: seq<World<V>>, events: seq<Event>, e: Event, md5: Md5, embed: Model<V>)
    requires Run(trace, events, md5, embed) && Enabled(trace[|events|], e, md5)
    ensures Run(trace + [After(trace[|events|], e, md5, embed)], events + [e], md5, embed)
  {
    var n, longer := |events|, trace + [After(trace[|events|], e, md5, embed)];
    forall i | 0 <= i <= n ensures Steps(longer[i], (events + [e])[i], longer[i + 1], md5, embed) {
      if i < n { assert Steps(trace[i], events[i], trace[i + 1], md5, embed); }
    }
  }

  /** A run and one event more. */
  lemma Extend<V(!new)>(trace: seq<World<V>>, events: seq<Event>, e: Event, md5: Md5, embed: Model<V>)
    returns (longer: seq<World<V>>, more: seq<Event>)
    requires Run(trace, events, md5, embed) && Enabled(trace[|events|], e, md5)
    ensures Run(longer, more, md5, embed) && more == events + [e] && more[..|events|] == events
    ensures longer[|more|] == After(trace[|events|], e, md5, embed)
  {
    Extended(trace, events, e, md5, embed);
    longer, more := trace + [After(trace[|events|], e, md5, embed)], events + [e];
  }

  // ------------------------------------------------------------- texts of a run

  /** A title and a description, as the digest reads them. */
  predicate Among(title: string, description: Option<string>, texts: set<string>) {
    title in texts && Coalesced(description) in texts
  }

  function IssueTexts(issues: map<Key, Issue>): set<string> {
    (set key | key in issues :: issues[key].title) + set key | key in issues :: Coalesced(issues[key].description)
  }

  function EventTexts(events: seq<Event>): set<string> {
    if events == [] then {}
    else
      EventTexts(events[..|events| - 1]) + match events[|events| - 1]
        case File(_, issue) => {issue.title, Coalesced(issue.description)}
        case Edit(_, title, description) => {title, Coalesced(description)}
        case _ => {}
  }

  /** Every title and description any issue has in the run: finitely many. */
  function RunTexts(issues: map<Key, Issue>, events: seq<Event>): set<string> { IssueTexts(issues) + EventTexts(events) }

  ghost predicate Brings(e: Event, texts: set<string>) {
    match e
    case File(_, issue) => Among(issue.title, issue.description, texts)
    case Edit(_, title, description) => Among(title, description, texts)
    case _ => true
  }

  lemma {:induction false} EventsBring(events: seq<Event>, i: nat)
    requires i < |events|
    ensures Brings(events[i], EventTexts(events))
  {
    if i < |events| - 1 { EventsBring(events[..|events| - 1], i); }
  }

  // ---------------------------------------------------------------- invariants

  ghost predicate Honest(source: Source, md5: Md5, texts: set<string>) {
    source.digest == Digest(md5, source.title, source.description) && Among(source.title, source.description, texts)
  }

  /** A vector is the embedding of some text of the run that has its digest. */
  ghost predicate Faithful<V(!new)>(row: Row<V>, md5: Md5, embed: Model<V>, texts: set<string>) {
    exists title, description ::
      && Among(title, description, texts) && Digest(md5, title, description) == row.digest
      && row.vector == embed(row.model, TextOf(title, description))
  }

  ghost predicate RetiredRight(job: Job) { job.due.Infinity? <==> job.attempts >= MAX_ATTEMPTS }

  ghost predicate TextsKnown<V(!new)>(w: World<V>, md5: Md5, texts: set<string>) {
    && (forall key :: key in w.db.issues ==> Among(w.db.issues[key].title, w.db.issues[key].description, texts))
    && (forall r :: r in w.read ==> Honest(r, md5, texts))
  }

  ghost predicate RowsFaithful<V(!new)>(w: World<V>, md5: Md5, embed: Model<V>, texts: set<string>) {
    forall key :: key in w.db.rows ==> key in w.db.issues && Faithful(w.db.rows[key], md5, embed, texts)
  }

  ghost predicate JobsRight<V(!new)>(w: World<V>) {
    forall key :: key in w.db.jobs ==> key in w.db.issues && RetiredRight(w.db.jobs[key])
  }

  ghost predicate Inv<V(!new)>(w: World<V>, md5: Md5, embed: Model<V>, texts: set<string>) {
    TextsKnown(w, md5, texts) && RowsFaithful(w, md5, embed, texts) && JobsRight(w)
  }

  lemma StepKeepsTexts<V(!new)>(w: World<V>, e: Event, md5: Md5, embed: Model<V>, texts: set<string>)
    requires TextsKnown(w, md5, texts) && Enabled(w, e, md5) && Brings(e, texts)
    ensures TextsKnown(After(w, e, md5, embed), md5, texts)
  {}

  lemma StepKeepsRows<V(!new)>(w: World<V>, e: Event, md5: Md5, embed: Model<V>, texts: set<string>)
    requires TextsKnown(w, md5, texts) && RowsFaithful(w, md5, embed, texts) && Enabled(w, e, md5)
    ensures RowsFaithful(After(w, e, md5, embed), md5, embed, texts)
  {
    if e.Upsert? {
      var source := e.source;
      assert Honest(source, md5, texts);
      assert Faithful(Row(e.model, source.digest, embed(e.model, TextOf(source.title, source.description))), md5, embed, texts);
    }
  }

  lemma StepKeepsJobs<V(!new)>(w: World<V>, e: Event, md5: Md5, embed: Model<V>)
    requires JobsRight(w) && Enabled(w, e, md5)
    ensures JobsRight(After(w, e, md5, embed))
  {}

  lemma StepKeepsInv<V(!new)>(w: World<V>, e: Event, md5: Md5, embed: Model<V>, texts: set<string>)
    requires Inv(w, md5, embed, texts) && Enabled(w, e, md5) && Brings(e, texts)
    ensures Inv(After(w, e, md5, embed), md5, embed, texts)
  {
    StepKeepsTexts(w, e, md5, embed, texts);
    StepKeepsRows(w, e, md5, embed, texts);
    StepKeepsJobs(w, e, md5, embed);
  }

  lemma {:induction false} RunsKeepInv<V(!new)>(trace: seq<World<V>>, events: seq<Event>, md5: Md5, embed: Model<V>, i: nat)
    requires Run(trace, events, md5, embed) && i < |trace|
    ensures Inv(trace[i], md5, embed, RunTexts(trace[0].db.issues, events))
  {
    if i > 0 {
      RunsKeepInv(trace, events, md5, embed, i - 1);
      assert Steps(trace[i - 1], events[i - 1], trace[i], md5, embed);
      EventsBring(events, i - 1);
      StepKeepsInv(trace[i - 1], events[i - 1], md5, embed, RunTexts(trace[0].db.issues, events));
    }
  }

  /** Whatever workers do and however late, a vector that a search may read is the
      embedding of the issue's current text under the model that asks, as long as
      no two texts of the run share a digest. */
  lemma FreshIsCurrent<V(!new)>(trace: seq<World<V>>, events: seq<Event>, md5: Md5, embed: Model<V>, i: nat, model: string, key: Key)
    requires Run(trace, events, md5, embed) && i < |trace| && Fresh(trace[i].db, md5, model, key)
    requires CollisionFree(md5, RunTexts(trace[0].db.issues, events))
    ensures var s := trace[i].db;
            s.rows[key].vector == embed(model, TextOf(s.issues[key].title, s.issues[key].description))
  {
    var texts := RunTexts(trace[0].db.issues, events);
    RunsKeepInv(trace, events, md5, embed, i);
    var row, issue := trace[i].db.rows[key], trace[i].db.issues[key];
    assert Faithful(row, md5, embed, texts);
    var title, description :|
      && Among(title, description, texts) && Digest(md5, title, description) == row.digest
      && row.vector == embed(row.model, TextOf(title, description));
    assert {title, Coalesced(description), issue.title, Coalesced(issue.description)} <= texts;
    DigestTellsText(md5, title, description, issue.title, issue.description);
  }

  // ------------------------------------------------------------------- retries

  /** The failures of a key since it was last queued. */
  function Failures(events: seq<Event>, key: Key): nat {
    if events == [] then 0
    else
      var e, before := events[|events| - 1], events[..|events| - 1];
      if e.Enqueue? && key in e.picked then 0
      else Failures(before, key) + if e.Fail? && e.source.key == key then 1 else 0
  }

  lemma FailureStep<V(!new)>(w: World<V>, e: Event, md5: Md5, embed: Model<V>, key: Key, failures: nat)
    requires Enabled(w, e, md5) && key in After(w, e, md5, embed).db.jobs
    requires key in w.db.jobs ==> w.db.jobs[key].attempts == failures
    ensures After(w, e, md5, embed).db.jobs[key].attempts
            == if e.Enqueue? && key in e.picked then 0 else failures + if e.Fail? && e.source.key == key then 1 else 0
  {}

  lemma {:induction false} AttemptsCountFailures<V(!new)>(trace: seq<World<V>>, events: seq<Event>, md5: Md5, embed: Model<V>, i: nat, key: Key)
    requires Run(trace, events, md5, embed) && i < |trace| && key in trace[i].db.jobs
    ensures trace[i].db.jobs[key].attempts == Failures(events[..i], key)
  {
    if i > 0 {
      var w, e := trace[i - 1], events[i - 1];
      assert Steps(w, e, trace[i], md5, embed);
      assert events[..i][..i - 1] == events[..i - 1];
      if key in w.db.jobs { AttemptsCountFailures(trace, events, md5, embed, i - 1, key); }
      FailureStep(w, e, md5, embed, key, Failures(events[..i - 1], key));
    }
  }

  /** A job is retired exactly after MAX_ATTEMPTS failures since it was last
      queued, and a retired job is never claimed. */
  lemma RetiredAfterFailures<V(!new)>(trace: seq<World<V>>, events: seq<Event>, md5: Md5, embed: Model<V>, i: nat, key: Key)
    requires Run(trace, events, md5, embed) && i < |trace| && key in trace[i].db.jobs
    ensures trace[i].db.jobs[key].due.Infinity? <==> Failures(events[..i], key) >= MAX_ATTEMPTS
    ensures i < |events| && events[i].Claim? && key in events[i].picked ==> Failures(events[..i], key) < MAX_ATTEMPTS
  {
    RunsKeepInv(trace, events, md5, embed, i);
    AttemptsCountFailures(trace, events, md5, embed, i, key);
    assert RetiredRight(trace[i].db.jobs[key]);
    if i < |events| { assert Steps(trace[i], events[i], trace[i + 1], md5, embed); }
  }

  /** ... those of them that tried a text with this digest ... */
  function FailuresAbout(events: seq<Event>, key: Key, digest: string): nat {
    if events == [] then 0
    else
      var e, before := events[|events| - 1], events[..|events| - 1];
      if e.Enqueue? && key in e.picked then 0
      else FailuresAbout(before, key, digest) + if e.Fail? && e.source.key == key && e.source.digest == digest then 1 else 0
  }

  /** ... and whether any since then came from a worker that had read another. */
  predicate OthersFailed(events: seq<Event>, key: Key, digest: string) {
    if events == [] then false
    else
      var e, before := events[|events| - 1], events[..|events| - 1];
      !(e.Enqueue? && key in e.picked)
      && ((e.Fail? && e.source.key == key && e.source.digest != digest) || OthersFailed(before, key, digest))
  }

  lemma {:induction false} FailuresSplit(events: seq<Event>, key: Key, digest: string)
    ensures FailuresAbout(events, key, digest) <= Failures(events, key)
    ensures FailuresAbout(events, key, digest) == Failures(events, key) <==> !OthersFailed(events, key, digest)
  {
    if events != [] { FailuresSplit(events[..|events| - 1], key, digest); }
  }

  /** A job is charged with the failures of its own text and no others exactly
      when no worker that read another text has failed since it was queued. */
  lemma ChargedFairlyIff<V(!new)>(trace: seq<World<V>>, events: seq<Event>, md5: Md5, embed: Model<V>, i: nat, key: Key)
    requires Run(trace, events, md5, embed) && i < |trace| && key in trace[i].db.jobs
    ensures var job := trace[i].db.jobs[key];
            job.attempts == FailuresAbout(events[..i], key, job.digest) <==> !OthersFailed(events[..i], key, job.digest)
  {
    AttemptsCountFailures(trace, events, md5, embed, i, key);
    FailuresSplit(events[..i], key, trace[i].db.jobs[key].digest);
  }

  /** Step by step: a failure keeps the charge fair exactly when the worker had
      read the text of the job it lands on. */
  lemma FailKeepsChargeFairIff<V(!new)>(trace: seq<World<V>>, events: seq<Event>, md5: Md5, embed: Model<V>, i: nat, key: Key)
    requires Run(trace, events, md5, embed) && i < |events| && events[i].Fail? && events[i].source.key == key
    requires key in trace[i].db.jobs
    requires trace[i].db.jobs[key].attempts == FailuresAbout(events[..i], key, trace[i].db.jobs[key].digest)
    ensures key in trace[i + 1].db.jobs && trace[i + 1].db.jobs[key].digest == trace[i].db.jobs[key].digest
    ensures var job := trace[i + 1].db.jobs[key];
            job.attempts == FailuresAbout(events[..i + 1], key, job.digest) <==> events[i].source.digest == job.digest
  {
    assert Steps(trace[i], events[i], trace[i + 1], md5, embed);
    assert events[..i + 1][..i] == events[..i];
  }

  // -------------------------------------------------------------------- leases

  /** What ends a lease before its time. */
  predicate Releases(e: Event, key: Key) {
    match e
    case Enqueue(_, _, _, picked) => key in picked
    case Claim(_, _, _, _, picked) => key in picked
    case Complete(source) => source.key == key
    case Fail(source, _, _, _) => source.key == key
    case Delete(k) => k == key
    case _ => false
  }

  lemma LeaseStep<V(!new)>(w: World<V>, e: Event, md5: Md5, embed: Model<V>, key: Key)
    requires Enabled(w, e, md5) && key in w.db.jobs && !Releases(e, key)
    ensures key in After(w, e, md5, embed).db.jobs && After(w, e, md5, embed).db.jobs[key] == w.db.jobs[key]
  {}

  lemma {:induction false} LeaseLasts<V(!new)>(trace: seq<World<V>>, events: seq<Event>, md5: Md5, embed: Model<V>, i: nat, j: nat, key: Key)
    requires Run(trace, events, md5, embed) && i < j <= |events|
    requires events[i].Claim? && key in events[i].picked
    requires forall k :: i < k < j ==> !Releases(events[k], key)
    ensures key in trace[j].db.jobs && trace[j].db.jobs[key].due == At(events[i].now + events[i].lease)
  {
    assert Steps(trace[j - 1], events[j - 1], trace[j], md5, embed);
    if j > i + 1 {
      LeaseLasts(trace, events, md5, embed, i, j - 1, key);
      LeaseStep(trace[j - 1], events[j - 1], md5, embed, key);
    }
  }

  /** Two workers never hold one job within a lease, whatever their clocks: it is
      claimed again only when the lease has run out, unless it failed, was
      completed, or was queued anew in between. */
  lemma LeaseIsKept<V(!new)>(trace: seq<World<V>>, events: seq<Event>, md5: Md5, embed: Model<V>, i: nat, j: nat, key: Key)
    requires Run(trace, events, md5, embed) && i < j < |events|
    requires events[i].Claim? && key in events[i].picked && events[j].Claim? && key in events[j].picked
    requires forall k :: i < k < j ==> !Releases(events[k], key)
    ensures events[j].now >= events[i].now + events[i].lease
  {
    LeaseLasts(trace, events, md5, embed, i, j, key);
    assert Steps(trace[j], events[j], trace[j + 1], md5, embed);
  }

  /** While a job's text is the issue's, no sweep releases it: only an edit does. */
  lemma CurrentJobIsNotSwept<V(!new)>(w: World<V>, e: Event, md5: Md5, key: Key)
    requires Enabled(w, e, md5) && e.Enqueue? && HasCurrentJob(w.db, md5, key)
    ensures !Releases(e, key)
  {}

  // ------------------------------------------------------------- concrete runs

  const KEY := Key(1, 1)

  /** A digest function told apart by first letters. */
  function Initial(s: string): string { seq(32, _ => if s == [] then '0' else s[0]) }

  /** One issue, read by a worker as "a", edited to "b" and swept: a new job. */
  lemma EditedWhileRead<V(!new)>(embed: Model<V>, model: string) returns (trace: seq<World<V>>, events: seq<Event>, old_: Source)
    ensures Run(trace, events, Initial, embed)
    ensures RunTexts(trace[0].db.issues, events) == {"a", "b", ""} && CollisionFree(Initial, {"a", "b", ""})
    ensures var w := trace[|events|];
            && w.db.issues == map[KEY := Issue("b", None, false, 0)] && w.db.rows == map[]
            && w.db.jobs == map[KEY := Job(Digest(Initial, "b", None), 0, At(0.0), None)]
            && w.read == {old_} && w.claimed == multiset{}
    ensures old_ == Source(KEY, Digest(Initial, "a", None), "a", None) && old_.digest != Digest(Initial, "b", None)
    ensures events == [Read(KEY), Edit(KEY, "b", None), Enqueue(model, 1, 0.0, {KEY})]
  {
    var issues := map[KEY := Issue("a", None, false, 0)];
    old_ := Source(KEY, Digest(Initial, "a", None), "a", None);
    var w0: World<V> := Start(issues);
    var w1 := World(State(issues, map[], map[]), {old_}, multiset{});
    var w2 := World(State(map[KEY := Issue("b", None, false, 0)], map[], map[]), {old_}, multiset{});
    var w3 := World(State(w2.db.issues, map[], map[KEY := Job(Digest(Initial, "b", None), 0, At(0.0), None)]), {old_}, multiset{});
    assert Steps(w0, Read(KEY), w1, Initial, embed);
    assert Steps(w1, Edit(KEY, "b", None), w2, Initial, embed);
    assert Uncovered(w2.db, Initial, model) == {KEY};
    assert Steps(w2, Enqueue(model, 1, 0.0, {KEY}), w3, Initial, embed);
    trace := [w0, w1, w2, w3];
    events := [Read(KEY), Edit(KEY, "b", None), Enqueue(model, 1, 0.0, {KEY})];
    ShortRunTexts(issues, model);
    InitialsDiffer();
  }

  lemma QuietTexts(issues: map<Key, Issue>, events: seq<Event>, e: Event)
    requires !e.File? && !e.Edit?
    ensures RunTexts(issues, events + [e]) == RunTexts(issues, events)
  {
    assert (events + [e])[..|events|] == events;
  }

  lemma ShortRunTexts(issues: map<Key, Issue>, model: string)
    requires issues == map[KEY := Issue("a", None, false, 0)]
    ensures RunTexts(issues, [Read(KEY), Edit(KEY, "b", None), Enqueue(model, 1, 0.0, {KEY})]) == {"a", "b", ""}
  {
    var a, b, c := Read(KEY), Edit(KEY, "b", None), Enqueue(model, 1, 0.0, {KEY});
    assert [a, b, c][..2] == [a, b] && [a, b][..1] == [a] && [a][..0] == [];
    assert EventTexts([a]) == {} && EventTexts([a, b]) == {"b", ""} && EventTexts([a, b, c]) == {"b", ""};
    assert KEY in issues && issues[KEY].title == "a" && Coalesced(issues[KEY].description) == "";
    assert IssueTexts(issues) == {"a", ""};
  }

  lemma InitialsDiffer()
    ensures CollisionFree(Initial, {"a", "b", ""})
    ensures Digest(Initial, "a", None) != Digest(Initial, "b", None)
  {
    assert Initial("a")[0] == 'a' && Initial("b")[0] == 'b' && Initial("")[0] == '0';
    assert Digest(Initial, "a", None)[0] == 'a' && Digest(Initial, "b", None)[0] == 'b';
  }

  /** Such a run can go on to a vector that is fresh: the write of the old text is
      declined, the new text is read and its vector accepted. */
  lemma SomeVectorIsFresh<V(!new)>(embed: Model<V>, model: string) returns (trace: seq<World<V>>, events: seq<Event>)
    ensures Run(trace, events, Initial, embed) && CollisionFree(Initial, RunTexts(trace[0].db.issues, events))
    ensures Fresh(trace[|events|].db, Initial, model, KEY) && trace[|events|].db.rows[KEY].vector == embed(model, "b")
    ensures exists i :: 0 <= i < |events| && events[i].Edit?
  {
    var old_: Source;
    trace, events, old_ := EditedWhileRead(embed, model);
    var issues := trace[0].db.issues;
    assert events[1].Edit?;
    var w := trace[3];
    var late, read := Upsert(model, old_), Read(KEY);
    Extended(trace, events, late, Initial, embed);
    QuietTexts(issues, events, late);
    assert After(w, late, Initial, embed) == w;
    trace, events := trace + [w], events + [late];
    var w' := After(w, read, Initial, embed);
    Extended(trace, events, read, Initial, embed);
    QuietTexts(issues, events, read);
    trace, events := trace + [w'], events + [read];
    var new_ := SourceOf(w.db, Initial, KEY);
    var write := Upsert(model, new_);
    Extended(trace, events, write, Initial, embed);
    QuietTexts(issues, events, write);
    assert new_.title == "b" && new_.description == None && Accepts(w'.db, Initial, new_);
    trace, events := trace + [After(w', write, Initial, embed)], events + [write];
    assert events[1].Edit?;
  }

  // ------------------------------------------------------- late and poisonous

  const LEASE: real := 300.0

  function Text(title: string): Issue { Issue(title, None, false, 0) }

  function Held(title: string): Source { Source(KEY, Digest(Initial, title, None), title, None) }

  /** One issue, one job, no vector yet. */
  ghost predicate OneJob<V>(w: World<V>, title: string, attempts: nat) {
    && w.db.issues == map[KEY := Text(title)] && w.db.rows == map[]
    && w.db.jobs.Keys == {KEY} && w.db.jobs[KEY].digest == Digest(Initial, title, None) && w.db.jobs[KEY].attempts == attempts
  }

  /** The issue is filed before the run and swept by its first event. */
  lemma Queued<V(!new)>(embed: Model<V>, model: string) returns (trace: seq<World<V>>, events: seq<Event>)
    ensures Run(trace, events, Initial, embed) && |events| == 1
    ensures OneJob(trace[|events|], "a", 0) && trace[|events|].db.jobs[KEY].due == At(0.0)
    ensures trace[|events|].read == {} && trace[|events|].claimed == multiset{}
    ensures forall digest :: FailuresAbout(events, KEY, digest) == 0
  {
    var issues := map[KEY := Text("a")];
    var w: World<V> := Start(issues);
    var v := World(State(issues, map[], map[KEY := Job(Digest(Initial, "a", None), 0, At(0.0), None)]), {}, multiset{});
    var e := Enqueue(model, 1, 0.0, {KEY});
    assert Uncovered(w.db, Initial, model) == {KEY};
    assert Steps(w, e, v, Initial, embed);
    trace, events := [w, v], [e];
    SweptFirst(events, e);
  }

  lemma SweptFirst(events: seq<Event>, e: Event)
    requires events == [e] && e.Enqueue? && KEY in e.picked
    ensures forall digest :: FailuresAbout(events, KEY, digest) == 0
  {}

  /** The one job claimed the moment it is due. */
  lemma ClaimsIt<V(!new)>(w: World<V>, title: string, attempts: nat, now: real) returns (e: Event)
    requires OneJob(w, title, attempts) && w.db.jobs[KEY].due == At(now)
    ensures e == Claim(1, now, LEASE, {}, {KEY}) && Enabled(w, e, Initial)
    ensures forall embed: Model<V> ::
              var t := After(w, e, Initial, embed);
              && OneJob(t, title, attempts) && t.db.jobs[KEY].due == At(now + LEASE)
              && t.read == w.read + {Held(title)} && t.claimed == w.claimed + multiset{Held(title)}
  {
    e := Claim(1, now, LEASE, {}, {KEY});
    assert Claimable(w.db, now, {}) == {KEY};
    var sources := set key | key in {KEY} :: SourceOf(w.db, Initial, key);
    assert SourceOf(w.db, Initial, KEY) == Held(title);
    assert sources == {Held(title)};
  }

  /** n workers claim the job one after another, each when the lease before it has
      run out, and none reports. */
  lemma {:induction false} HeldClaims<V(!new)>(embed: Model<V>, model: string, n: nat) returns (trace: seq<World<V>>, events: seq<Event>, now: real)
    ensures Run(trace, events, Initial, embed)
    ensures OneJob(trace[|events|], "a", 0) && trace[|events|].db.jobs[KEY].due == At(now)
    ensures trace[|events|].read <= {Held("a")} && trace[|events|].claimed == multiset{}[Held("a") := n]
    ensures forall digest :: FailuresAbout(events, KEY, digest) == 0
  {
    if n == 0 {
      now := 0.0;
      trace, events := Queued(embed, model);
    } else {
      var t: seq<World<V>>, es: seq<Event>, due: real := HeldClaims(embed, model, n - 1);
      var e := ClaimsIt(t[|es|], "a", 0, due);
      trace, events := Extend(t, es, e, Initial, embed);
      now := due + LEASE;
    }
  }

  lemma EditsIt<V(!new)>(w: World<V>, e: Event, embed: Model<V>)
    requires OneJob(w, "a", 0) && e == Edit(KEY, "b", None)
    ensures Enabled(w, e, Initial)
    ensures var v := After(w, e, Initial, embed);
            v.db == State(map[KEY := Text("b")], w.db.rows, w.db.jobs) && v.read == w.read && v.claimed == w.claimed
  {}

  lemma SweepsIt<V(!new)>(w: World<V>, e: Event, model: string, now: real, embed: Model<V>)
    requires w.db.issues == map[KEY := Text("b")] && w.db.rows == map[]
    requires w.db.jobs.Keys == {KEY} && w.db.jobs[KEY].digest != Digest(Initial, "b", None)
    requires e == Enqueue(model, 1, now, {KEY})
    ensures Enabled(w, e, Initial)
    ensures var v := After(w, e, Initial, embed); OneJob(v, "b", 0) && v.read == w.read && v.claimed == w.claimed
  {
    assert Uncovered(w.db, Initial, model) == {KEY};
  }

  /** Then the text is edited ... */
  lemma EditedUnderClaims<V(!new)>(embed: Model<V>, model: string, n: nat) returns (trace: seq<World<V>>, events: seq<Event>, now: real)
    ensures Run(trace, events, Initial, embed)
    ensures var w := trace[|events|];
            && w.db.issues == map[KEY := Text("b")] && w.db.rows == map[]
            && w.db.jobs.Keys == {KEY} && w.db.jobs[KEY].digest == Digest(Initial, "a", None)
            && w.read <= {Held("a")} && w.claimed == multiset{}[Held("a") := n]
  {
    var t: seq<World<V>>, es: seq<Event>;
    t, es, now := HeldClaims(embed, model, n);
    var edit := Edit(KEY, "b", None);
    EditsIt(t[|es|], edit, embed);
    trace, events := Extend(t, es, edit, Initial, embed);
  }

  /** ... and a sweep queues it anew, at no failures. */
  lemma Requeued<V(!new)>(embed: Model<V>, model: string, n: nat) returns (trace: seq<World<V>>, events: seq<Event>)
    ensures Run(trace, events, Initial, embed) && OneJob(trace[|events|], "b", 0)
    ensures trace[|events|].read <= {Held("a")} && trace[|events|].claimed == multiset{}[Held("a") := n]
    ensures FailuresAbout(events, KEY, Digest(Initial, "b", None)) == 0
  {
    var t: seq<World<V>>, es: seq<Event>, now: real := EditedUnderClaims(embed, model, n);
    var sweep := Enqueue(model, 1, now, {KEY});
    InitialsDiffer();
    SweepsIt(t[|es|], sweep, model, now, embed);
    trace, events := Extend(t, es, sweep, Initial, embed);
    SweptLast(events, sweep, Digest(Initial, "b", None));
  }

  lemma SweptLast(events: seq<Event>, e: Event, digest: string)
    requires events != [] && events[|events| - 1] == e && e.Enqueue? && KEY in e.picked
    ensures FailuresAbout(events, KEY, digest) == 0
  {}

  /** k of the n workers now fail on the text they hold. */
  lemma {:induction false} FailedLate<V(!new)>(embed: Model<V>, model: string, n: nat, k: nat) returns (trace: seq<World<V>>, events: seq<Event>)
    requires k <= n
    ensures Run(trace, events, Initial, embed) && OneJob(trace[|events|], "b", k)
    ensures trace[|events|].read <= {Held("a")} && trace[|events|].claimed == multiset{}[Held("a") := n - k]
    ensures FailuresAbout(events, KEY, Digest(Initial, "b", None)) == 0
  {
    if k == 0 {
      trace, events := Requeued(embed, model, n);
    } else {
      var t: seq<World<V>>, es: seq<Event> := FailedLate(embed, model, n, k - 1);
      var e := Fail(Held("a"), 0.0, "timed out", RetryDelay(1));
      InitialsDiffer();
      trace, events := Extend(t, es, e, Initial, embed);
    }
  }

  lemma RetiredAndNothingIndexed<V(!new)>(w: World<V>, model: string, title: string, embed: Model<V>, texts: set<string>)
    requires OneJob(w, title, MAX_ATTEMPTS) && Inv(w, Initial, embed, texts)
    ensures Live(w.db, KEY) && IsRetired(w.db, Initial, KEY)
    ensures forall limit: nat :: IsSweep(w.db, Initial, model, limit, {})
    ensures !FullyIndexed(w.db, Initial, model)
  {
    assert RetiredRight(w.db.jobs[KEY]);
    assert Live(w.db, KEY) && !Fresh(w.db, Initial, model, KEY);
    assert Uncovered(w.db, Initial, model) == {};
  }

  /** Failures of an old text can so retire the new one: five workers whose leases
      lapsed report after the edit, one failure for each claim, and the job about
      the text the issue has now is given up on though nobody ever tried it. */
  lemma LateFailuresRetireNewText<V(!new)>(embed: Model<V>, model: string) returns (trace: seq<World<V>>, events: seq<Event>)
    ensures Run(trace, events, Initial, embed)
    ensures var w := trace[|events|];
            && Live(w.db, KEY) && IsRetired(w.db, Initial, KEY) && w.claimed == multiset{}
            && FailuresAbout(events, KEY, w.db.jobs[KEY].digest) == 0
            && forall source :: source in w.read ==> source.digest != w.db.jobs[KEY].digest
    ensures !FullyIndexed(trace[|events|].db, Initial, model)
  {
    trace, events := FailedLate(embed, model, MAX_ATTEMPTS, MAX_ATTEMPTS);
    InitialsDiffer();
    RunsKeepInv(trace, events, Initial, embed, |events|);
    RetiredAndNothingIndexed(trace[|events|], model, "b", embed, RunTexts(trace[0].db.issues, events));
  }

  /** n rounds of claiming the job when it is due and failing on it. */
  lemma {:induction false} Poisoned<V(!new)>(embed: Model<V>, model: string, n: nat) returns (trace: seq<World<V>>, events: seq<Event>)
    requires n <= MAX_ATTEMPTS
    ensures Run(trace, events, Initial, embed) && OneJob(trace[|events|], "a", n)
    ensures n < MAX_ATTEMPTS ==> trace[|events|].db.jobs[KEY].due.At?
  {
    if n == 0 {
      trace, events := Queued(embed, model);
    } else {
      trace, events := Poisoned(embed, model, n - 1);
      var w := trace[|events|];
      var claim := ClaimsIt(w, "a", n - 1, w.db.jobs[KEY].due.time);
      trace, events := Extend(trace, events, claim, Initial, embed);
      var fail := Fail(Held("a"), claim.now, "poison", RetryDelay(n));
      trace, events := Extend(trace, events, fail, Initial, embed);
    }
  }

  /** An issue no model can embed: after five rounds every sweep queues nothing, and
      the issue is not indexed. */
  lemma ZeroQueuedInARun<V(!new)>(embed: Model<V>, model: string) returns (trace: seq<World<V>>, events: seq<Event>)
    ensures Run(trace, events, Initial, embed)
    ensures Live(trace[|events|].db, KEY) && IsRetired(trace[|events|].db, Initial, KEY)
    ensures forall limit: nat :: IsSweep(trace[|events|].db, Initial, model, limit, {})
    ensures !FullyIndexed(trace[|events|].db, Initial, model)
  {
    trace, events := Poisoned(embed, model, MAX_ATTEMPTS);
    RunsKeepInv(trace, events, Initial, embed, |events|);
    RetiredAndNothingIndexed(trace[|events|], model, "a", embed, RunTexts(trace[0].db.issues, events));
  }
}
