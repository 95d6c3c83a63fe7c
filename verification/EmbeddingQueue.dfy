/** The embedding table, its queue and its worker, one function per SQL statement
    (app/repositories/embedding_jobs.py:51-430; app/repositories/embeddings.py:39-104,
    255-300; app/domain/embedding_jobs.py:26-71; app/services/embedding_jobs.py:113-333). */
module EmbeddingQueue {
  import opened Wrappers
  import opened Collections

  const MAX_ATTEMPTS: nat := 5
  const BASE_RETRY_SECONDS: real := 30.0
  const MAX_RETRY_SECONDS: real := 3600.0
  const MAX_ERROR_LENGTH: nat := 500

  /** An issue's primary key, its workspace first. */
  datatype Key = Key(workspace: int, issue: int)

  datatype Issue = Issue(title: string, description: Option<string>, archived: bool, createdAt: int)

  /** A row of `issue_embeddings`; the vector type is left open. */
  datatype Row<V> = Row(model: string, digest: string, vector: V)

  datatype Due = At(time: real) | Infinity

  /** A row of `embedding_jobs`. */
  datatype Job = Job(digest: string, attempts: nat, due: Due, lastError: Option<string>)

  datatype State<V> = State(issues: map<Key, Issue>, rows: map<Key, Row<V>>, jobs: map<Key, Job>)

  /** What a worker holds of an issue while the model runs. */
  datatype Source = Source(key: Key, digest: string, title: string, description: Option<string>)

  /** md5 as lower-case hexadecimal text. */
  type Md5 = string -> string

  // ---------------------------------------------------------- text and digest

  function Coalesced(description: Option<string>): string {
    if description.None? then "" else description.value
  }

  /** embedding_text */
  function TextOf(title: string, description: Option<string>): string {
    if Coalesced(description) == "" then title else title + "\n\n" + Coalesced(description)
  }

  /** issues.embedding_source_digest */
  function Digest(md5: Md5, title: string, description: Option<string>): string {
    md5(title) + md5(Coalesced(description))
  }

  function DigestOf(md5: Md5, issue: Issue): string { Digest(md5, issue.title, issue.description) }

  /** Digests of one length, no two of these texts sharing one. */
  ghost predicate CollisionFree(md5: Md5, texts: set<string>) {
    && (forall s :: |md5(s)| == 32)
    && (forall s, t :: s in texts && t in texts && md5(s) == md5(t) ==> s == t)
  }

  /** Digesting the fields apart leaves no separator to be mistaken about: two
      pairs of fields are told apart if the four texts are. */
  lemma DigestTellsText(md5: Md5, title: string, description: Option<string>, title': string, description': Option<string>)
    requires CollisionFree(md5, {title, Coalesced(description), title', Coalesced(description')})
    requires Digest(md5, title, description) == Digest(md5, title', description')
    ensures title == title' && Coalesced(description) == Coalesced(description')
    ensures TextOf(title, description) == TextOf(title', description')
  {
    var a, b := md5(title), md5(title');
    assert a == Digest(md5, title, description)[..32] && b == Digest(md5, title', description')[..32];
    assert md5(Coalesced(description)) == Digest(md5, title, description)[32..];
    assert md5(Coalesced(description')) == Digest(md5, title', description')[32..];
  }

  predicate IsBlank(description: Option<string>) { description == None || description == Some("") }

  /** What is embedded shows the whole title and, when there is one, the whole
      description after exactly one blank line. */
  lemma TextShowsBoth(title: string, description: Option<string>)
    ensures IsBlank(description) ==> TextOf(title, description) == title
    ensures !IsBlank(description) ==>
              var text, n := TextOf(title, description), |title|;
              && |text| == n + 2 + |description.value|
              && text[..n] == title && text[n] == '\n' && text[n + 1] == '\n' && text[n + 2..] == description.value
  {}

  /** So two descriptions of one title are told apart in what is embedded. */
  lemma TextTellsDescriptions(title: string, d: Option<string>, e: Option<string>)
    ensures TextOf(title, d) == TextOf(title, e) <==> d == e || (IsBlank(d) && IsBlank(e))
  {
    TextShowsBoth(title, d);
    TextShowsBoth(title, e);
  }

  // ---------------------------------------------------------------- predicates

  predicate Live<V>(s: State<V>, key: Key) { key in s.issues && !s.issues[key].archived }

  /** What every read of the vectors demands of a row. */
  predicate Fresh<V>(s: State<V>, md5: Md5, model: string, key: Key) {
    key in s.issues && key in s.rows && s.rows[key].model == model && s.rows[key].digest == DigestOf(md5, s.issues[key])
  }

  /** A job about the text the issue has now. */
  predicate HasCurrentJob<V>(s: State<V>, md5: Md5, key: Key) {
    key in s.issues && key in s.jobs && s.jobs[key].digest == DigestOf(md5, s.issues[key])
  }

  /** The sweep's anti-join. */
  function Uncovered<V>(s: State<V>, md5: Md5, model: string): set<Key> {
    set key | key in s.issues && Live(s, key) && !Fresh(s, md5, model, key) && !HasCurrentJob(s, md5, key)
  }

  predicate IsNewer(issues: map<Key, Issue>, a: Key, b: Key)
    requires a in issues && b in issues
  {
    issues[a].createdAt > issues[b].createdAt || (issues[a].createdAt == issues[b].createdAt && a.issue >= b.issue)
  }

  /** ORDER BY created_at DESC, id DESC LIMIT limit */
  predicate IsSweep<V>(s: State<V>, md5: Md5, model: string, limit: nat, picked: set<Key>) {
    && picked <= Uncovered(s, md5, model)
    && |picked| == Lesser(limit, |Uncovered(s, md5, model)|)
    && forall a, b :: a in picked && b in Uncovered(s, md5, model) && b !in picked ==> IsNewer(s.issues, a, b)
  }

  predicate IsDue(job: Job, now: real) { job.due.At? && job.due.time <= now }

  /** The due rows that no other claim holds. */
  function Claimable<V>(s: State<V>, now: real, locked: set<Key>): set<Key> {
    set key | key in s.jobs && key in s.issues && key !in locked && IsDue(s.jobs[key], now)
  }

  predicate IsSooner(jobs: map<Key, Job>, a: Key, b: Key)
    requires a in jobs && b in jobs && jobs[a].due.At? && jobs[b].due.At?
  {
    var s, t := jobs[a].due.time, jobs[b].due.time;
    s < t || (s == t && (a.workspace < b.workspace || (a.workspace == b.workspace && a.issue <= b.issue)))
  }

  /** ORDER BY next_attempt_at, workspace_id, issue_id LIMIT limit FOR UPDATE SKIP LOCKED */
  predicate IsClaim<V>(s: State<V>, limit: nat, now: real, locked: set<Key>, picked: set<Key>) {
    var due := Claimable(s, now, locked);
    && picked <= due && |picked| == Lesser(limit, |due|)
    && forall a, b :: a in picked && b in due && b !in picked ==> IsSooner(s.jobs, a, b)
  }

  // ---------------------------------------------------------------- statements

  /** enqueue_stale: a new row, or the old one reset for the new text. */
  function Enqueued<V>(s: State<V>, md5: Md5, now: real, picked: set<Key>): State<V>
    requires forall key :: key in picked ==> key in s.issues
  {
    s.(jobs := s.jobs + map key | key in picked :: Job(DigestOf(md5, s.issues[key]), 0, At(now), None))
  }

  function Leased(job: Job, now: real, lease: real): Job { job.(due := At(now + lease)) }

  /** claim: the rows become invisible for the length of the lease. */
  function Claimed<V>(s: State<V>, now: real, lease: real, picked: set<Key>): State<V>
    requires forall key :: key in picked ==> key in s.jobs
  {
    s.(jobs := s.jobs + map key | key in picked :: Leased(s.jobs[key], now, lease))
  }

  /** ... and the live text of each comes back. */
  function SourceOf<V>(s: State<V>, md5: Md5, key: Key): Source
    requires key in s.issues
  {
    Source(key, DigestOf(md5, s.issues[key]), s.issues[key].title, s.issues[key].description)
  }

  /** The WHERE clause of upsert. */
  predicate Accepts<V>(s: State<V>, md5: Md5, source: Source) {
    Live(s, source.key) && DigestOf(md5, s.issues[source.key]) == source.digest
  }

  function Upserted<V>(s: State<V>, md5: Md5, model: string, source: Source, vector: V): State<V> {
    if Accepts(s, md5, source) then s.(rows := s.rows[source.key := Row(model, DigestOf(md5, s.issues[source.key]), vector)]) else s
  }

  function Completed<V>(s: State<V>, key: Key): State<V> { s.(jobs := s.jobs - {key}) }

  /** nullif(left(error, 500), '') */
  function Recorded(error: string): Option<string> {
    if error == "" then None else Some(if |error| <= MAX_ERROR_LENGTH then error else error[..MAX_ERROR_LENGTH])
  }

  function FailedJob(job: Job, now: real, error: string, maxAttempts: nat, retryAfter: real): Job {
    Job(job.digest, job.attempts + 1, if job.attempts + 1 >= maxAttempts then Infinity else At(now + retryAfter), Recorded(error))
  }

  function Failed<V>(s: State<V>, key: Key, now: real, error: string, maxAttempts: nat, retryAfter: real): State<V> {
    if key in s.jobs then s.(jobs := s.jobs[key := FailedJob(s.jobs[key], now, error, maxAttempts, retryAfter)]) else s
  }

  // ------------------------------------------------------------------- backoff

  function Power(k: nat): real { if k == 0 then 1.0 else 2.0 * Power(k - 1) }

  function RetryDelay(attempts: nat): real
    requires 1 <= attempts
  {
    var wait := BASE_RETRY_SECONDS * Power(attempts - 1);
    if wait < MAX_RETRY_SECONDS then wait else MAX_RETRY_SECONDS
  }

  lemma {:induction false} PowerGrows(a: nat, b: nat)
    requires a <= b
    ensures 1.0 <= Power(a) <= Power(b)
  {
    if a < b { PowerGrows(a, b - 1); } else if a > 0 { PowerGrows(a - 1, b - 1); }
  }

  /** Never less than the base, never more than the cap, doubling in between. */
  lemma RetryDelayIsBounded(attempts: nat)
    requires 1 <= attempts
    ensures 30.0 <= RetryDelay(attempts) <= 3600.0 && (attempts == 1 ==> RetryDelay(attempts) == 30.0)
    ensures RetryDelay(attempts) == 3600.0 <==> attempts >= 8
    ensures attempts < 7 ==> RetryDelay(attempts + 1) == 2.0 * RetryDelay(attempts)
  {
    PowerGrows(0, attempts - 1);
    if attempts >= 8 { PowerGrows(7, attempts - 1); } else { PowerGrows(attempts - 1, 6); }
    assert Power(1) == 2.0 && Power(2) == 4.0 && Power(3) == 8.0 && Power(4) == 16.0;
    assert Power(5) == 32.0 && Power(6) == 64.0 && Power(7) == 128.0;
  }

  // -------------------------------------------------------------------- sweeps

  lemma {:induction false} Differences(a: set<Key>, b: set<Key>)
    requires a <= b
    ensures |b - a| == |b| - |a|
  {
    assert b == a + (b - a);
  }

  lemma {:induction false} SomeNewest(issues: map<Key, Issue>, keys: set<Key>) returns (newest: Key)
    requires keys != {} && keys <= issues.Keys
    ensures newest in keys && forall key :: key in keys ==> IsNewer(issues, newest, key)
    decreases keys
  {
    var one :| one in keys;
    if keys == {one} {
      newest := one;
    } else {
      var other := SomeNewest(issues, keys - {one});
      newest := if IsNewer(issues, one, other) then one else other;
      forall key | key in keys ensures IsNewer(issues, newest, key) {
        if key != one { assert IsNewer(issues, other, key); }
      }
    }
  }

  /** There is always a sweep to make: the newest uncovered issues, to the limit. */
  lemma {:induction false} SomeSweep<V>(s: State<V>, md5: Md5, model: string, limit: nat) returns (picked: set<Key>)
    ensures IsSweep(s, md5, model, limit, picked)
  {
    var all := Uncovered(s, md5, model);
    if limit == 0 {
      picked := {};
    } else {
      picked := SomeSweep(s, md5, model, limit - 1);
      Differences(picked, all);
      if picked != all {
        var newest := SomeNewest(s.issues, all - picked);
        picked := picked + {newest};
      }
    }
  }

  lemma {:induction false} SomeSoonest(jobs: map<Key, Job>, keys: set<Key>) returns (soonest: Key)
    requires keys != {} && forall key :: key in keys ==> key in jobs && jobs[key].due.At?
    ensures soonest in keys && forall key :: key in keys ==> IsSooner(jobs, soonest, key)
    decreases keys
  {
    var one :| one in keys;
    if keys == {one} {
      soonest := one;
    } else {
      var other := SomeSoonest(jobs, keys - {one});
      soonest := if IsSooner(jobs, one, other) then one else other;
      forall key | key in keys ensures IsSooner(jobs, soonest, key) {
        if key != one { assert IsSooner(jobs, other, key); }
      }
    }
  }

  /** There is always a claim to make: the rows due longest, to the limit. */
  lemma {:induction false} SomeClaim<V>(s: State<V>, limit: nat, now: real, locked: set<Key>) returns (picked: set<Key>)
    ensures IsClaim(s, limit, now, locked, picked)
  {
    var due := Claimable(s, now, locked);
    if limit == 0 {
      picked := {};
    } else {
      picked := SomeClaim(s, limit - 1, now, locked);
      Differences(picked, due);
      if picked != due {
        var soonest := SomeSoonest(s.jobs, due - picked);
        picked := picked + {soonest};
      }
    }
  }

  /** Each sweep covers as many issues as it may, however many retired rows lie
      in its way: none of them is picked again. */
  lemma SweepProgresses<V>(s: State<V>, md5: Md5, model: string, limit: nat, now: real, picked: set<Key>)
    requires IsSweep(s, md5, model, limit, picked)
    ensures var t := Enqueued(s, md5, now, picked);
            && Uncovered(t, md5, model) == Uncovered(s, md5, model) - picked
            && |Uncovered(t, md5, model)| == |Uncovered(s, md5, model)| - Lesser(limit, |Uncovered(s, md5, model)|)
            && (forall key :: key in picked ==> HasCurrentJob(t, md5, key) && t.jobs[key].attempts == 0 && IsDue(t.jobs[key], now))
            && (forall key :: key in s.jobs && key !in picked ==> key in t.jobs && t.jobs[key] == s.jobs[key])
  {
    var t := Enqueued(s, md5, now, picked);
    forall key ensures key in Uncovered(t, md5, model) <==> key in Uncovered(s, md5, model) - picked {
      if key in s.issues {
        assert Live(t, key) == Live(s, key) && Fresh(t, md5, model, key) == Fresh(s, md5, model, key);
        if key !in picked { assert HasCurrentJob(t, md5, key) == HasCurrentJob(s, md5, key); }
      }
    }
    Differences(picked, Uncovered(s, md5, model));
  }

  /** What a sweep is about: live issues with no vector of this model for their
      current text and no job about it either. */
  lemma UncoveredMeans<V>(s: State<V>, md5: Md5, model: string, key: Key)
    ensures key in Uncovered(s, md5, model) <==>
            && key in s.issues && !s.issues[key].archived
            && !(key in s.rows && s.rows[key].model == model && s.rows[key].digest == DigestOf(md5, s.issues[key]))
            && !(key in s.jobs && s.jobs[key].digest == DigestOf(md5, s.issues[key]))
  {}

  /** An issue is passed over only for issues created no earlier, and a due job
      only for jobs due no later. */
  lemma NewestAndSoonestGoFirst<V>(s: State<V>, md5: Md5, model: string, limit: nat, now: real, locked: set<Key>, picked: set<Key>, a: Key, b: Key)
    requires a in picked && b !in picked
    ensures IsSweep(s, md5, model, limit, picked) && b in Uncovered(s, md5, model) ==>
              a in s.issues && |picked| == limit && s.issues[a].createdAt >= s.issues[b].createdAt
    ensures IsClaim(s, limit, now, locked, picked) && b in s.jobs && b in s.issues && b !in locked && IsDue(s.jobs[b], now) ==>
              a in s.jobs && |picked| == limit && s.jobs[a].due.At? && s.jobs[a].due.time <= s.jobs[b].due.time <= now
    ensures IsClaim(s, limit, now, locked, picked) ==>
              a in s.jobs && a in s.issues && a !in locked && s.jobs[a].due.At? && s.jobs[a].due.time <= now
  {
    if IsSweep(s, md5, model, limit, picked) && b in Uncovered(s, md5, model) {
      assert IsNewer(s.issues, a, b);
      SameSizeIsSame(picked, Uncovered(s, md5, model));
    }
    var due := Claimable(s, now, locked);
    if IsClaim(s, limit, now, locked, picked) && b in due {
      assert IsSooner(s.jobs, a, b);
      SameSizeIsSame(picked, due);
    }
  }

  ghost predicate FullyIndexed<V>(s: State<V>, md5: Md5, model: string) {
    forall key :: Live(s, key) ==> Fresh(s, md5, model, key)
  }

  /** A sweep queues nothing exactly when every live issue is fresh or has a job
      about its current text. */
  lemma ZeroQueuedIff<V>(s: State<V>, md5: Md5, model: string, limit: nat, picked: set<Key>)
    requires IsSweep(s, md5, model, limit, picked) && 0 < limit
    ensures |picked| == 0 <==> forall key :: Live(s, key) ==> Fresh(s, md5, model, key) || HasCurrentJob(s, md5, key)
  {
    if |picked| == 0 {
      assert |Uncovered(s, md5, model)| == 0;
      forall key | Live(s, key) ensures Fresh(s, md5, model, key) || HasCurrentJob(s, md5, key) {
        assert key !in Uncovered(s, md5, model);
      }
    } else {
      assert Uncovered(s, md5, model) != {};
      var key :| key in Uncovered(s, md5, model);
      assert Live(s, key);
    }
  }

  /** One issue, its job retired: the sweep finds nothing and nothing is indexed. */
  lemma ZeroWithoutAnIndex<V>(md5: Md5, model: string, limit: nat) returns (s: State<V>)
    ensures IsSweep(s, md5, model, limit, {}) && !FullyIndexed(s, md5, model)
  {
    var key, issue := Key(1, 1), Issue("poison", None, false, 0);
    s := State(map[key := issue], map[], map[key := Job(DigestOf(md5, issue), MAX_ATTEMPTS, Infinity, None)]);
    assert Live(s, key) && !Fresh(s, md5, model, key) && HasCurrentJob(s, md5, key);
    assert Uncovered(s, md5, model) == {};
  }

  // ------------------------------------------------------------ indexing_state

  function LiveIn<V>(s: State<V>, workspace: int): set<Key> {
    set key | key in s.issues && key.workspace == workspace && Live(s, key)
  }

  predicate IsRetired<V>(s: State<V>, md5: Md5, key: Key) { HasCurrentJob(s, md5, key) && s.jobs[key].due.Infinity? }

  function Indexed<V>(s: State<V>, md5: Md5, model: string, workspace: int): set<Key> {
    set key | key in LiveIn(s, workspace) && Fresh(s, md5, model, key)
  }

  function Waiting<V>(s: State<V>, md5: Md5, model: string, workspace: int): set<Key> {
    set key | key in LiveIn(s, workspace) && !Fresh(s, md5, model, key) && !IsRetired(s, md5, key)
  }

  function GivenUp<V>(s: State<V>, md5: Md5, model: string, workspace: int): set<Key> {
    set key | key in LiveIn(s, workspace) && !Fresh(s, md5, model, key) && IsRetired(s, md5, key)
  }

  datatype Counts = Counts(indexed: nat, pending: nat, failed: nat)

  /** The three filtered counts over the two left joins. */
  function IndexingState<V>(s: State<V>, md5: Md5, model: string, workspace: int): Counts {
    Counts(|Indexed(s, md5, model, workspace)|, |Waiting(s, md5, model, workspace)|, |GivenUp(s, md5, model, workspace)|)
  }

  lemma PartsAddUp(all: set<Key>, a: set<Key>, b: set<Key>, c: set<Key>)
    requires a <= all && b <= all && c <= all && a !! b && a !! c && b !! c
    requires forall key :: key in all ==> key in a || key in b || key in c
    ensures |a| + |b| + |c| == |all|
  {
    assert all == a + b + c;
  }

  /** Every live issue of the workspace is counted once. */
  lemma CountsPartition<V>(s: State<V>, md5: Md5, model: string, workspace: int)
    ensures var c := IndexingState(s, md5, model, workspace);
            c.indexed + c.pending + c.failed == |LiveIn(s, workspace)|
  {
    PartsAddUp(LiveIn(s, workspace), Indexed(s, md5, model, workspace), Waiting(s, md5, model, workspace), GivenUp(s, md5, model, workspace));
  }

  predicate InWorkspace<V>(s: State<V>, workspace: int, key: Key) {
    key.workspace == workspace && key in s.issues && !s.issues[key].archived
  }

  /** Which count a live issue is in: with a current vector it is indexed; without
      one it has failed exactly when the job about its current text is retired, and
      otherwise is pending. */
  lemma CountedWhere<V>(s: State<V>, md5: Md5, model: string, workspace: int, key: Key)
    ensures key in Indexed(s, md5, model, workspace) <==> InWorkspace(s, workspace, key) && Fresh(s, md5, model, key)
    ensures key in GivenUp(s, md5, model, workspace) <==>
            && InWorkspace(s, workspace, key) && !Fresh(s, md5, model, key)
            && key in s.jobs && s.jobs[key].digest == DigestOf(md5, s.issues[key]) && s.jobs[key].due == Infinity
    ensures key in Waiting(s, md5, model, workspace) <==>
            && InWorkspace(s, workspace, key) && !Fresh(s, md5, model, key)
            && (key in s.jobs && s.jobs[key].digest == DigestOf(md5, s.issues[key]) ==> s.jobs[key].due != Infinity)
  {}

  /** The counts show those sets, so what one sweep queued is pending and nothing
      it queued has failed. */
  lemma SweptIsPending<V>(s: State<V>, md5: Md5, model: string, limit: nat, now: real, picked: set<Key>, key: Key)
    requires IsSweep(s, md5, model, limit, picked) && key in picked
    ensures var t := Enqueued(s, md5, now, picked);
            && key in Waiting(t, md5, model, key.workspace) && key !in GivenUp(t, md5, model, key.workspace)
            && IndexingState(t, md5, model, key.workspace).pending >= 1
  {
    var t := Enqueued(s, md5, now, picked);
    UncoveredMeans(s, md5, model, key);
    assert key in Waiting(t, md5, model, key.workspace);
    assert Waiting(t, md5, model, key.workspace) != {};
  }

  /** A live issue whose job about its current text is retired shows up among the
      failures, unless its vector is current. */
  lemma RetiredIsFailed<V>(s: State<V>, md5: Md5, model: string, key: Key)
    requires Live(s, key) && !Fresh(s, md5, model, key)
    requires key in s.jobs && s.jobs[key].digest == DigestOf(md5, s.issues[key]) && s.jobs[key].due == Infinity
    ensures IndexingState(s, md5, model, key.workspace).failed >= 1 && key in GivenUp(s, md5, model, key.workspace)
  {
    CountedWhere(s, md5, model, key.workspace, key);
    assert GivenUp(s, md5, model, key.workspace) != {};
  }

  lemma IndexedIffCounted<V>(s: State<V>, md5: Md5, model: string)
    ensures FullyIndexed(s, md5, model) <==> forall workspace :: AllIndexed(IndexingState(s, md5, model, workspace))
  {
    if FullyIndexed(s, md5, model) {
      forall workspace ensures AllIndexed(IndexingState(s, md5, model, workspace)) {
        assert Waiting(s, md5, model, workspace) == {} && GivenUp(s, md5, model, workspace) == {};
      }
    }
    if forall workspace :: AllIndexed(IndexingState(s, md5, model, workspace)) {
      forall key | Live(s, key) ensures Fresh(s, md5, model, key) {
        assert AllIndexed(IndexingState(s, md5, model, key.workspace));
        assert |Waiting(s, md5, model, key.workspace)| == 0 && |GivenUp(s, md5, model, key.workspace)| == 0;
        assert key in LiveIn(s, key.workspace);
        assert key !in Waiting(s, md5, model, key.workspace) && key !in GivenUp(s, md5, model, key.workspace);
      }
    }
  }

  predicate AllIndexed(c: Counts) { c.pending == 0 && c.failed == 0 }

  /** A sweep that queues nothing does not mean fully indexed: it does exactly
      when no live issue that is not fresh has a job about its current text,
      waiting or retired; and what the counts show as pending are just those jobs. */
  lemma ZeroMeansIndexedIff<V>(s: State<V>, md5: Md5, model: string, limit: nat, picked: set<Key>)
    requires IsSweep(s, md5, model, limit, picked) && 0 < limit && |picked| == 0
    ensures FullyIndexed(s, md5, model) <==> !exists key :: Live(s, key) && !Fresh(s, md5, model, key) && HasCurrentJob(s, md5, key)
    ensures forall workspace, key :: key in Waiting(s, md5, model, workspace) ==> HasCurrentJob(s, md5, key) && s.jobs[key].due.At?
  {
    ZeroQueuedIff(s, md5, model, limit, picked);
  }

  // -------------------------------------------------------- the tables, written

  /** What came of embedding one text. */
  datatype Outcome<+V> = Vector(vector: V) | Failure(error: string)

  /** A claimed job is due to nobody until its lease is over. */
  lemma LeasedNotDue<V>(s: State<V>, now: real, lease: real, picked: set<Key>, key: Key, t: real)
    requires (forall k :: k in picked ==> k in s.jobs) && key in picked
    ensures IsDue(Claimed(s, now, lease, picked).jobs[key], t) <==> now + lease <= t
  {}

  /** The rows the claim's common table expression selects. */
  method Soonest<V>(s: State<V>, limit: nat, now: real, locked: set<Key>) returns (picked: set<Key>)
    ensures IsClaim(s, limit, now, locked, picked)
  {
    var due := Claimable(s, now, locked);
    ghost var some := SomeClaim(s, limit, now, locked);
    assert some <= due && IsClaim(s, limit, now, locked, some);
    picked :| picked <= due && IsClaim(s, limit, now, locked, picked);
  }

  /** The rows the sweep's common table expression selects. */
  method Newest<V>(s: State<V>, md5: Md5, model: string, limit: nat) returns (picked: set<Key>)
    ensures IsSweep(s, md5, model, limit, picked)
  {
    var stale := Uncovered(s, md5, model);
    ghost var some := SomeSweep(s, md5, model, limit);
    picked :| picked <= stale && IsSweep(s, md5, model, limit, picked);
  }

  /** What a failure's contract says of its row is all there is to the row. */
  lemma FailedJobIs(was: map<Key, Job>, jobs: map<Key, Job>, key: Key, now: real, error: string, maxAttempts: nat, retryAfter: real)
    requires jobs.Keys == was.Keys && forall k :: k in jobs && k != key ==> jobs[k] == was[k]
    requires key in jobs ==>
               && jobs[key].attempts == was[key].attempts + 1 && jobs[key].digest == was[key].digest
               && (jobs[key].due.Infinity? <==> was[key].attempts + 1 >= maxAttempts)
               && (jobs[key].due.At? ==> jobs[key].due.time == now + retryAfter)
               && (jobs[key].lastError.None? <==> error == "")
               && (error != "" ==> jobs[key].lastError.value <= error && |jobs[key].lastError.value| == Lesser(MAX_ERROR_LENGTH, |error|))
    ensures jobs == if key in was then was[key := FailedJob(was[key], now, error, maxAttempts, retryAfter)] else was
  {
    if key in was {
      if error != "" {
        assert jobs[key].lastError.value == error[..|jobs[key].lastError.value|];
        assert error[..|error|] == error;
      }
      assert jobs[key] == FailedJob(was[key], now, error, maxAttempts, retryAfter);
    }
  }

  class EmbeddingTables<V(==)> {
    var issues: map<Key, Issue>
    var rows: map<Key, Row<V>>
    var jobs: map<Key, Job>

    ghost function Now(): State<V>
      reads this
    {
      State(issues, rows, jobs)
    }

    constructor ()
      ensures Now() == State(map[], map[], map[])
    {
      issues, rows, jobs := map[], map[], map[];
    }

    method EnqueueStale(md5: Md5, model: string, limit: nat, now: real) returns (queued: nat, ghost picked: set<Key>)
      modifies this`jobs
      ensures IsSweep(old(Now()), md5, model, limit, picked)
      ensures Now() == Enqueued(old(Now()), md5, now, picked)
      ensures queued == old(Lesser(limit, |Uncovered(Now(), md5, model)|))
    {
      var was := State(issues, rows, jobs);
      var newest := Newest(was, md5, model, limit);
      jobs := jobs + map key | key in newest :: Job(DigestOf(md5, issues[key]), 0, At(now), None);
      queued, picked := |newest|, newest;
    }

    /** `locked` are the rows other claims hold at this moment. */
    method Claim(md5: Md5, limit: nat, now: real, lease: real, locked: set<Key>) returns (claimed: map<Key, (Source, nat)>)
      modifies this`jobs
      ensures IsClaim(old(Now()), limit, now, locked, claimed.Keys)
      ensures Now() == Claimed(old(Now()), now, lease, claimed.Keys)
      ensures forall key :: key in claimed ==> claimed[key] == (SourceOf(old(Now()), md5, key), old(jobs)[key].attempts)
    {
      var was := State(issues, rows, jobs);
      var soonest := Soonest(was, limit, now, locked);
      claimed := map key | key in soonest :: (SourceOf(was, md5, key), was.jobs[key].attempts);
      assert claimed.Keys == soonest;
      jobs := Claimed(was, now, lease, soonest).jobs;
    }

    method Upsert(md5: Md5, model: string, source: Source, vector: V) returns (written: bool)
      modifies this`rows
      ensures Now() == Upserted(old(Now()), md5, model, source, vector)
      ensures written <==>
              && source.key in issues && !issues[source.key].archived
              && md5(issues[source.key].title) + md5(Coalesced(issues[source.key].description)) == source.digest
      ensures written ==> source.key in rows && rows[source.key] == Row(model, source.digest, vector)
      ensures !written ==> rows == old(rows)
      ensures written ==> Fresh(Now(), md5, model, source.key)
    {
      var key := source.key;
      written := key in issues && !issues[key].archived && DigestOf(md5, issues[key]) == source.digest;
      if written { rows := rows[key := Row(model, DigestOf(md5, issues[key]), vector)]; }
    }

    /** One job is forgotten, and with it nothing else. */
    method Complete(key: Key)
      modifies this`jobs
      ensures key !in jobs && jobs.Keys == old(jobs.Keys) - {key}
      ensures forall k :: k in jobs ==> jobs[k] == old(jobs)[k]
    {
      jobs := jobs - {key};
    }

    /** The job at `key` has failed once more: it is retired exactly when that
        reaches the bound and otherwise waits, and no other job is touched. */
    method Fail(key: Key, now: real, error: string, maxAttempts: nat, retryAfter: real)
      modifies this`jobs
      ensures jobs.Keys == old(jobs.Keys)
      ensures forall k :: k in jobs && k != key ==> jobs[k] == old(jobs)[k]
      ensures key in jobs ==>
                && jobs[key].attempts == old(jobs)[key].attempts + 1 && jobs[key].digest == old(jobs)[key].digest
                && (jobs[key].due.Infinity? <==> old(jobs)[key].attempts + 1 >= maxAttempts)
                && (jobs[key].due.At? ==> jobs[key].due.time == now + retryAfter)
                && (retryAfter > 0.0 ==> !IsDue(jobs[key], now))
                && (jobs[key].lastError.None? <==> error == "")
                && (error != "" ==> jobs[key].lastError.value <= error && |jobs[key].lastError.value| == Lesser(MAX_ERROR_LENGTH, |error|))
    {
      if key in jobs {
        var n := jobs[key].attempts + 1;
        jobs := jobs[key := Job(jobs[key].digest, n, if n >= maxAttempts then Infinity else At(now + retryAfter), Recorded(error))];
      }
    }

    /** _store: one job's outcome, in one transaction. */
    method Store(md5: Md5, model: string, source: Source, attempts: nat, outcome: Outcome<V>, now: real) returns (written: nat)
      modifies this`rows, this`jobs
      ensures outcome.Vector? ==> Now() == Completed(Upserted(old(Now()), md5, model, source, outcome.vector), source.key)
      ensures outcome.Failure? ==>
                Now() == Failed(old(Now()), source.key, now, outcome.error, MAX_ATTEMPTS, RetryDelay(attempts + 1))
      ensures written == if outcome.Vector? && Accepts(old(Now()), md5, source) then 1 else 0
    {
      ghost var was := jobs;
      match outcome
      case Failure(error) =>
        Fail(source.key, now, error, MAX_ATTEMPTS, RetryDelay(attempts + 1));
        FailedJobIs(was, jobs, source.key, now, error, MAX_ATTEMPTS, RetryDelay(attempts + 1));
        written := 0;
      case Vector(vector) =>
        var stored := Upsert(md5, model, source, vector);
        Complete(source.key);
        written := if stored then 1 else 0;
    }
  }
}
