/** What a reader finds in a release note, line by line
    (app/domain/releases.py:218-373). */
module NoteTheorems {
  import opened Wrappers
  import opened Text
  import opened Decimal
  import opened Sorting
  import opened ReleaseNotes

  // ------------------------------------------------------------------ ascending

  lemma {:induction false} TextLeqMeans(a: string, b: string)
    requires TextLeq(a, b)
    ensures a == b || Precedes(a, b)
  {
    if a == [] {
      if b != [] { assert PartsAt(a, b, 0); }
    } else if a[0] < b[0] {
      assert PartsAt(a, b, 0);
    } else {
      TextLeqMeans(a[1..], b[1..]);
      assert a == [a[0]] + a[1..] && b == [b[0]] + b[1..];
      if a[1..] != b[1..] {
        var k: nat :| PartsAt(a[1..], b[1..], k);
        assert a[..k + 1] == [a[0]] + a[1..][..k] && b[..k + 1] == [b[0]] + b[1..][..k];
        assert PartsAt(a, b, k + 1);
      }
    }
  }

  lemma {:induction false} SortedPair<T(!new)>(s: seq<T>, leq: (T, T) -> bool, i: nat, j: nat)
    requires IsTotal(leq) && IsSorted(s, leq) && i < j < |s|
    ensures leq(s[i], s[j])
    decreases j
  {
    if i > 0 {
      SortedPair(s[1..], leq, i - 1, j - 1);
    } else if j > 1 {
      SortedPair(s[1..], leq, 0, j - 1);
    }
  }

  /** By team and then by number. */
  ghost predicate IssuesAscend(s: seq<IssueRef>) {
    forall i, j :: 0 <= i < j < |s| ==>
      Precedes(s[i].teamKey, s[j].teamKey) || (s[i].teamKey == s[j].teamKey && s[i].number <= s[j].number)
  }

  /** By repository and then by number. */
  ghost predicate PullsAscend(s: seq<PullRef>) {
    forall i, j :: 0 <= i < j < |s| ==>
      s[i].repository < s[j].repository || (s[i].repository == s[j].repository && s[i].number <= s[j].number)
  }

  lemma SortedAscend(issues: seq<IssueRef>, pulls: seq<PullRef>)
    ensures IssuesAscend(Sort(issues, IssueLeq)) && multiset(Sort(issues, IssueLeq)) == multiset(issues)
    ensures PullsAscend(Sort(pulls, PullLeq)) && multiset(Sort(pulls, PullLeq)) == multiset(pulls)
  {
    IssueOrder();
    PullOrder();
    SortSorts(issues, IssueLeq);
    SortSorts(pulls, PullLeq);
    var s, t := Sort(issues, IssueLeq), Sort(pulls, PullLeq);
    forall i, j | 0 <= i < j < |s|
      ensures Precedes(s[i].teamKey, s[j].teamKey) || (s[i].teamKey == s[j].teamKey && s[i].number <= s[j].number)
    {
      SortedPair(s, IssueLeq, i, j);
      TextLeqMeans(s[i].teamKey, s[j].teamKey);
    }
    forall i, j | 0 <= i < j < |t|
      ensures t[i].repository < t[j].repository || (t[i].repository == t[j].repository && t[i].number <= t[j].number)
    {
      SortedPair(t, PullLeq, i, j);
    }
  }

  // -------------------------------------------------------------------- entries

  lemma {:induction false} ShownAt<T(!new)>(s: seq<T>, line: T -> string, i: nat)
    requires i < |s|
    ensures Shown(s, line)[i] == line(s[i])
  {
    if i > 0 { ShownAt(s[1..], line, i - 1); }
  }

  /** Where the first pull request stands. */
  function PullsFrom(issues: nat): nat { if issues == 0 then 3 else issues + 5 }

  lemma SectionAt(front: seq<string>, heading: string, entries: seq<string>, back: seq<string>, i: nat)
    requires i < |entries|
    ensures var lines := front + Section(heading, entries) + back;
            && |lines| >= |front| + |entries| + 2
            && lines[|front|] == heading + " (" + Digits(|entries|) + ")" && lines[|front| + 1 + i] == entries[i]
  {
    assert Section(heading, entries)[0] == Heading(heading, |entries|);
    assert Section(heading, entries)[1 + i] == entries[i];
  }

  lemma IssueAt(r: Release, entries: seq<string>, pulls: seq<string>, i: nat)
    requires i < |entries|
    ensures var lines := Lines(r, entries, pulls);
            && |lines| > 3 + i
            && lines[2] == "Issues" + " (" + Digits(|entries|) + ")" && lines[3 + i] == entries[i]
  {
    var s, t, c := Section("Issues", entries), Section("Pull requests", pulls), Closing(r, entries == [] && pulls == []);
    assert Opening(r) + s + t + c == Opening(r) + s + (t + c);
    SectionAt(Opening(r), "Issues", entries, t + c, i);
  }

  lemma PullAt(r: Release, issues: seq<string>, entries: seq<string>, i: nat)
    requires i < |entries|
    ensures var lines, n := Lines(r, issues, entries), PullsFrom(|issues|);
            && |lines| > n + i
            && lines[n - 1] == "Pull requests" + " (" + Digits(|entries|) + ")" && lines[n + i] == entries[i]
  {
    SectionLength("Issues", issues);
    SectionAt(Opening(r) + Section("Issues", issues), "Pull requests", entries, Closing(r, issues == [] && entries == []), i);
  }

  /** The counted heading, then one line for each issue: its identifier and its
      title flattened. */
  ghost predicate ShowsIssues(lines: seq<string>, s: seq<IssueRef>) {
    s != [] ==>
      && |lines| > 2 + |s| && lines[2] == "Issues" + " (" + Digits(|s|) + ")"
      && forall i :: 0 <= i < |s| ==> lines[3 + i] == "- " + s[i].teamKey + "-" + Digits(s[i].number) + " " + OneLine(s[i].title)
  }

  ghost predicate ShowsPulls(lines: seq<string>, from: nat, t: seq<PullRef>) {
    t != [] ==>
      && 0 < from && |lines| >= from + |t| && lines[from - 1] == "Pull requests" + " (" + Digits(|t|) + ")"
      && forall i :: 0 <= i < |t| ==> lines[from + i] == "- #" + Digits(t[i].number) + " " + OneLine(t[i].title)
  }

  lemma IssuesAreShown(r: Release, s: seq<IssueRef>, pulls: seq<string>)
    ensures ShowsIssues(Lines(r, Shown(s, IssueLine), pulls), s)
  {
    var lines := Lines(r, Shown(s, IssueLine), pulls);
    if s != [] { IssueAt(r, Shown(s, IssueLine), pulls, |s| - 1); }
    forall i | 0 <= i < |s| ensures |lines| > 3 + i && lines[3 + i] == IssueLine(s[i]) {
      IssueAt(r, Shown(s, IssueLine), pulls, i);
      ShownAt(s, IssueLine, i);
    }
  }

  lemma PullsAreShown(r: Release, issues: seq<string>, t: seq<PullRef>)
    ensures ShowsPulls(Lines(r, issues, Shown(t, PullLine)), PullsFrom(|issues|), t)
  {
    var lines, from := Lines(r, issues, Shown(t, PullLine)), PullsFrom(|issues|);
    if t != [] { PullAt(r, issues, Shown(t, PullLine), |t| - 1); }
    forall i | 0 <= i < |t| ensures |lines| > from + i && lines[from + i] == PullLine(t[i]) {
      PullAt(r, issues, Shown(t, PullLine), i);
      ShownAt(t, PullLine, i);
    }
  }

  /** A note lists its issues by team and number, then its pull requests by
      repository and number, each once. */
  lemma EntriesAreShown(r: Release, issues: seq<IssueRef>, pulls: seq<PullRef>) returns (s: seq<IssueRef>, t: seq<PullRef>)
    requires ReleaseFits(r) && IssuesFit(issues) && PullsFit(pulls) && Countable(|issues|) && Countable(|pulls|)
    ensures multiset(s) == multiset(issues) && IssuesAscend(s) && multiset(t) == multiset(pulls) && PullsAscend(t)
    ensures ShowsIssues(SplitLines(Note(r, issues, pulls)), s)
    ensures ShowsPulls(SplitLines(Note(r, issues, pulls)), PullsFrom(|s|), t)
  {
    s, t := Sort(issues, IssueLeq), Sort(pulls, PullLeq);
    SortedAscend(issues, pulls);
    NoTitleForgesALine(r, issues, pulls);
    IssuesAreShown(r, s, PullLines(pulls));
    PullsAreShown(r, IssueLines(issues), t);
  }

  // ---------------------------------------------------------------------- frame

  /** The first seven characters of a commit hash. */
  predicate IsShort(sha: string, short: string) { short <= sha && |short| == if |sha| < 7 then |sha| else 7 }

  /** The last line runs from the release before to this one. */
  ghost predicate IsRange(r: Release, line: string) {
    exists a, b :: IsRangeOf(r, line, a, b)
  }

  predicate IsRangeOf(r: Release, line: string, a: string, b: string) {
    && IsShort(r.commitSha, b)
    && (r.previousSha.None? ==> line == "Range: everything up to " + b)
    && (r.previousSha.Some? ==> IsShort(r.previousSha.value, a) && line == "Range: " + a + ".." + b)
  }

  lemma RangeLineIsRange(r: Release)
    ensures IsRange(r, RangeLine(r.commitSha, r.previousSha))
  {
    var a, b := if r.previousSha.Some? then Prefix(r.previousSha.value) else "", Prefix(r.commitSha);
    assert IsRangeOf(r, RangeLine(r.commitSha, r.previousSha), a, b);
  }

  lemma ClosingAt(front: seq<string>, r: Release, empty: bool)
    ensures var lines, n := front + Closing(r, empty), |front| + |Closing(r, empty)|;
            && n >= |front| + 1 && lines[n - 1] == RangeLine(r.commitSha, r.previousSha)
            && (r.truncated ==> n >= |front| + 3 && lines[n - 3] == TRUNCATED && lines[n - 2] == "")
            && (empty ==> n >= |front| + 3 && lines[|front|] == NO_CHANGES && lines[|front| + 1] == "")
  {
    FrameLength(r, empty);
  }

  /** Around the entries: the release's name first and its range last, with a line
      saying that nothing shipped, or that not everything is listed. */
  lemma FrameIsShown(r: Release, issues: seq<IssueRef>, pulls: seq<PullRef>)
    requires ReleaseFits(r) && IssuesFit(issues) && PullsFit(pulls) && Countable(|issues|) && Countable(|pulls|)
    ensures var lines := SplitLines(Note(r, issues, pulls));
            var n := |lines|;
            && n >= 3 && lines[0] == OneLine(r.name) && lines[1] == ""
            && IsRange(r, lines[n - 1])
            && (r.truncated ==> n >= 5 && lines[n - 3] == TRUNCATED && lines[n - 2] == "")
            && (issues == [] && pulls == [] ==> n >= 5 && lines[2] == NO_CHANGES && lines[3] == "")
  {
    NoTitleForgesALine(r, issues, pulls);
    EntriesAreLines(issues, pulls);
    var a, b := IssueLines(issues), PullLines(pulls);
    var front := Opening(r) + Section("Issues", a) + Section("Pull requests", b);
    ClosingAt(front, r, a == [] && b == []);
    RangeLineIsRange(r);
    assert front[0] == OneLine(r.name) && front[1] == "";
  }

  /** A long title is cut at a fixed place. */
  lemma LongTitleIsCut(text: string)
    requires |Join(Words(text), " ")| > 120
    ensures |OneLine(text)| == 120 && OneLine(text)[117..] == "..." && OneLine(text)[..117] == Join(Words(text), " ")[..117]
  {}
}
