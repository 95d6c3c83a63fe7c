/** The note of one release, as a deterministic document whose lines no title can
    forge (app/domain/releases.py:101-135, 218-373). */
module ReleaseNotes {
  import opened Wrappers
  import opened Text
  import opened Decimal
  import opened Sorting

  const SHORT_SHA_LENGTH: nat := 7
  const RANGE_LIMIT: nat := 200
  const NOTE_TITLE_MAX_LENGTH: nat := 120
  const NOTES_MAX_LENGTH: nat := 100_000
  const NO_CHANGES := "No linked issues or " + "pull requests in this range."
  const TRUNCATED := "Only the first 200 of " + "each kind are listed; " + "this range holds more."

  datatype IssueRef = IssueRef(teamKey: string, number: nat, title: string)

  datatype PullRef = PullRef(repository: int, number: nat, title: string)

  // ---------------------------------------------------------------- one line

  function WordRun(s: string): (n: nat)
    ensures n <= |s| && forall i :: 0 <= i < n ==> !IsSpace(s[i])
    ensures s != [] && !IsSpace(s[0]) ==> n > 0
  {
    if s == [] || IsSpace(s[0]) then 0 else 1 + WordRun(s[1..])
  }

  /** text.split() */
  function Words(s: string): seq<string>
    decreases |s|
  {
    if s == [] then []
    else if IsSpace(s[0]) then Words(s[1..])
    else [s[..WordRun(s)]] + Words(s[WordRun(s)..])
  }

  function Join(parts: seq<string>, separator: string): string {
    if parts == [] then ""
    else if |parts| == 1 then parts[0]
    else parts[0] + separator + Join(parts[1..], separator)
  }

  function OneLine(text: string): string {
    var collapsed := Join(Words(text), " ");
    if |collapsed| <= NOTE_TITLE_MAX_LENGTH then collapsed else collapsed[..NOTE_TITLE_MAX_LENGTH - 3] + "..."
  }

  /** Text a line-oriented reader sees as part of one line. */
  predicate IsUnbroken(s: string) {
    forall i :: 0 <= i < |s| ==> !IsLineBreak(s[i])
  }

  predicate AreWords(words: seq<string>) {
    forall w :: w in words ==> forall i :: 0 <= i < |w| ==> !IsSpace(w[i])
  }

  lemma {:induction false} WordsAreWords(s: string)
    ensures AreWords(Words(s))
    decreases |s|
  {
    if s != [] { WordsAreWords(if IsSpace(s[0]) then s[1..] else s[WordRun(s)..]); }
  }

  lemma {:induction false} JoinedWords(words: seq<string>)
    requires AreWords(words)
    ensures forall i :: 0 <= i < |Join(words, " ")| ==> !IsSpace(Join(words, " ")[i]) || Join(words, " ")[i] == ' '
  {
    if |words| == 1 {
      assert words[0] in words;
    } else if words != [] {
      assert words[0] in words;
      JoinedWords(words[1..]);
    }
  }

  /** Whatever its author wrote, a title is at most 120 characters of one line. */
  lemma OneLineIsOne(text: string)
    ensures IsUnbroken(OneLine(text)) && |OneLine(text)| <= NOTE_TITLE_MAX_LENGTH
  {
    WordsAreWords(text);
    JoinedWords(Words(text));
  }

  lemma {:induction false} WordRunIs(word: string, rest: string)
    requires forall i :: 0 <= i < |word| ==> !IsSpace(word[i])
    requires rest == [] || IsSpace(rest[0])
    ensures WordRun(word + rest) == |word|
  {
    if word == [] {
      assert word + rest == rest;
    } else {
      assert (word + rest)[1..] == word[1..] + rest;
      WordRunIs(word[1..], rest);
    }
  }

  lemma FirstWord(word: string, rest: string)
    requires word != [] && forall i :: 0 <= i < |word| ==> !IsSpace(word[i])
    requires rest == [] || rest[0] == ' '
    ensures Words(word + rest) == [word] + (if rest == [] then [] else Words(rest[1..]))
  {
    WordRunIs(word, rest);
    var s := word + rest;
    assert s[0] == word[0] && s[..|word|] == word && s[|word|..] == rest;
  }

  lemma {:induction false} WordsOfJoined(words: seq<string>)
    requires AreWords(words) && forall w :: w in words ==> w != []
    ensures Words(Join(words, " ")) == words
  {
    if words != [] {
      assert words[0] in words;
      if |words| == 1 {
        assert words[0] + [] == words[0];
        FirstWord(words[0], []);
      } else {
        var more := Join(words[1..], " ");
        WordsOfJoined(words[1..]);
        FirstWord(words[0], " " + more);
        assert words[0] + " " + more == words[0] + (" " + more) && (" " + more)[1..] == more;
        assert words == [words[0]] + words[1..];
      }
    }
  }

  lemma {:induction false} WordsAreNotEmpty(s: string)
    ensures forall w :: w in Words(s) ==> w != []
    decreases |s|
  {
    if s != [] { WordsAreNotEmpty(if IsSpace(s[0]) then s[1..] else s[WordRun(s)..]); }
  }

  /** Flattening loses nothing but white space: a title that fits keeps its words,
      and one that is already flat stays as it is. */
  lemma OneLineKeepsWords(text: string)
    requires |Join(Words(text), " ")| <= NOTE_TITLE_MAX_LENGTH
    ensures Words(OneLine(text)) == Words(text) && OneLine(OneLine(text)) == OneLine(text)
  {
    WordsAreWords(text);
    WordsAreNotEmpty(text);
    WordsOfJoined(Words(text));
  }

  // ------------------------------------------------------------------ sorting

  /** Python's order on strings. */
  predicate TextLeq(a: string, b: string) {
    a == [] || (b != [] && (a[0] < b[0] || (a[0] == b[0] && TextLeq(a[1..], b[1..]))))
  }

  lemma {:induction false} TextOrder(a: string, b: string, c: string)
    ensures TextLeq(a, b) || TextLeq(b, a)
    ensures TextLeq(a, b) && TextLeq(b, c) ==> TextLeq(a, c)
    ensures TextLeq(a, b) && TextLeq(b, a) ==> a == b
  {
    if a != [] && b != [] {
      TextOrder(a[1..], b[1..], if c == [] then c else c[1..]);
      if TextLeq(a, b) && TextLeq(b, a) { assert a == [a[0]] + a[1..] && b == [b[0]] + b[1..]; }
    }
  }

  /** key=lambda ref: (ref.team_key, ref.number) */
  predicate IssueLeq(a: IssueRef, b: IssueRef) {
    TextLeq(a.teamKey, b.teamKey) && (a.teamKey == b.teamKey ==> a.number <= b.number)
  }

  /** key=lambda ref: (ref.repository_id, ref.number) */
  predicate PullLeq(a: PullRef, b: PullRef) {
    a.repository < b.repository || (a.repository == b.repository && a.number <= b.number)
  }

  lemma IssueOrder()
    ensures IsTotal(IssueLeq)
  {
    forall a, b ensures IssueLeq(a, b) || IssueLeq(b, a) { TextOrder(a.teamKey, b.teamKey, a.teamKey); }
    forall a, b, c | IssueLeq(a, b) && IssueLeq(b, c) ensures IssueLeq(a, c) {
      TextOrder(a.teamKey, b.teamKey, c.teamKey);
      TextOrder(b.teamKey, c.teamKey, a.teamKey);
    }
  }

  lemma PullOrder()
    ensures IsTotal(PullLeq)
  {}

  // ------------------------------------------------------------------ the note

  function IssueLine(ref: IssueRef): string { "- " + ref.teamKey + "-" + Digits(ref.number) + " " + OneLine(ref.title) }

  function PullLine(ref: PullRef): string { "- #" + Digits(ref.number) + " " + OneLine(ref.title) }

  function Prefix(sha: string): string { if |sha| <= SHORT_SHA_LENGTH then sha else sha[..SHORT_SHA_LENGTH] }

  function RangeLine(commitSha: string, previousSha: Option<string>): string {
    match previousSha
    case None => "Range: everything up to " + Prefix(commitSha)
    case Some(previous) => "Range: " + Prefix(previous) + ".." + Prefix(commitSha)
  }

  function Heading(name: string, n: nat): string { name + " (" + Digits(n) + ")" }

  /** A heading with its count, the entries, and a blank line; or nothing. */
  function Section(heading: string, entries: seq<string>): seq<string> {
    if entries == [] then [] else [Heading(heading, |entries|)] + entries + [""]
  }

  datatype Release = Release(name: string, commitSha: string, previousSha: Option<string>, truncated: bool)

  /** The lines around the entries. */
  function Opening(r: Release): seq<string> { [OneLine(r.name), ""] }

  function Closing(r: Release, empty: bool): seq<string> {
    (if empty then [NO_CHANGES, ""] else []) + (if r.truncated then [TRUNCATED, ""] else []) + [RangeLine(r.commitSha, r.previousSha)]
  }

  function Lines(r: Release, issues: seq<string>, pulls: seq<string>): seq<string> {
    Opening(r) + Section("Issues", issues) + Section("Pull requests", pulls) + Closing(r, issues == [] && pulls == [])
  }

  function IssueLines(issues: seq<IssueRef>): seq<string> { Shown(Sort(issues, IssueLeq), IssueLine) }

  function PullLines(pulls: seq<PullRef>): seq<string> { Shown(Sort(pulls, PullLeq), PullLine) }

  function Note(r: Release, issues: seq<IssueRef>, pulls: seq<PullRef>): string {
    Join(Lines(r, IssueLines(issues), PullLines(pulls)), "\n")
  }

  lemma {:induction false} ShownStep<T(!new)>(s: seq<T>, line: T -> string, i: nat)
    requires i < |s|
    ensures Shown(s[..i + 1], line) == Shown(s[..i], line) + [line(s[i])]
  {
    if i > 0 {
      ShownStep(s[1..], line, i - 1);
      assert s[1..][..i - 1] == s[..i][1..] && s[1..][..i] == s[..i + 1][1..];
    } else {
      assert s[..1] == [s[0]];
    }
  }

  /** lines.append(heading); lines.extend(one line per entry); lines.append("") */
  method AppendSection<T(!new)>(lines: seq<string>, heading: string, ordered: seq<T>, line: T -> string) returns (longer: seq<string>)
    ensures longer == lines + Section(heading, Shown(ordered, line))
  {
    if ordered == [] { return lines; }
    var title := Heading(heading, |ordered|);
    longer := lines + [title];
    ghost var start := longer;
    for i := 0 to |ordered|
      invariant longer == start + Shown(ordered[..i], line)
    {
      ShownStep(ordered, line, i);
      longer := longer + [line(ordered[i])];
    }
    assert ordered[..|ordered|] == ordered;
    SectionJoins(lines, title, Shown(ordered, line));
    longer := longer + [""];
  }

  lemma SectionJoins(lines: seq<string>, title: string, entries: seq<string>)
    ensures lines + [title] + entries + [""] == lines + ([title] + entries + [""])
  {}

  method RenderReleaseNotes(r: Release, issues: seq<IssueRef>, pulls: seq<PullRef>) returns (note: string)
    ensures note == Note(r, issues, pulls)
  {
    var orderedIssues, orderedPulls := Sort(issues, IssueLeq), Sort(pulls, PullLeq);
    var lines := [OneLine(r.name), ""];
    lines := AppendSection(lines, "Issues", orderedIssues, IssueLine);
    lines := AppendSection(lines, "Pull requests", orderedPulls, PullLine);
    var closing: seq<string> := [];
    if orderedIssues == [] && orderedPulls == [] { closing := closing + [NO_CHANGES, ""]; }
    if r.truncated { closing := closing + [TRUNCATED, ""]; }
    closing := closing + [RangeLine(r.commitSha, r.previousSha)];
    assert closing == Closing(r, IssueLines(issues) == [] && PullLines(pulls) == []);
    note := Join(lines + closing, "\n");
  }

  // ------------------------------------------------------------ what it promises

  /** The parts the schema checks: keys, commit hashes, and numbers that fit. */
  predicate IsName(s: string) { forall i :: 0 <= i < |s| ==> '!' <= s[i] <= '~' }

  predicate IssuesFit(issues: seq<IssueRef>) {
    forall x :: x in issues ==> IsName(x.teamKey) && |x.teamKey| <= 10 && |Digits(x.number)| <= 19
  }

  predicate PullsFit(pulls: seq<PullRef>) {
    forall x :: x in pulls ==> |Digits(x.number)| <= 10
  }

  predicate ReleaseFits(r: Release) {
    IsName(r.commitSha) && (r.previousSha.Some? ==> IsName(r.previousSha.value))
  }

  /** What every line of a note is. */
  predicate IsLine(s: string) { IsUnbroken(s) && |s| <= 160 }

  predicate AreLines(lines: seq<string>) { forall i :: 0 <= i < |lines| ==> IsLine(lines[i]) }

  lemma DigitsUnbroken(n: nat)
    ensures IsUnbroken(Digits(n))
  {
    forall i | 0 <= i < |Digits(n)| ensures !IsLineBreak(Digits(n)[i]) { assert IsDigit(Digits(n)[i]); }
  }

  lemma Unbroken2(a: string, b: string)
    requires IsUnbroken(a) && IsUnbroken(b)
    ensures IsUnbroken(a + b)
  {}

  lemma IssueLineIs(x: IssueRef)
    requires IsName(x.teamKey) && |x.teamKey| <= 10 && |Digits(x.number)| <= 19
    ensures IsLine(IssueLine(x))
  {
    OneLineIsOne(x.title);
    DigitsUnbroken(x.number);
    Unbroken2("- ", x.teamKey);
    Unbroken2("- " + x.teamKey, "-");
    Unbroken2("- " + x.teamKey + "-", Digits(x.number));
    Unbroken2("- " + x.teamKey + "-" + Digits(x.number), " ");
    Unbroken2("- " + x.teamKey + "-" + Digits(x.number) + " ", OneLine(x.title));
  }

  lemma PullLineIs(x: PullRef)
    requires |Digits(x.number)| <= 10
    ensures IsLine(PullLine(x))
  {
    OneLineIsOne(x.title);
    DigitsUnbroken(x.number);
    Unbroken2("- #", Digits(x.number));
    Unbroken2("- #" + Digits(x.number), " ");
    Unbroken2("- #" + Digits(x.number) + " ", OneLine(x.title));
  }

  lemma {:induction false} ShownAreLines<T(!new)>(s: seq<T>, line: T -> string)
    requires forall x :: x in s ==> IsLine(line(x))
    ensures AreLines(Shown(s, line))
  {
    if s != [] { ShownAreLines(s[1..], line); }
  }

  lemma SameMembers<T(!new)>(s: seq<T>, t: seq<T>)
    requires multiset(s) == multiset(t)
    ensures |s| == |t| && forall x :: x in s <==> x in t
  {
    assert |multiset(s)| == |multiset(t)|;
    forall x ensures x in s <==> x in t { assert x in s <==> x in multiset(s); assert x in t <==> x in multiset(t); }
  }

  lemma EntriesAreLines(issues: seq<IssueRef>, pulls: seq<PullRef>)
    requires IssuesFit(issues) && PullsFit(pulls)
    ensures AreLines(IssueLines(issues)) && |IssueLines(issues)| == |issues|
    ensures AreLines(PullLines(pulls)) && |PullLines(pulls)| == |pulls|
  {
    IssueOrder();
    PullOrder();
    SortSorts(issues, IssueLeq);
    SortSorts(pulls, PullLeq);
    SameMembers(Sort(issues, IssueLeq), issues);
    SameMembers(Sort(pulls, PullLeq), pulls);
    forall x | x in Sort(issues, IssueLeq) ensures IsLine(IssueLine(x)) { IssueLineIs(x); }
    forall x | x in Sort(pulls, PullLeq) ensures IsLine(PullLine(x)) { PullLineIs(x); }
    ShownAreLines(Sort(issues, IssueLeq), IssueLine);
    ShownAreLines(Sort(pulls, PullLeq), PullLine);
  }

  lemma SectionAreLines(heading: string, entries: seq<string>)
    requires IsUnbroken(heading) && |heading| <= 20 && AreLines(entries) && |Digits(|entries|)| <= 100
    ensures AreLines(Section(heading, entries))
  {
    var n := Digits(|entries|);
    DigitsUnbroken(|entries|);
    Unbroken2(heading, " (");
    Unbroken2(heading + " (", n);
    Unbroken2(heading + " (" + n, ")");
    assert Heading(heading, |entries|) == heading + " (" + n + ")";
    assert IsLine(Heading(heading, |entries|));
  }

  lemma PrefixIsName(sha: string)
    requires IsName(sha)
    ensures IsUnbroken(Prefix(sha)) && |Prefix(sha)| <= SHORT_SHA_LENGTH
  {}

  lemma RangeIsLine(r: Release)
    requires ReleaseFits(r)
    ensures IsLine(RangeLine(r.commitSha, r.previousSha)) && RangeLine(r.commitSha, r.previousSha) != []
  {
    PrefixIsName(r.commitSha);
    if r.previousSha.Some? {
      PrefixIsName(r.previousSha.value);
      Unbroken2("Range: ", Prefix(r.previousSha.value));
      Unbroken2("Range: " + Prefix(r.previousSha.value), "..");
      Unbroken2("Range: " + Prefix(r.previousSha.value) + "..", Prefix(r.commitSha));
    } else {
      Unbroken2("Range: everything up to ", Prefix(r.commitSha));
    }
  }

  lemma EmptyRangeIsLine()
    ensures IsLine(NO_CHANGES)
  {
    Unbroken2("No linked issues or ", "pull requests in this range.");
  }

  lemma TruncatedIsLine()
    ensures IsLine(TRUNCATED)
  {
    var a, b, c := "Only the first 200 of ", "each kind are listed; ", "this range holds more.";
    Unbroken2(a, b);
    Unbroken2(a + b, c);
  }

  lemma FrameAreLines(r: Release, empty: bool)
    requires ReleaseFits(r)
    ensures AreLines(Opening(r)) && AreLines(Closing(r, empty))
  {
    OneLineIsOne(r.name);
    RangeIsLine(r);
    EmptyRangeIsLine();
    TruncatedIsLine();
  }

  /** How many lines the counts dictate. */
  function LineCount(issues: nat, pulls: nat, truncated: bool): nat {
    3 + (if issues == 0 then 0 else issues + 2) + (if pulls == 0 then 0 else pulls + 2)
    + (if issues == 0 && pulls == 0 then 2 else 0) + (if truncated then 2 else 0)
  }

  lemma MoreLines(a: seq<string>, b: seq<string>)
    requires AreLines(a) && AreLines(b)
    ensures AreLines(a + b) && |a + b| == |a| + |b|
  {}

  lemma JoinedSections(opening: seq<string>, s: seq<string>, t: seq<string>, closing: seq<string>)
    requires AreLines(opening) && AreLines(s) && AreLines(t) && AreLines(closing)
    ensures AreLines(opening + s + t + closing) && |opening + s + t + closing| == |opening| + |s| + |t| + |closing|
  {
    MoreLines(opening, s);
    MoreLines(opening + s, t);
    MoreLines(opening + s + t, closing);
  }

  lemma LinesAreLines(r: Release, issues: seq<IssueRef>, pulls: seq<PullRef>)
    requires ReleaseFits(r) && IssuesFit(issues) && PullsFit(pulls)
    requires |Digits(|issues|)| <= 100 && |Digits(|pulls|)| <= 100
    ensures AreLines(Lines(r, IssueLines(issues), PullLines(pulls)))
    ensures |Lines(r, IssueLines(issues), PullLines(pulls))| == LineCount(|issues|, |pulls|, r.truncated)
  {
    EntriesAreLines(issues, pulls);
    FramedAreLines(r, IssueLines(issues), PullLines(pulls));
  }

  lemma FramedAreLines(r: Release, a: seq<string>, b: seq<string>)
    requires ReleaseFits(r) && AreLines(a) && AreLines(b) && |Digits(|a|)| <= 100 && |Digits(|b|)| <= 100
    ensures AreLines(Lines(r, a, b)) && |Lines(r, a, b)| == LineCount(|a|, |b|, r.truncated)
  {
    FrameAreLines(r, a == [] && b == []);
    SectionAreLines("Issues", a);
    SectionAreLines("Pull requests", b);
    JoinedSections(Opening(r), Section("Issues", a), Section("Pull requests", b), Closing(r, a == [] && b == []));
    SectionLength("Issues", a);
    SectionLength("Pull requests", b);
    FrameLength(r, a == [] && b == []);
  }

  lemma SectionLength(heading: string, entries: seq<string>)
    ensures |Section(heading, entries)| == if entries == [] then 0 else |entries| + 2
  {}

  lemma FrameLength(r: Release, empty: bool)
    ensures |Opening(r)| == 2
    ensures |Closing(r, empty)| == 1 + (if empty then 2 else 0) + (if r.truncated then 2 else 0)
  {}

  /** A text as a line-oriented reader takes it apart. */
  function SplitLines(s: string): (r: seq<string>)
    ensures r != []
  {
    if s == [] then [[]]
    else
      var rest := SplitLines(s[1..]);
      if IsLineBreak(s[0]) then [[]] + rest else [[s[0]] + rest[0]] + rest[1..]
  }

  lemma {:induction false} SplitFirst(line: string, rest: string)
    requires IsUnbroken(line)
    ensures SplitLines(line + "\n" + rest) == [line] + SplitLines(rest)
  {
    var s := line + "\n" + rest;
    if line == [] {
      assert s[1..] == rest;
    } else {
      assert s[1..] == line[1..] + "\n" + rest;
      SplitFirst(line[1..], rest);
      assert [line[0]] + line[1..] == line;
    }
  }

  lemma {:induction false} SplitLast(line: string)
    requires IsUnbroken(line)
    ensures SplitLines(line) == [line]
  {
    if line != [] {
      SplitLast(line[1..]);
      assert [line[0]] + line[1..] == line;
    }
  }

  lemma {:induction false} SplitJoined(lines: seq<string>)
    requires lines != [] && AreLines(lines)
    ensures SplitLines(Join(lines, "\n")) == lines
  {
    assert IsLine(lines[0]);
    if |lines| == 1 {
      SplitLast(lines[0]);
    } else {
      SplitJoined(lines[1..]);
      SplitFirst(lines[0], Join(lines[1..], "\n"));
    }
  }

  /** A count is short enough to print in a heading: nobody can list more. */
  predicate Countable(n: nat) { |Digits(n)| <= 100 }

  /** Read line by line, a note is exactly what was put into it, whatever the
      titles say: one line for each entry, under headings nobody can forge. */
  lemma NoTitleForgesALine(r: Release, issues: seq<IssueRef>, pulls: seq<PullRef>)
    requires ReleaseFits(r) && IssuesFit(issues) && PullsFit(pulls) && Countable(|issues|) && Countable(|pulls|)
    ensures SplitLines(Note(r, issues, pulls)) == Lines(r, IssueLines(issues), PullLines(pulls))
    ensures |SplitLines(Note(r, issues, pulls))| == LineCount(|issues|, |pulls|, r.truncated)
  {
    LinesAreLines(r, issues, pulls);
    SplitJoined(Lines(r, IssueLines(issues), PullLines(pulls)));
  }

  lemma {:induction false} JoinLength(lines: seq<string>)
    requires AreLines(lines)
    ensures |Join(lines, "\n")| <= 161 * |lines|
  {
    if |lines| == 1 {
      assert IsLine(lines[0]);
    } else if lines != [] {
      assert IsLine(lines[0]);
      JoinLength(lines[1..]);
    }
  }

  lemma ShortCount(n: nat)
    requires n <= RANGE_LIMIT
    ensures |Digits(n)| <= 3
  {
    DigitsLength(n, 3);
    assert Pow10(3) == 10 * Pow10(2) && Pow10(2) == 10 * Pow10(1) && Pow10(1) == 10 * Pow10(0);
  }

  /** A full range of the longest titles fits the column. */
  lemma NoteFits(r: Release, issues: seq<IssueRef>, pulls: seq<PullRef>)
    requires ReleaseFits(r) && IssuesFit(issues) && PullsFit(pulls) && |issues| <= RANGE_LIMIT && |pulls| <= RANGE_LIMIT
    ensures 1 <= |Note(r, issues, pulls)| <= NOTES_MAX_LENGTH
  {
    ShortCount(|issues|);
    ShortCount(|pulls|);
    LinesAreLines(r, issues, pulls);
    var lines := Lines(r, IssueLines(issues), PullLines(pulls));
    JoinLength(lines);
    NotEmpty(lines);
  }

  lemma NotEmpty(lines: seq<string>)
    requires |lines| > 1
    ensures |Join(lines, "\n")| >= 1
  {}

  // --------------------------------------------------------------- determinism

  lemma EqualParts(front: seq<string>, a: seq<string>, p: seq<string>, end: seq<string>, b: seq<string>, q: seq<string>)
    requires |a| == |b| && |p| == |q| && front + a + p + end == front + b + q + end
    ensures a == b && p == q
  {
    var s, t, n, m := front + a + p + end, front + b + q + end, |front|, |front| + |a|;
    assert a == s[n..m] && b == t[n..m];
    assert p == s[m..m + |p|] && q == t[m..m + |p|];
  }

  lemma SectionTells(heading: string, a: seq<string>, b: seq<string>)
    requires |a| == |b| && Section(heading, a) == Section(heading, b)
    ensures a == b
  {
    if a != [] { assert a == Section(heading, a)[1..|a| + 1] && b == Section(heading, b)[1..|a| + 1]; }
  }

  lemma EqualLines(r: Release, a: seq<string>, b: seq<string>, p: seq<string>, q: seq<string>)
    requires |a| == |b| && |p| == |q| && Lines(r, a, p) == Lines(r, b, q)
    ensures a == b && p == q
  {
    SectionLength("Issues", a);
    SectionLength("Issues", b);
    SectionLength("Pull requests", p);
    SectionLength("Pull requests", q);
    EqualParts(Opening(r), Section("Issues", a), Section("Pull requests", p), Closing(r, a == [] && p == []),
               Section("Issues", b), Section("Pull requests", q));
    SectionTells("Issues", a, b);
    SectionTells("Pull requests", p, q);
  }

  ghost predicate SameNote(r: Release, issues: seq<IssueRef>, pulls: seq<PullRef>, issues': seq<IssueRef>, pulls': seq<PullRef>) {
    Note(r, issues', pulls') == Note(r, issues, pulls)
  }

  ghost predicate AnyOrderSameNote(r: Release, issues: seq<IssueRef>, pulls: seq<PullRef>) {
    forall issues', pulls' :: multiset(issues') == multiset(issues) && multiset(pulls') == multiset(pulls) ==>
      SameNote(r, issues, pulls, issues', pulls')
  }

  lemma NoteTellsLines(r: Release, issues: seq<IssueRef>, pulls: seq<PullRef>, issues': seq<IssueRef>, pulls': seq<PullRef>)
    requires ReleaseFits(r) && IssuesFit(issues) && PullsFit(pulls) && Countable(|issues|) && Countable(|pulls|)
    requires multiset(issues') == multiset(issues) && multiset(pulls') == multiset(pulls)
    ensures SameNote(r, issues, pulls, issues', pulls') <==> IssueLines(issues') == IssueLines(issues) && PullLines(pulls') == PullLines(pulls)
  {
    SameMembers(issues', issues);
    SameMembers(pulls', pulls);
    EntriesAreLines(issues, pulls);
    EntriesAreLines(issues', pulls');
    NoTitleForgesALine(r, issues, pulls);
    NoTitleForgesALine(r, issues', pulls');
    if SameNote(r, issues, pulls, issues', pulls') {
      EqualLines(r, IssueLines(issues'), IssueLines(issues), PullLines(pulls'), PullLines(pulls));
    }
  }

  lemma OneWayIsSameNote(r: Release, issues: seq<IssueRef>, pulls: seq<PullRef>)
    requires ReleaseFits(r) && IssuesFit(issues) && PullsFit(pulls) && Countable(|issues|) && Countable(|pulls|)
    requires ShowsOneWay(issues, IssueLeq, IssueLine) && ShowsOneWay(pulls, PullLeq, PullLine)
    ensures AnyOrderSameNote(r, issues, pulls)
  {
    forall issues', pulls' | multiset(issues') == multiset(issues) && multiset(pulls') == multiset(pulls)
      ensures SameNote(r, issues, pulls, issues', pulls')
    {
      NoteTellsLines(r, issues, pulls, issues', pulls');
    }
  }

  lemma SameNoteIsOneWay(r: Release, issues: seq<IssueRef>, pulls: seq<PullRef>)
    requires ReleaseFits(r) && IssuesFit(issues) && PullsFit(pulls) && Countable(|issues|) && Countable(|pulls|)
    requires AnyOrderSameNote(r, issues, pulls)
    ensures ShowsOneWay(issues, IssueLeq, IssueLine) && ShowsOneWay(pulls, PullLeq, PullLine)
  {
    forall issues' | multiset(issues') == multiset(issues)
      ensures Shown(Sort(issues', IssueLeq), IssueLine) == Shown(Sort(issues, IssueLeq), IssueLine)
    {
      assert SameNote(r, issues, pulls, issues', pulls);
      NoteTellsLines(r, issues, pulls, issues', pulls);
    }
    forall pulls' | multiset(pulls') == multiset(pulls)
      ensures Shown(Sort(pulls', PullLeq), PullLine) == Shown(Sort(pulls, PullLeq), PullLine)
    {
      assert SameNote(r, issues, pulls, issues, pulls');
      NoteTellsLines(r, issues, pulls, issues, pulls');
    }
  }

  /** The note is the same for every arrangement of its entries exactly when
      entries with one sort key read the same; with distinct keys, always. */
  lemma NoteIsDeterministicIff(r: Release, issues: seq<IssueRef>, pulls: seq<PullRef>)
    requires ReleaseFits(r) && IssuesFit(issues) && PullsFit(pulls) && Countable(|issues|) && Countable(|pulls|)
    ensures AnyOrderSameNote(r, issues, pulls) <==>
            TiesAgree(issues, IssueLeq, IssueLine) && TiesAgree(pulls, PullLeq, PullLine)
  {
    IssueOrder();
    PullOrder();
    OrderForgottenIff(issues, IssueLeq, IssueLine);
    OrderForgottenIff(pulls, PullLeq, PullLine);
    if ShowsOneWay(issues, IssueLeq, IssueLine) && ShowsOneWay(pulls, PullLeq, PullLine) { OneWayIsSameNote(r, issues, pulls); }
    if AnyOrderSameNote(r, issues, pulls) { SameNoteIsOneWay(r, issues, pulls); }
  }

  /** The schema's own keys are distinct, and that is enough. */
  lemma DistinctKeysAgree(issues: seq<IssueRef>, pulls: seq<PullRef>)
    requires forall x, y :: x in issues && y in issues && x.teamKey == y.teamKey && x.number == y.number ==> x == y
    requires forall x, y :: x in pulls && y in pulls && x.repository == y.repository && x.number == y.number ==> x == y
    ensures TiesAgree(issues, IssueLeq, IssueLine) && TiesAgree(pulls, PullLeq, PullLine)
  {
    forall x, y | x in issues && y in issues && IssueLeq(x, y) && IssueLeq(y, x) ensures x == y {
      TextOrder(x.teamKey, y.teamKey, x.teamKey);
    }
  }
}
