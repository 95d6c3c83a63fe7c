/** Branch names, and the issue mentions read back out of text
    (app/domain/github.py:419-546). */
module Branches {
  import opened Wrappers
  import opened Collections
  import opened Text
  import opened Decimal

  const MENTION_SCAN_LIMIT: nat := 10_000
  const MENTION_LIMIT: nat := 20
  const BRANCH_NAME_MAX_LENGTH: nat := 60
  const MAX_NUMBER: nat := 0x7fff_ffff_ffff_ffff
  const KEY_LENGTH: nat := 10
  const NUMBER_LENGTH: nat := 18

  predicate IsUpper(c: char) { 'A' <= c <= 'Z' }

  predicate IsLetter(c: char) { 'a' <= c <= 'z' || 'A' <= c <= 'Z' }

  predicate IsSafe(c: char) { 'a' <= c <= 'z' || '0' <= c <= '9' }

  function LowerChar(c: char): (r: char)
    ensures IsUpper(c) ==> 'a' <= r <= 'z'
  {
    if IsUpper(c) then c - 'A' + 'a' else c
  }

  function UpperChar(c: char): char { if 'a' <= c <= 'z' then c - 'a' + 'A' else c }

  function Lower(s: string): (r: string)
    ensures |r| == |s| && forall i :: 0 <= i < |s| ==> r[i] == LowerChar(s[i])
  {
    seq(|s|, i requires 0 <= i < |s| => LowerChar(s[i]))
  }

  function Upper(s: string): (r: string)
    ensures |r| == |s| && forall i :: 0 <= i < |s| ==> r[i] == UpperChar(s[i])
  {
    seq(|s|, i requires 0 <= i < |s| => UpperChar(s[i]))
  }

  /** teams_key_format: an upper-case letter, then up to nine letters or digits. */
  predicate IsTeamKey(key: string) {
    1 <= |key| <= KEY_LENGTH && IsUpper(key[0]) && forall i :: 0 <= i < |key| ==> IsUpper(key[i]) || IsDigit(key[i])
  }

  lemma KeyComesBack(key: string)
    requires IsTeamKey(key)
    ensures Upper(Lower(key)) == key
    ensures forall i :: 0 <= i < |key| ==> IsSafe(Lower(key)[i])
    ensures 'a' <= Lower(key)[0] <= 'z'
  {}

  // ------------------------------------------------------------------ mentions

  datatype Mention = Mention(key: string, number: nat)

  /** How many leading characters are ASCII letters or digits. */
  function AlnumRun(s: string): (n: nat)
    ensures n <= |s| && forall i :: 0 <= i < n ==> IsAsciiAlnum(s[i])
    ensures n < |s| ==> !IsAsciiAlnum(s[n])
  {
    if s == [] || !IsAsciiAlnum(s[0]) then 0 else 1 + AlnumRun(s[1..])
  }

  lemma {:induction false} AlnumRunIs(run: string, rest: string)
    requires (forall i :: 0 <= i < |run| ==> IsAsciiAlnum(run[i])) && (rest == [] || !IsAsciiAlnum(rest[0]))
    ensures AlnumRun(run + rest) == |run|
  {
    if run == [] {
      assert run + rest == rest;
    } else {
      assert (run + rest)[1..] == run[1..] + rest;
      AlnumRunIs(run[1..], rest);
    }
  }

  /** The pattern at one place: a whole run of at most ten letters and digits, a
      letter first, a hyphen, a whole run of at most eighteen digits. */
  predicate Matches(s: string, i: nat) {
    && i < |s| && (i == 0 || !IsAsciiAlnum(s[i - 1])) && IsLetter(s[i])
    && var k := AlnumRun(s[i..]);
       && k <= KEY_LENGTH && i + k < |s| && s[i + k] == '-'
       && 1 <= DigitRun(s[i + k + 1..]) <= NUMBER_LENGTH
  }

  function KeyLength(s: string, i: nat): (k: nat)
    requires Matches(s, i)
    ensures 0 < k && i + k < |s|
  {
    AlnumRun(s[i..])
  }

  function MentionAt(s: string, i: nat): Mention
    requires Matches(s, i)
  {
    var k := KeyLength(s, i);
    var digits := s[i + k + 1..];
    Mention(Upper(s[i..i + k]), Value(digits[..DigitRun(digits)]))
  }

  function EndOf(s: string, i: nat): (e: nat)
    requires Matches(s, i)
    ensures i < e <= |s|
  {
    var k := KeyLength(s, i);
    i + k + 1 + DigitRun(s[i + k + 1..])
  }

  /** One place where a key of `k` characters, a hyphen and a number of `d` digits
      stand whole: (?<![A-Za-z0-9])([A-Za-z][A-Za-z0-9]{0,9})-([0-9]{1,18})(?![0-9]) */
  predicate IsMention(s: string, i: nat, k: nat, d: nat) {
    && 1 <= k <= 10 && 1 <= d <= 18 && i + k + 1 + d <= |s|
    && (i > 0 ==> !IsAsciiAlnum(s[i - 1]))
    && ('a' <= s[i] <= 'z' || 'A' <= s[i] <= 'Z')
    && (forall j :: i <= j < i + k ==> IsAsciiAlnum(s[j]))
    && s[i + k] == '-'
    && (forall j :: i + k < j <= i + k + d ==> '0' <= s[j] <= '9')
    && (i + k + 1 + d < |s| ==> !('0' <= s[i + k + 1 + d] <= '9'))
  }

  lemma KeyStands(s: string, i: nat)
    requires i < |s|
    ensures var k := AlnumRun(s[i..]); i + k <= |s| && forall j :: i <= j < i + k ==> IsAsciiAlnum(s[j])
  {
    forall j | i <= j < i + AlnumRun(s[i..]) ensures IsAsciiAlnum(s[j]) { assert s[i..][j - i] == s[j]; }
  }

  lemma NumberStands(s: string, start: nat)
    requires start <= |s|
    ensures var d := DigitRun(s[start..]);
            && start + d <= |s| && (forall j :: start <= j < start + d ==> IsDigit(s[j]))
            && (start + d < |s| ==> !IsDigit(s[start + d]))
  {
    var d := DigitRun(s[start..]);
    forall j | start <= j < start + d ensures IsDigit(s[j]) { assert s[start..][..d][j - start] == s[j]; }
    if start + d < |s| { assert s[start..][d] == s[start + d]; }
  }

  lemma MatchIsMention(s: string, i: nat)
    requires Matches(s, i)
    ensures IsMention(s, i, KeyLength(s, i), EndOf(s, i) - i - KeyLength(s, i) - 1)
  {
    KeyStands(s, i);
    NumberStands(s, i + KeyLength(s, i) + 1);
  }

  lemma KeyRunIs(s: string, i: nat, k: nat)
    requires i + k < |s| && s[i + k] == '-' && forall j :: i <= j < i + k ==> IsAsciiAlnum(s[j])
    ensures AlnumRun(s[i..]) == k
  {
    var run, rest := s[i..i + k], s[i + k..];
    assert s[i..] == run + rest && rest[0] == '-';
    AlnumRunIs(run, rest);
  }

  lemma NumberRunIs(s: string, start: nat, d: nat)
    requires start + d <= |s| && forall j :: start <= j < start + d ==> IsDigit(s[j])
    requires start + d < |s| ==> !IsDigit(s[start + d])
    ensures DigitRun(s[start..]) == d && s[start..][..d] == s[start..start + d]
  {
    var digits, rest := s[start..start + d], s[start + d..];
    assert s[start..] == digits + rest;
    DigitRunIs(digits, rest);
  }

  lemma MentionIsMatch(s: string, i: nat, k: nat, d: nat)
    requires IsMention(s, i, k, d)
    ensures Matches(s, i) && KeyLength(s, i) == k && EndOf(s, i) == i + k + 1 + d
    ensures MentionAt(s, i) == Mention(Upper(s[i..i + k]), Value(s[i + k + 1..i + k + 1 + d]))
  {
    KeyRunIs(s, i, k);
    NumberRunIs(s, i + k + 1, d);
  }

  /** The runs read just that: a mention begins at `i` exactly when the pattern
      matches there, and it can match in one way only. */
  lemma MatchesIff(s: string, i: nat)
    ensures Matches(s, i) <==> exists k: nat, d: nat :: IsMention(s, i, k, d)
  {
    if Matches(s, i) { MatchIsMention(s, i); }
    forall k: nat, d: nat | IsMention(s, i, k, d) ensures Matches(s, i) { MentionIsMatch(s, i, k, d); }
  }

  /** Every mention at or after `i`, in order. */
  function MentionsFrom(s: string, i: nat): seq<Mention>
    decreases |s| - i
  {
    if i >= |s| then []
    else if Matches(s, i) then [MentionAt(s, i)] + MentionsFrom(s, i + 1)
    else MentionsFrom(s, i + 1)
  }

  lemma NoMatchThere(s: string, j: nat)
    requires 0 < j < |s| && (IsAsciiAlnum(s[j - 1]) || !IsLetter(s[j]))
    ensures !Matches(s, j)
  {}

  lemma KeyIsAlnum(s: string, i: nat, j: nat)
    requires Matches(s, i) && i <= j < i + KeyLength(s, i)
    ensures IsAsciiAlnum(s[j])
  {
    assert s[i..][j - i] == s[j];
  }

  lemma NumberIsDigits(s: string, i: nat, j: nat)
    requires Matches(s, i) && i + KeyLength(s, i) < j < EndOf(s, i)
    ensures IsDigit(s[j])
  {
    var start := i + KeyLength(s, i) + 1;
    assert s[start..][..DigitRun(s[start..])][j - start] == s[j];
  }

  /** No mention begins inside another: re.finditer skips nothing. */
  lemma InsideNoMatch(s: string, i: nat, j: nat)
    requires Matches(s, i) && i < j < EndOf(s, i)
    ensures !Matches(s, j)
  {
    var hyphen := i + KeyLength(s, i);
    if j < hyphen { KeyIsAlnum(s, i, j - 1); }
    if j > hyphen { NumberIsDigits(s, i, j); }
    NoMatchThere(s, j);
  }

  lemma {:induction false} SkipsNothing(s: string, i: nat, j: nat)
    requires Matches(s, i) && i < j <= EndOf(s, i)
    ensures MentionsFrom(s, j) == MentionsFrom(s, EndOf(s, i))
    decreases |s| - j
  {
    if j < EndOf(s, i) {
      InsideNoMatch(s, i, j);
      SkipsNothing(s, i, j + 1);
    }
  }

  /** The list without repeats, each at its first place. */
  function Distinct(ms: seq<Mention>): seq<Mention> {
    if ms == [] then []
    else
      var before, last := Distinct(ms[..|ms| - 1]), ms[|ms| - 1];
      if last in before then before else before + [last]
  }

  lemma {:induction false} DistinctMeans(ms: seq<Mention>)
    ensures forall m :: m in Distinct(ms) <==> m in ms
    ensures forall i, j :: 0 <= i < j < |Distinct(ms)| ==> Distinct(ms)[i] != Distinct(ms)[j]
    ensures ms != [] ==> Distinct(ms) != [] && Distinct(ms)[0] == ms[0]
  {
    if ms != [] {
      DistinctMeans(ms[..|ms| - 1]);
      assert ms == ms[..|ms| - 1] + [ms[|ms| - 1]];
    }
  }

  lemma {:induction false} DistinctGrows(a: seq<Mention>, b: seq<Mention>)
    ensures Distinct(a) <= Distinct(a + b)
    decreases |b|
  {
    if b == [] {
      assert a + b == a;
    } else {
      assert (a + b)[..|a + b| - 1] == a + b[..|b| - 1];
      DistinctGrows(a, b[..|b| - 1]);
    }
  }

  /** What issue_identifiers promises. */
  function Identifiers(text: string): seq<Mention> {
    Take(Distinct(MentionsFrom(Take(text, MENTION_SCAN_LIMIT), 0)), MENTION_LIMIT)
  }

  lemma OneMore(seen: seq<Mention>, m: Mention, rest: seq<Mention>)
    ensures seen + ([m] + rest) == (seen + [m]) + rest
    ensures Distinct(seen + [m]) == if m in Distinct(seen) then Distinct(seen) else Distinct(seen) + [m]
    ensures Distinct(seen + [m]) <= Distinct(seen + ([m] + rest))
  {
    assert (seen + [m])[..|seen|] == seen;
    assert seen + ([m] + rest) == (seen + [m]) + rest;
    DistinctGrows(seen + [m], rest);
  }

  /** Where the loop stands after one match. */
  lemma NextMention(s: string, i: nat, seen: seq<Mention>)
    requires Matches(s, i)
    ensures var m := MentionAt(s, i);
            && seen + MentionsFrom(s, i) == (seen + [m]) + MentionsFrom(s, EndOf(s, i))
            && Distinct(seen + [m]) == (if m in Distinct(seen) then Distinct(seen) else Distinct(seen) + [m])
            && Distinct(seen + [m]) <= Distinct(seen + MentionsFrom(s, i))
  {
    SkipsNothing(s, i, i + 1);
    OneMore(seen, MentionAt(s, i), MentionsFrom(s, i + 1));
  }

  /** At most twenty, none twice, in order of first appearance; and when there
      are fewer, every mention there is. */
  lemma IdentifiersMean(text: string)
    ensures var found, all := Identifiers(text), MentionsFrom(Take(text, MENTION_SCAN_LIMIT), 0);
            && |found| <= MENTION_LIMIT
            && (forall i, j :: 0 <= i < j < |found| ==> found[i] != found[j])
            && (forall m :: m in found ==> m in all)
            && (|found| < MENTION_LIMIT ==> forall m :: m in all ==> m in found)
            && (all != [] ==> found != [] && found[0] == all[0])
  {
    DistinctMeans(MentionsFrom(Take(text, MENTION_SCAN_LIMIT), 0));
  }

  ghost predicate Scanned(s: string, i: nat, seen: seq<Mention>, found: seq<Mention>) {
    seen + MentionsFrom(s, i) == MentionsFrom(s, 0) && found == Distinct(seen) && found <= Distinct(MentionsFrom(s, 0))
  }

  function With(found: seq<Mention>, m: Mention): seq<Mention> { if m in found then found else found + [m] }

  lemma ScanMatch(s: string, i: nat, seen: seq<Mention>, found: seq<Mention>)
    requires Scanned(s, i, seen, found) && Matches(s, i)
    ensures Scanned(s, EndOf(s, i), seen + [MentionAt(s, i)], With(found, MentionAt(s, i)))
  {
    NextMention(s, i, seen);
  }

  lemma ScanPast(s: string, i: nat, seen: seq<Mention>, found: seq<Mention>)
    requires Scanned(s, i, seen, found) && i < |s| && !Matches(s, i)
    ensures Scanned(s, i + 1, seen, found)
  {}

  lemma ScanEnds(s: string, i: nat, seen: seq<Mention>, found: seq<Mention>)
    requires Scanned(s, i, seen, found) && |found| <= MENTION_LIMIT
    requires i >= |s| || |found| == MENTION_LIMIT
    ensures found == Take(Distinct(MentionsFrom(s, 0)), MENTION_LIMIT)
  {
    if i >= |s| { assert seen + [] == seen; }
  }

  method IssueIdentifiers(text: Option<string>) returns (found: seq<Mention>)
    ensures found == if text.None? then [] else Identifiers(text.value)
  {
    found := [];
    if text.None? || text.value == "" { return; }
    var s := Take(text.value, MENTION_SCAN_LIMIT);
    ghost var seen := [];
    var i := 0;
    while i < |s|
      invariant 0 <= i <= |s|
      invariant Scanned(s, i, seen, found) && |found| < MENTION_LIMIT
    {
      if Matches(s, i) {
        var m := MentionAt(s, i);
        ScanMatch(s, i, seen, found);
        seen := seen + [m];
        if m !in found { found := found + [m]; }
        i := EndOf(s, i);
        if |found| >= MENTION_LIMIT {
          ScanEnds(s, i, seen, found);
          return;
        }
      } else {
        ScanPast(s, i, seen, found);
        i := i + 1;
      }
    }
    ScanEnds(s, i, seen, found);
  }

  // -------------------------------------------------------------- branch names

  function SkipUnsafe(s: string): (r: string)
    ensures |r| <= |s| && (r != [] ==> IsSafe(r[0]))
  {
    if s == [] || IsSafe(s[0]) then s else SkipUnsafe(s[1..])
  }

  /** _UNSAFE.sub("-", folded) */
  function Hyphenate(s: string): string
    decreases |s|
  {
    if s == [] then []
    else if IsSafe(s[0]) then [s[0]] + Hyphenate(s[1..])
    else "-" + Hyphenate(SkipUnsafe(s[1..]))
  }

  function StripLeft(s: string): string { if s != [] && s[0] == '-' then StripLeft(s[1..]) else s }

  function StripRight(s: string): string { if s != [] && s[|s| - 1] == '-' then StripRight(s[..|s| - 1]) else s }

  function Identifier(key: string, number: nat): string { key + "-" + Digits(number) }

  /** branch_name_for, given its title already folded to lower-case ASCII. */
  function BranchName(identifier: string, folded: string): string {
    var slug := StripRight(StripLeft(Hyphenate(folded)));
    var prefix := Lower(identifier);
    if slug == [] then prefix else StripRight(Take(prefix + "-" + slug, BRANCH_NAME_MAX_LENGTH))
  }

  /** Safe characters and single hyphens. */
  predicate IsClean(s: string) {
    && (forall i :: 0 <= i < |s| ==> IsSafe(s[i]) || s[i] == '-')
    && (forall i :: 0 < i < |s| ==> s[i - 1] != '-' || s[i] != '-')
  }

  lemma {:induction false} HyphenateIsClean(s: string)
    ensures IsClean(Hyphenate(s))
    ensures s != [] && IsSafe(s[0]) ==> Hyphenate(s) != [] && Hyphenate(s)[0] == s[0]
    ensures s == [] ==> Hyphenate(s) == []
    decreases |s|
  {
    if s != [] { HyphenateIsClean(if IsSafe(s[0]) then s[1..] else SkipUnsafe(s[1..])); }
  }

  /** The letters and digits of a text. */
  function SafeOf(s: string): string {
    if s == [] then [] else (if IsSafe(s[0]) then [s[0]] else []) + SafeOf(s[1..])
  }

  lemma {:induction false} SkipKeeps(s: string)
    ensures SafeOf(SkipUnsafe(s)) == SafeOf(s)
  {
    if s != [] && !IsSafe(s[0]) { SkipKeeps(s[1..]); }
  }

  /** Punctuation becomes hyphens; no letter or digit is lost, added or moved. */
  lemma {:induction false} HyphenateKeeps(s: string)
    ensures SafeOf(Hyphenate(s)) == SafeOf(s)
    decreases |s|
  {
    if s != [] {
      if IsSafe(s[0]) {
        HyphenateKeeps(s[1..]);
        assert Hyphenate(s)[1..] == Hyphenate(s[1..]);
      } else {
        SkipKeeps(s[1..]);
        HyphenateKeeps(SkipUnsafe(s[1..]));
        assert Hyphenate(s)[1..] == Hyphenate(SkipUnsafe(s[1..]));
      }
    }
  }

  lemma {:induction false} SafeJoin(a: string, b: string)
    ensures SafeOf(a + b) == SafeOf(a) + SafeOf(b)
  {
    if a == [] {
      assert a + b == b;
    } else {
      var h := if IsSafe(a[0]) then [a[0]] else [];
      assert (a + b)[0] == a[0] && (a + b)[1..] == a[1..] + b;
      SafeJoin(a[1..], b);
      assert h + (SafeOf(a[1..]) + SafeOf(b)) == (h + SafeOf(a[1..])) + SafeOf(b);
    }
  }

  lemma {:induction false} StripLeftKeeps(s: string)
    ensures SafeOf(StripLeft(s)) == SafeOf(s)
  {
    if s != [] && s[0] == '-' { StripLeftKeeps(s[1..]); }
  }

  lemma {:induction false} StripRightKeepsSafe(s: string)
    ensures SafeOf(StripRight(s)) == SafeOf(s)
  {
    if s != [] && s[|s| - 1] == '-' {
      var n := |s| - 1;
      StripRightKeepsSafe(s[..n]);
      assert s == s[..n] + s[n..] && s[n..][1..] == [];
      SafeJoin(s[..n], s[n..]);
    }
  }

  lemma {:induction false} StripLeftIsClean(s: string)
    requires IsClean(s)
    ensures IsClean(StripLeft(s)) && (StripLeft(s) != [] ==> StripLeft(s)[0] != '-')
  {
    if s != [] && s[0] == '-' { StripLeftIsClean(s[1..]); }
  }

  /** Stripping on the right keeps a prefix, and all of any part that ends well. */
  lemma {:induction false} StripRightKeeps(s: string, n: nat)
    requires n <= |s| && (n > 0 ==> s[n - 1] != '-')
    ensures var r := StripRight(s);
            n <= |r| <= |s| && r == s[..|r|] && (r != [] ==> r[|r| - 1] != '-')
  {
    if s != [] && s[|s| - 1] == '-' {
      var t := s[..|s| - 1];
      StripRightKeeps(t, n);
      assert t[..|StripRight(t)|] == s[..|StripRight(t)|];
    }
  }

  lemma CleanPrefix(s: string, r: string)
    requires IsClean(s) && |r| <= |s| && r == s[..|r|]
    ensures IsClean(r)
  {
    forall i | 0 <= i < |r| ensures r[i] == s[i] {}
  }

  lemma SlugIsClean(folded: string)
    ensures var slug := StripRight(StripLeft(Hyphenate(folded)));
            IsClean(slug) && (slug != [] ==> slug[0] != '-' && slug[|slug| - 1] != '-')
  {
    HyphenateIsClean(folded);
    var t := StripLeft(Hyphenate(folded));
    StripLeftIsClean(Hyphenate(folded));
    StripRightKeeps(t, 0);
    CleanPrefix(t, StripRight(t));
  }

  /** The lower-case identifier: letters and digits around one hyphen. */
  lemma PrefixShape(key: string, number: nat)
    requires IsTeamKey(key)
    ensures var p := Lower(Identifier(key, number));
            && p == Lower(key) + "-" + Digits(number)
            && IsClean(p) && p[0] != '-' && p[|p| - 1] != '-' && |p| == |key| + 1 + |Digits(number)|
  {
    KeyComesBack(key);
    var p, d := Lower(Identifier(key, number)), Digits(number);
    assert p == Lower(key) + "-" + d;
    forall i | 0 <= i < |p| && i != |key| ensures IsSafe(p[i]) {
      if i > |key| { assert p[i] == d[i - |key| - 1]; } else { assert p[i] == Lower(key)[i]; }
    }
    assert p[|p| - 1] == d[|d| - 1];
  }

  /** A stored number has at most nineteen digits. */
  lemma NumberIsShort(number: nat)
    requires number <= MAX_NUMBER
    ensures |Digits(number)| <= 19
  {
    DigitsLength(number, 19);
    TenToThe(19);
  }

  lemma TenToThe(k: nat)
    requires k == 18 || k == 19
    ensures Pow10(k) == if k == 18 then 1_000_000_000_000_000_000 else 10_000_000_000_000_000_000
  {
    assert Pow10(4) == 10 * Pow10(3) && Pow10(3) == 10 * Pow10(2) && Pow10(2) == 10 * Pow10(1) && Pow10(1) == 10 * Pow10(0);
    assert Pow10(8) == 10 * Pow10(7) && Pow10(7) == 10 * Pow10(6) && Pow10(6) == 10 * Pow10(5) && Pow10(5) == 10 * Pow10(4);
    assert Pow10(12) == 10 * Pow10(11) && Pow10(11) == 10 * Pow10(10) && Pow10(10) == 10 * Pow10(9) && Pow10(9) == 10 * Pow10(8);
    assert Pow10(16) == 10 * Pow10(15) && Pow10(15) == 10 * Pow10(14) && Pow10(14) == 10 * Pow10(13) && Pow10(13) == 10 * Pow10(12);
    assert Pow10(19) == 10 * Pow10(18) && Pow10(18) == 10 * Pow10(17) && Pow10(17) == 10 * Pow10(16);
  }

  /** A name is its identifier, then nothing or a hyphen and more. */
  lemma NameShape(key: string, number: nat, folded: string)
    requires IsTeamKey(key) && number <= MAX_NUMBER
    ensures var name, p := BranchName(Identifier(key, number), folded), Lower(Identifier(key, number));
            && IsClean(name) && |p| <= |name| <= BRANCH_NAME_MAX_LENGTH && name[..|p|] == p
            && (|name| > |p| ==> name[|p|] == '-') && name[|name| - 1] != '-'
  {
    var p, slug := Lower(Identifier(key, number)), StripRight(StripLeft(Hyphenate(folded)));
    PrefixShape(key, number);
    NumberIsShort(number);
    SlugIsClean(folded);
    if slug != [] {
      var full := p + "-" + slug;
      assert IsClean(full);
      var cut := Take(full, BRANCH_NAME_MAX_LENGTH);
      assert cut[|p| - 1] == p[|p| - 1];
      StripRightKeeps(cut, |p|);
      CleanPrefix(full, StripRight(cut));
      assert StripRight(cut)[..|p|] == p;
    }
  }

  /** Whatever the title: a short name of lower-case letters, digits and single
      hyphens inside, safe to paste after `git checkout -b`. */
  lemma BranchNameIsSafe(key: string, number: nat, folded: string)
    requires IsTeamKey(key) && number <= MAX_NUMBER
    ensures var name := BranchName(Identifier(key, number), folded);
            1 <= |name| <= BRANCH_NAME_MAX_LENGTH && IsClean(name) && 'a' <= name[0] <= 'z' && name[|name| - 1] != '-'
  {
    NameShape(key, number, folded);
    PrefixShape(key, number);
    KeyComesBack(key);
    var p := Lower(Identifier(key, number));
    assert BranchName(Identifier(key, number), folded)[0] == p[0] == Lower(key)[0];
  }

  lemma HyphenJoin(a: string, hyphen: string, b: string)
    requires hyphen == "-"
    ensures SafeOf(a + hyphen + b) == SafeOf(a) + SafeOf(b)
  {
    SafeJoin(a + hyphen, b);
    SafeJoin(a, hyphen);
    assert SafeOf(hyphen) == [] && SafeOf(a) + [] == SafeOf(a);
  }

  lemma CutKeeps(s: string, n: nat)
    ensures SafeOf(StripRight(Take(s, n))) <= SafeOf(s)
    ensures |s| <= n ==> SafeOf(StripRight(Take(s, n))) == SafeOf(s)
  {
    var cut := Take(s, n);
    StripRightKeepsSafe(cut);
    assert s == cut + s[|cut|..];
    SafeJoin(cut, s[|cut|..]);
  }

  lemma SlugSpells(folded: string)
    ensures var slug := StripRight(StripLeft(Hyphenate(folded)));
            SafeOf(slug) == SafeOf(folded) && |slug| <= |folded|
  {
    var h := Hyphenate(folded);
    HyphenateKeeps(folded);
    StripLeftKeeps(h);
    StripRightKeepsSafe(StripLeft(h));
    HyphenateShorter(folded);
    StripsShorter(h);
  }

  /** A name spells the identifier and then the title, as much of it as fits. */
  lemma BranchNameSpellsTitle(identifier: string, folded: string)
    ensures var name, whole := BranchName(identifier, folded), SafeOf(Lower(identifier)) + SafeOf(folded);
            && SafeOf(name) <= whole
            && (|identifier| + 1 + |folded| <= BRANCH_NAME_MAX_LENGTH ==> SafeOf(name) == whole)
  {
    var p, slug := Lower(identifier), StripRight(StripLeft(Hyphenate(folded)));
    SlugSpells(folded);
    HyphenJoin(p, "-", slug);
    CutKeeps(p + "-" + slug, BRANCH_NAME_MAX_LENGTH);
  }

  lemma {:induction false} HyphenateShorter(s: string)
    ensures |Hyphenate(s)| <= |s|
    decreases |s|
  {
    if s != [] { HyphenateShorter(if IsSafe(s[0]) then s[1..] else SkipUnsafe(s[1..])); }
  }

  lemma StripsShorter(s: string)
    ensures |StripRight(StripLeft(s))| <= |s|
  {
    LeftShorter(s);
    StripRightKeeps(StripLeft(s), 0);
  }

  lemma {:induction false} LeftShorter(s: string)
    ensures |StripLeft(s)| <= |s|
  {
    if s != [] && s[0] == '-' { LeftShorter(s[1..]); }
  }

  /** The pattern on a text that begins with an identifier. */
  lemma RunsOf(name: string, key: string, digits: string)
    requires IsTeamKey(key) && digits != [] && AllDigits(digits)
    requires var p := Lower(key) + "-" + digits;
             |p| <= |name| && name[..|p|] == p && (|name| > |p| ==> name[|p|] == '-')
    ensures AlnumRun(name[0..]) == |key| && name[..|key|] == Lower(key) && |key| < |name| && name[|key|] == '-'
    ensures DigitRun(name[|key| + 1..]) == |digits| && name[|key| + 1..][..|digits|] == digits
  {
    KeyComesBack(key);
    var p := Lower(key) + "-" + digits;
    var rest, tail := name[|key|..], name[|p|..];
    assert name == p + tail;
    assert name[0..] == Lower(key) + rest && rest[0] == p[|key|] == '-';
    AlnumRunIs(Lower(key), rest);
    assert name[|key| + 1..] == digits + tail;
    DigitRunIs(digits, tail);
    assert name[..|key|] == p[..|key|] == Lower(key);
  }

  lemma {:induction false} ValueIsSmall(s: string)
    requires AllDigits(s)
    ensures Value(s) < Pow10(|s|)
  {
    if s != [] { ValueIsSmall(s[..|s| - 1]); }
  }

  lemma {:induction false} PowersGrow(a: nat, b: nat)
    requires a <= b
    ensures Pow10(a) <= Pow10(b)
  {
    if a < b { PowersGrow(a, b - 1); }
  }

  /** No mention names a number of more than eighteen digits. */
  lemma {:induction false} MentionsAreSmall(s: string, i: nat)
    ensures forall m :: m in MentionsFrom(s, i) ==> m.number < Pow10(NUMBER_LENGTH)
    decreases |s| - i
  {
    if i < |s| {
      MentionsAreSmall(s, i + 1);
      if Matches(s, i) {
        var digits := s[i + KeyLength(s, i) + 1..];
        ValueIsSmall(digits[..DigitRun(digits)]);
        PowersGrow(DigitRun(digits), NUMBER_LENGTH);
      }
    }
  }

  lemma BeginsWithMatch(name: string, key: string, digits: string)
    requires IsTeamKey(key) && 1 <= |digits| <= NUMBER_LENGTH && AllDigits(digits)
    requires var p := Lower(key) + "-" + digits;
             |p| <= |name| && name[..|p|] == p && (|name| > |p| ==> name[|p|] == '-')
    ensures Matches(name, 0) && MentionAt(name, 0) == Mention(key, Value(digits))
  {
    RunsOf(name, key, digits);
    KeyComesBack(key);
    assert name[0] == name[..|key|][0];
    assert name[0..0 + |key|] == Lower(key);
  }

  lemma FirstMention(name: string, key: string, number: nat)
    requires IsTeamKey(key) && |Digits(number)| <= NUMBER_LENGTH && |name| <= MENTION_SCAN_LIMIT
    requires var p := Lower(key) + "-" + Digits(number);
             |p| <= |name| && name[..|p|] == p && (|name| > |p| ==> name[|p|] == '-')
    ensures Identifiers(name) != [] && Identifiers(name)[0] == Mention(key, number)
  {
    BeginsWithMatch(name, key, Digits(number));
    ValueOfDigits(number);
    IdentifiersMean(name);
  }

  /** A pull request opened from a generated branch is linked to the issue the
      branch was generated for, first of all, exactly when the issue's number
      has no more digits than the pattern takes. */
  lemma BranchNamesItsIssueIff(key: string, number: nat, folded: string)
    requires IsTeamKey(key) && number <= MAX_NUMBER
    ensures var found := Identifiers(BranchName(Identifier(key, number), folded));
            (found != [] && found[0] == Mention(key, number)) <==> number < 1_000_000_000_000_000_000
  {
    var name := BranchName(Identifier(key, number), folded);
    NameShape(key, number, folded);
    PrefixShape(key, number);
    DigitsLength(number, NUMBER_LENGTH);
    TenToThe(18);
    if number < 1_000_000_000_000_000_000 {
      FirstMention(name, key, number);
    } else {
      MentionsAreSmall(name, 0);
      IdentifiersMean(name);
    }
  }

  /** Two issues never share a branch name, however alike their titles. */
  lemma BranchNamesDiffer(key: string, number: nat, folded: string, key': string, number': nat, folded': string)
    requires IsTeamKey(key) && number <= MAX_NUMBER && IsTeamKey(key') && number' <= MAX_NUMBER
    requires BranchName(Identifier(key, number), folded) == BranchName(Identifier(key', number'), folded')
    ensures key == key' && number == number'
  {
    var name := BranchName(Identifier(key, number), folded);
    NameShape(key, number, folded);
    NameShape(key', number', folded');
    PrefixShape(key, number);
    PrefixShape(key', number');
    RunsOf(name, key, Digits(number));
    RunsOf(name, key', Digits(number'));
    KeyComesBack(key);
    KeyComesBack(key');
    ValueOfDigits(number);
    ValueOfDigits(number');
  }
}
