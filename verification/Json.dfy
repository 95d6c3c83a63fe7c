/** JSON text (RFC 8259) as Python's json module writes and reads it. An object
    keeps its members in text order; as a dict, the last value of a key counts. */
module Json {
  import opened Wrappers
  import opened Decimal

  datatype Json =
    | Null
    | Bool(b: bool)
    | Int(n: int)
    | Float                       // any number with a fraction or an exponent
    | Str(s: string)
    | Arr(items: seq<Json>)
    | Obj(members: seq<Member>)

  datatype Member = Member(key: string, value: Json)

  /** How a writer separates and escapes: after each `,` and `:` it may put the
      given whitespace, and it may keep to ASCII. */
  datatype Style = Style(afterComma: string, afterColon: string, ascii: bool)

  predicate IsBlank(c: char) { c == ' ' || c == '\t' || c == '\n' || c == '\r' }

  predicate AllBlank(s: string) {
    forall i :: 0 <= i < |s| ==> IsBlank(s[i])
  }

  predicate Proper(style: Style) {
    AllBlank(style.afterComma) && AllBlank(style.afterColon)
  }

  // ----------------------------------------------------------------- strings

  function HexChar(d: int): (c: char)
    requires 0 <= d < 16
  {
    if d < 10 then '0' + d as char else 'a' + (d - 10) as char
  }

  function HexValue(c: char): (d: int)
    ensures -1 <= d < 16
  {
    if '0' <= c <= '9' then (c - '0') as int
    else if 'a' <= c <= 'f' then (c - 'a') as int + 10
    else if 'A' <= c <= 'F' then (c - 'A') as int + 10
    else -1
  }

  function Hex4(n: int): (s: string)
    requires 0 <= n < 0x10000
    ensures |s| == 4
  {
    [HexChar(n / 0x1000), HexChar(n / 0x100 % 16), HexChar(n / 0x10 % 16), HexChar(n % 16)]
  }

  /** The number four hex digits spell, or -1. */
  function ReadHex4(s: string): (n: int)
    ensures -1 <= n < 0x10000
    ensures 0 <= n ==> 4 <= |s|
  {
    if |s| < 4 || HexValue(s[0]) < 0 || HexValue(s[1]) < 0 || HexValue(s[2]) < 0 || HexValue(s[3]) < 0 then -1
    else 0x1000 * HexValue(s[0]) + 0x100 * HexValue(s[1]) + 0x10 * HexValue(s[2]) + HexValue(s[3])
  }

  lemma HexReads(d: int)
    requires 0 <= d < 16
    ensures HexValue(HexChar(d)) == d
  {}

  lemma FourPlaces(n: int)
    requires 0 <= n < 0x10000
    ensures n == 0x1000 * (n / 0x1000) + 0x100 * (n / 0x100 % 16) + 0x10 * (n / 0x10 % 16) + n % 16
    ensures 0 <= n / 0x1000 < 16
  {
    assert n / 0x10 == 0x10 * (n / 0x10 / 0x10) + n / 0x10 % 16;
    assert n / 0x100 == 0x10 * (n / 0x100 / 0x10) + n / 0x100 % 16;
  }

  lemma Hex4Reads(n: int, rest: string)
    requires 0 <= n < 0x10000
    ensures ReadHex4(Hex4(n) + rest) == n
  {
    FourPlaces(n);
    HexReads(n / 0x1000);
    HexReads(n / 0x100 % 16);
    HexReads(n / 0x10 % 16);
    HexReads(n % 16);
    var s := Hex4(n) + rest;
    assert s[0] == Hex4(n)[0] && s[1] == Hex4(n)[1] && s[2] == Hex4(n)[2] && s[3] == Hex4(n)[3];
  }

  /** One character as the writer spells it inside quotes. */
  function EscapeChar(c: char, ascii: bool): (s: string)
    ensures s != []
  {
    if c == '\"' then "\\\""
    else if c == '\\' then "\\\\"
    else if c == '\n' then "\\n"
    else if c == '\r' then "\\r"
    else if c == '\t' then "\\t"
    else if c as int == 0x08 then "\\b"
    else if c as int == 0x0c then "\\f"
    else if c < ' ' || (ascii && '~' < c && c as int < 0x10000) then "\\u" + Hex4(c as int)
    else if ascii && 0x10000 <= c as int then
      var v := c as int - 0x10000;
      "\\u" + Hex4(0xD800 + v / 0x400) + "\\u" + Hex4(0xDC00 + v % 0x400)
    else [c]
  }

  function EscapeOnto(s: string, style: Style, rest: string): string {
    if s == [] then rest else EscapeChar(s[0], style.ascii) + EscapeOnto(s[1..], style, rest)
  }

  /** A reader's answer: what it read, and the text it has not. */
  datatype Parsed<+T> = Fail | At(value: T, rest: string)

  /** The character a backslash introduces. A lone surrogate is no character. */
  function ReadEscape(s: string): (r: Parsed<char>)
    ensures r.At? ==> |r.rest| < |s|
  {
    if s == [] then Fail
    else match s[0]
      case '\"' => At('\"', s[1..])
      case '\\' => At('\\', s[1..])
      case '/' => At('/', s[1..])
      case 'b' => At(0x08 as char, s[1..])
      case 'f' => At(0x0c as char, s[1..])
      case 'n' => At('\n', s[1..])
      case 'r' => At('\r', s[1..])
      case 't' => At('\t', s[1..])
      case 'u' =>
        var n := ReadHex4(s[1..]);
        if n < 0 then Fail
        else if n < 0xD800 || 0xE000 <= n then At(n as char, s[5..])
        else if n < 0xDC00 && |s| >= 7 && s[5..7] == "\\u" then
          var low := ReadHex4(s[7..]);
          if 0xDC00 <= low < 0xE000 then At((0x10000 + (n - 0xD800) * 0x400 + (low - 0xDC00)) as char, s[11..])
          else Fail
        else Fail
      case _ => Fail
  }

  /** The rest of a string literal, after its opening quote. */
  function ReadString(s: string): (r: Parsed<string>)
    ensures r.At? ==> |r.rest| < |s|
    decreases |s|
  {
    if s == [] || s[0] < ' ' then Fail
    else if s[0] == '\"' then At([], s[1..])
    else
      var first := if s[0] == '\\' then ReadEscape(s[1..]) else At(s[0], s[1..]);
      if first.Fail? then Fail
      else
        var more := ReadString(first.rest);
        if more.Fail? then Fail else At([first.value] + more.value, more.rest)
  }

  /** One `\\uXXXX` escape, for a character of the basic plane. */
  lemma ShortEscapeReads(c: char, rest: string)
    requires c as int < 0x10000
    ensures ReadEscape("u" + Hex4(c as int) + rest) == At(c, rest)
  {
    var s := "u" + Hex4(c as int) + rest;
    Hex4Reads(c as int, rest);
    assert s[1..] == Hex4(c as int) + rest && s[5..] == rest;
  }

  lemma SurrogatesJoin(high: string, low: string, rest: string)
    requires |high| == 4 && |low| == 4
    requires 0xD800 <= ReadHex4(high + ("\\u" + low + rest)) < 0xDC00
    requires 0xDC00 <= ReadHex4(low + rest) < 0xE000
    ensures ReadEscape("u" + high + "\\u" + low + rest)
            == At((0x10000 + (ReadHex4(high + ("\\u" + low + rest)) - 0xD800) * 0x400 + (ReadHex4(low + rest) - 0xDC00)) as char, rest)
  {
    var s := "u" + high + "\\u" + low + rest;
    assert s[1..] == high + ("\\u" + low + rest);
    assert s[5..7] == "\\u" && s[7..] == low + rest && s[11..] == rest;
  }

  /** ... and the surrogate pair of one beyond it. */
  lemma PairEscapeReads(c: char, rest: string)
    requires 0x10000 <= c as int
    ensures var v := c as int - 0x10000;
            ReadEscape("u" + Hex4(0xD800 + v / 0x400) + "\\u" + Hex4(0xDC00 + v % 0x400) + rest) == At(c, rest)
  {
    var v := c as int - 0x10000;
    var high, low := Hex4(0xD800 + v / 0x400), Hex4(0xDC00 + v % 0x400);
    Hex4Reads(0xD800 + v / 0x400, "\\u" + low + rest);
    Hex4Reads(0xDC00 + v % 0x400, rest);
    SurrogatesJoin(high, low, rest);
  }

  /** The two-character escapes. */
  lemma PairReads(c: char, ascii: bool, rest: string)
    requires |EscapeChar(c, ascii)| == 2
    ensures ReadEscape(EscapeChar(c, ascii)[1..] + rest) == At(c, rest)
  {
    var s := EscapeChar(c, ascii)[1..] + rest;
    assert s[0] == EscapeChar(c, ascii)[1] && s[1..] == rest;
  }

  lemma EscapeReads(c: char, ascii: bool, rest: string)
    requires EscapeChar(c, ascii) != [c]
    ensures EscapeChar(c, ascii)[0] == '\\'
    ensures ReadEscape((EscapeChar(c, ascii) + rest)[1..]) == At(c, rest)
  {
    var e := EscapeChar(c, ascii);
    assert (e + rest)[1..] == e[1..] + rest;
    if |e| == 2 {
      PairReads(c, ascii, rest);
    } else if c as int < 0x10000 {
      assert e[1..] == "u" + Hex4(c as int);
      ShortEscapeReads(c, rest);
    } else {
      var v := c as int - 0x10000;
      assert e[1..] == "u" + Hex4(0xD800 + v / 0x400) + "\\u" + Hex4(0xDC00 + v % 0x400);
      PairEscapeReads(c, rest);
    }
  }

  lemma CharStep(t: string, c: char, tail: string, more: string, rest: string)
    requires t != [] && ' ' <= t[0] && t[0] != '\"'
    requires (if t[0] == '\\' then ReadEscape(t[1..]) else At(t[0], t[1..])) == At(c, tail)
    requires ReadString(tail) == At(more, rest)
    ensures ReadString(t) == At([c] + more, rest)
  {}

  lemma PlainChar(c: char, ascii: bool, tail: string)
    requires EscapeChar(c, ascii) == [c]
    ensures ' ' <= c && c != '\"' && c != '\\' && ([c] + tail)[1..] == tail
  {}

  /** Strings read back: every text of Unicode scalar values, either escaping. */
  lemma {:induction false} StringReads(s: string, style: Style, rest: string)
    ensures ReadString(EscapeOnto(s, style, "\"" + rest)) == At(s, rest)
  {
    if s == [] {
      assert ("\"" + rest)[1..] == rest;
    } else {
      var tail := EscapeOnto(s[1..], style, "\"" + rest);
      StringReads(s[1..], style, rest);
      var e := EscapeChar(s[0], style.ascii);
      if e == [s[0]] { PlainChar(s[0], style.ascii, tail); } else { EscapeReads(s[0], style.ascii, tail); }
      CharStep(e + tail, s[0], tail, s[1..], rest);
      assert [s[0]] + s[1..] == s;
    }
  }

  // ----------------------------------------------------------------- writing

  /** The text of `j` in front of `rest`. */
  function ShowOnto(j: Json, style: Style, rest: string): string
    decreases j, 0
  {
    match j
    case Null => "null" + rest
    case Bool(b) => (if b then "true" else "false") + rest
    case Int(n) => Numeral(n) + rest
    case Float => "0.5" + rest
    case Str(s) => "\"" + EscapeOnto(s, style, "\"" + rest)
    case Arr(items) => "[" + ItemsOnto(items, style, "]" + rest)
    case Obj(members) => "{" + MembersOnto(members, style, "}" + rest)
  }

  function ItemsOnto(items: seq<Json>, style: Style, rest: string): string
    decreases items, 1
  {
    if items == [] then rest
    else if |items| == 1 then ShowOnto(items[0], style, rest)
    else ShowOnto(items[0], style, "," + (style.afterComma + ItemsOnto(items[1..], style, rest)))
  }

  function MembersOnto(members: seq<Member>, style: Style, rest: string): string
    decreases members, 2
  {
    if members == [] then rest
    else if |members| == 1 then MemberOnto(members[0], style, rest)
    else MemberOnto(members[0], style, "," + (style.afterComma + MembersOnto(members[1..], style, rest)))
  }

  function MemberOnto(member: Member, style: Style, rest: string): string
    decreases member, 1
  {
    "\"" + EscapeOnto(member.key, style, "\"" + (":" + (style.afterColon + ShowOnto(member.value, style, rest))))
  }

  function Show(j: Json, style: Style): string { ShowOnto(j, style, "") }

  // ----------------------------------------------------------------- reading

  function SkipBlanks(s: string): (r: string)
    ensures |r| <= |s|
    ensures r != [] ==> !IsBlank(r[0])
  {
    if s != [] && IsBlank(s[0]) then SkipBlanks(s[1..]) else s
  }

  /** s.startswith(word) */
  predicate StartsWith(s: string, word: string)
    ensures StartsWith(s, word) ==> |word| <= |s|
  {
    word == [] || (s != [] && s[0] == word[0] && StartsWith(s[1..], word[1..]))
  }

  function ReadNumber(s: string): (r: Parsed<Json>)
    ensures r.At? ==> |r.rest| < |s|
  {
    if s != [] && s[0] == '-' then
      if StartsWith(s[1..], "Infinity") then At(Float, s[9..]) else ReadUnsigned(s[1..], true)
    else ReadUnsigned(s, false)
  }

  function ReadUnsigned(t: string, negative: bool): (r: Parsed<Json>)
    ensures r.At? ==> |r.rest| < |t|
  {
    var run := DigitRun(t);
    if run == 0 then Fail
    else
      // no number but 0 starts with a 0
      var k := if t[0] == '0' then 1 else run;
      assert t[..k] == t[..run][..k];
      var rest := t[k..];
      var tail := FractionLength(rest) + ExponentLength(rest[FractionLength(rest)..]);
      if tail > 0 then At(Float, rest[tail..]) else At(Int(Signed(negative, Value(t[..k]))), rest)
  }

  function Signed(negative: bool, n: int): int { if negative then -n else n }

  function FractionLength(s: string): (n: nat)
    ensures n <= |s|
  {
    if s != [] && s[0] == '.' && DigitRun(s[1..]) > 0 then 1 + DigitRun(s[1..]) else 0
  }

  function ExponentLength(s: string): (n: nat)
    ensures n <= |s|
  {
    if s == [] || (s[0] != 'e' && s[0] != 'E') then 0
    else
      var sign := if |s| > 1 && (s[1] == '+' || s[1] == '-') then 1 else 0;
      var run := DigitRun(s[1 + sign..]);
      if run == 0 then 0 else 1 + sign + run
  }

  function ReadValue(s: string): (r: Parsed<Json>)
    ensures r.At? ==> |r.rest| < |s|
    decreases |s|, 0
  {
    if s == [] then Fail
    else if s[0] == '\"' then
      var text := ReadString(s[1..]);
      if text.Fail? then Fail else At(Str(text.value), text.rest)
    else if s[0] == '[' then
      var t := SkipBlanks(s[1..]);
      if t != [] && t[0] == ']' then At(Arr([]), t[1..])
      else
        var items := ReadItems(t);
        if items.Fail? then Fail else At(Arr(items.value), items.rest)
    else if s[0] == '{' then
      var t := SkipBlanks(s[1..]);
      if t != [] && t[0] == '}' then At(Obj([]), t[1..])
      else
        var members := ReadMembers(t);
        if members.Fail? then Fail else At(Obj(members.value), members.rest)
    else if s[0] == 'n' then (if "null" <= s then At(Null, s[4..]) else Fail)
    else if s[0] == 't' then (if "true" <= s then At(Bool(true), s[4..]) else Fail)
    else if s[0] == 'f' then (if "false" <= s then At(Bool(false), s[5..]) else Fail)
    else if s[0] == 'N' then (if "NaN" <= s then At(Float, s[3..]) else Fail)
    else if s[0] == 'I' then (if "Infinity" <= s then At(Float, s[8..]) else Fail)
    else ReadNumber(s)
  }

  /** The items of a non-empty array, and its closing bracket. */
  function ReadItems(s: string): (r: Parsed<seq<Json>>)
    ensures r.At? ==> |r.rest| < |s|
    decreases |s|, 1
  {
    var first := ReadValue(s);
    if first.Fail? then Fail
    else
      var t := SkipBlanks(first.rest);
      if t == [] then Fail
      else if t[0] == ']' then At([first.value], t[1..])
      else if t[0] != ',' then Fail
      else
        var more := ReadItems(SkipBlanks(t[1..]));
        if more.Fail? then Fail else At([first.value] + more.value, more.rest)
  }

  function ReadMember(s: string): (r: Parsed<Member>)
    ensures r.At? ==> |r.rest| < |s|
    decreases |s|, 1
  {
    if s == [] || s[0] != '\"' then Fail
    else
      var key := ReadString(s[1..]);
      if key.Fail? then Fail
      else
        var t := SkipBlanks(key.rest);
        if t == [] || t[0] != ':' then Fail
        else
          var value := ReadValue(SkipBlanks(t[1..]));
          if value.Fail? then Fail else At(Member(key.value, value.value), value.rest)
  }

  function ReadMembers(s: string): (r: Parsed<seq<Member>>)
    ensures r.At? ==> |r.rest| < |s|
    decreases |s|, 2
  {
    var first := ReadMember(s);
    if first.Fail? then Fail
    else
      var t := SkipBlanks(first.rest);
      if t == [] then Fail
      else if t[0] == '}' then At([first.value], t[1..])
      else if t[0] != ',' then Fail
      else
        var more := ReadMembers(SkipBlanks(t[1..]));
        if more.Fail? then Fail else At([first.value] + more.value, more.rest)
  }

  /** json.loads: one value, blanks around it, and nothing else. */
  function Loads(s: string): Parsed<Json> {
    var r := ReadValue(SkipBlanks(s));
    if r.At? && SkipBlanks(r.rest) == [] then At(r.value, []) else Fail
  }

  // -------------------------------------------------------------- round trip

  /** Text a value may be followed by. */
  predicate Stops(rest: string) {
    rest == [] || rest[0] == ',' || rest[0] == ']' || rest[0] == '}' || IsBlank(rest[0])
  }

  lemma {:induction false} BlanksSkip(blanks: string, rest: string)
    requires AllBlank(blanks) && (rest == [] || !IsBlank(rest[0]))
    ensures SkipBlanks(blanks + rest) == rest
  {
    if blanks == [] {
      assert blanks + rest == rest;
    } else {
      assert (blanks + rest)[1..] == blanks[1..] + rest;
      BlanksSkip(blanks[1..], rest);
    }
  }

  /** What a value can start with. */
  lemma ShowStarts(j: Json, style: Style, rest: string)
    ensures var s := ShowOnto(j, style, rest);
            s != [] && !IsBlank(s[0]) && s[0] != ']' && s[0] != '}'
  {}

  lemma DigitsRead(m: nat, rest: string)
    requires Stops(rest)
    ensures var t := Digits(m) + rest;
            && DigitRun(t) == |Digits(m)| && t[..|Digits(m)|] == Digits(m) && t[|Digits(m)|..] == rest
            && t[0] == Digits(m)[0] && (t[0] == '0' ==> |Digits(m)| == 1)
  {
    DigitRunIs(Digits(m), rest);
  }

  lemma UnsignedReads(m: nat, negative: bool, rest: string)
    requires Stops(rest)
    ensures ReadUnsigned(Digits(m) + rest, negative) == At(Int(Signed(negative, m)), rest)
  {
    var d := Digits(m);
    var t := d + rest;
    DigitsRead(m, rest);
    ValueOfDigits(m);
    assert rest[0..] == rest;
    assert FractionLength(rest) == 0 && ExponentLength(rest) == 0;
  }

  lemma NumberReads(n: int, rest: string)
    requires Stops(rest)
    ensures ReadNumber(Numeral(n) + rest) == At(Int(n), rest)
    ensures (Numeral(n) + rest)[0] == '-' || IsDigit((Numeral(n) + rest)[0])
  {
    if n < 0 { NegativeReads(-n, Digits(-n), rest); } else { PositiveReads(n, Digits(n), rest); }
  }

  lemma NegativeReads(m: nat, d: string, rest: string)
    requires Stops(rest) && d == Digits(m)
    ensures ReadNumber(['-'] + d + rest) == At(Int(Signed(true, m)), rest)
  {
    UnsignedReads(m, true, rest);
    AfterMinus(d, rest);
    MinusReads(['-'] + d + rest, d + rest);
  }

  lemma AfterMinus(d: string, rest: string)
    requires d != [] && IsDigit(d[0])
    ensures var s := ['-'] + d + rest; s[0] == '-' && s[1..] == d + rest
    ensures d + rest != [] && (d + rest)[0] != 'I'
  {
    assert (d + rest)[0] == d[0];
  }

  lemma PositiveReads(m: nat, d: string, rest: string)
    requires Stops(rest) && d == Digits(m)
    ensures ReadNumber(d + rest) == At(Int(m), rest)
    ensures IsDigit((d + rest)[0])
  {
    UnsignedReads(m, false, rest);
    var t := d + rest;
    assert t[0] == d[0];
  }

  /** After a minus sign comes a number, unless it is infinite. */
  lemma MinusReads(s: string, t: string)
    requires s != [] && s[0] == '-' && s[1..] == t && t != [] && t[0] != 'I'
    ensures ReadNumber(s) == ReadUnsigned(t, true)
  {
  }

  lemma FloatReads(rest: string)
    requires Stops(rest)
    ensures ReadNumber("0.5" + rest) == At(Float, rest)
  {
    var tail := ".5" + rest;
    assert "0.5" + rest == "0" + tail;
    DigitRunIs("5", rest);
    assert tail[1..] == "5" + rest && tail[2..] == rest;
    HalfReads("0" + tail, tail, rest);
  }

  lemma HalfReads(s: string, tail: string, rest: string)
    requires Stops(rest) && s == "0" + tail && |tail| >= 2 && tail[0] == '.' && DigitRun(tail[1..]) == 1 && tail[2..] == rest
    ensures ReadNumber(s) == At(Float, rest)
  {
    DigitRunIs("0", tail);
    assert s[1..] == tail;
    assert FractionLength(tail) == 2 && ExponentLength(rest) == 0;
  }

  lemma WordReads(j: Json, style: Style, rest: string)
    requires j.Null? || j.Bool?
    ensures ReadValue(ShowOnto(j, style, rest)) == At(j, rest)
  {
    var s := ShowOnto(j, style, rest);
    if j.Null? {
      assert s[..4] == "null" && s[4..] == rest;
    } else if j.b {
      assert s[..4] == "true" && s[4..] == rest;
      assert "null"[0] != s[0];
    } else {
      assert s[..5] == "false" && s[5..] == rest;
      assert "null"[0] != s[0] && "true"[0] != s[0];
    }
  }

  lemma ArrayReads(s: string, t: string, items: seq<Json>, rest: string)
    requires s == "[" + t && t != [] && !IsBlank(t[0])
    requires if t[0] == ']' then items == [] && t[1..] == rest else ReadItems(t) == At(items, rest)
    ensures ReadValue(s) == At(Arr(items), rest)
  {
    assert s[1..] == t && SkipBlanks(t) == t;
  }

  lemma ObjectReads(s: string, t: string, members: seq<Member>, rest: string)
    requires s == "{" + t && t != [] && !IsBlank(t[0])
    requires if t[0] == '}' then members == [] && t[1..] == rest else ReadMembers(t) == At(members, rest)
    ensures ReadValue(s) == At(Obj(members), rest)
  {
    assert s[1..] == t && SkipBlanks(t) == t;
  }

  lemma NumberValueReads(s: string, j: Json, rest: string)
    requires s != [] && (s[0] == '-' || IsDigit(s[0])) && ReadNumber(s) == At(j, rest)
    ensures ReadValue(s) == At(j, rest)
  {
    Dispatch(s);
  }

  /** A sign or a digit starts a number. */
  lemma Dispatch(s: string)
    requires s != [] && (s[0] == '-' || IsDigit(s[0]))
    ensures ReadValue(s) == ReadNumber(s)
  {
    var c := s[0];
    assert c != '\"' && c != '[' && c != '{' && c != 'n' && c != 't' && c != 'f' && c != 'N' && c != 'I';
  }

  lemma StringValueReads(s: string, t: string, text: string, rest: string)
    requires s == "\"" + t && ReadString(t) == At(text, rest)
    ensures ReadValue(s) == At(Str(text), rest)
  {
    assert s[1..] == t;
  }

  lemma ScalarReads(j: Json, style: Style, rest: string)
    requires Stops(rest) && (j.Int? || j.Float? || j.Str?)
    ensures ReadValue(ShowOnto(j, style, rest)) == At(j, rest)
  {
    match j
    case Int(n) =>
      NumberReads(n, rest);
      NumberValueReads(Numeral(n) + rest, j, rest);
    case Float =>
      FloatReads(rest);
      NumberValueReads("0.5" + rest, j, rest);
    case Str(text) =>
      StringReads(text, style, rest);
      StringValueReads(ShowOnto(j, style, rest), EscapeOnto(text, style, "\"" + rest), text, rest);
  }

  lemma {:induction false} ValueReads(j: Json, style: Style, rest: string)
    requires Proper(style) && Stops(rest)
    ensures ReadValue(ShowOnto(j, style, rest)) == At(j, rest)
    decreases j, 0
  {
    var s := ShowOnto(j, style, rest);
    match j
    case Arr(items) =>
      var t := ItemsOnto(items, style, "]" + rest);
      if items != [] {
        ItemsStart(items, style, "]" + rest);
        ItemsRead(items, style, rest);
      }
      ArrayReads(s, t, items, rest);
    case Obj(members) =>
      var t := MembersOnto(members, style, "}" + rest);
      if members != [] {
        MembersRead(members, style, rest);
        assert t[0] == '\"';
      }
      ObjectReads(s, t, members, rest);
    case Null => WordReads(j, style, rest);
    case Bool(_) => WordReads(j, style, rest);
    case _ => ScalarReads(j, style, rest);
  }

  lemma ItemsStart(items: seq<Json>, style: Style, rest: string)
    requires items != []
    ensures var s := ItemsOnto(items, style, rest); s != [] && !IsBlank(s[0]) && s[0] != ']'
  {
    ShowStarts(items[0], style, if |items| == 1 then rest else "," + (style.afterComma + ItemsOnto(items[1..], style, rest)));
  }

  lemma ItemsStep(s: string, first: Json, t: string, more: seq<Json>, rest: string)
    requires ReadValue(s) == At(first, t) && t != []
    requires if t[0] == ']' then more == [] && t[1..] == rest
             else t[0] == ',' && ReadItems(SkipBlanks(t[1..])) == At(more, rest)
    ensures ReadItems(s) == At([first] + more, rest)
  {
    assert SkipBlanks(t) == t;
    assert [first] + [] == [first];
  }

  lemma {:induction false} ItemsRead(items: seq<Json>, style: Style, rest: string)
    requires Proper(style) && items != []
    ensures ReadItems(ItemsOnto(items, style, "]" + rest)) == At(items, rest)
    decreases items, 1
  {
    var close := "]" + rest;
    var s := ItemsOnto(items, style, close);
    assert items == [items[0]] + items[1..];
    if |items| == 1 {
      ValueReads(items[0], style, close);
      ItemsStep(s, items[0], close, [], rest);
    } else {
      var more := ItemsOnto(items[1..], style, close);
      var next := "," + (style.afterComma + more);
      ValueReads(items[0], style, next);
      ItemsRead(items[1..], style, rest);
      ItemsStart(items[1..], style, close);
      BlanksSkip(style.afterComma, more);
      assert next[1..] == style.afterComma + more;
      ItemsStep(s, items[0], next, items[1..], rest);
    }
  }

  lemma MembersStep(s: string, first: Member, t: string, more: seq<Member>, rest: string)
    requires ReadMember(s) == At(first, t) && t != []
    requires if t[0] == '}' then more == [] && t[1..] == rest
             else t[0] == ',' && ReadMembers(SkipBlanks(t[1..])) == At(more, rest)
    ensures ReadMembers(s) == At([first] + more, rest)
  {
    assert SkipBlanks(t) == t;
    assert [first] + [] == [first];
  }

  lemma {:induction false} MembersRead(members: seq<Member>, style: Style, rest: string)
    requires Proper(style) && members != []
    ensures ReadMembers(MembersOnto(members, style, "}" + rest)) == At(members, rest)
    decreases members, 2
  {
    var close := "}" + rest;
    var s := MembersOnto(members, style, close);
    assert members == [members[0]] + members[1..];
    if |members| == 1 {
      MemberReads(members[0], style, close);
      MembersStep(s, members[0], close, [], rest);
    } else {
      var more := MembersOnto(members[1..], style, close);
      var next := "," + (style.afterComma + more);
      MemberReads(members[0], style, next);
      MembersRead(members[1..], style, rest);
      BlanksSkip(style.afterComma, more);
      assert next[1..] == style.afterComma + more;
      MembersStep(s, members[0], next, members[1..], rest);
    }
  }

  lemma {:induction false} MemberReads(member: Member, style: Style, rest: string)
    requires Proper(style) && Stops(rest)
    ensures ReadMember(MemberOnto(member, style, rest)) == At(member, rest)
    decreases member, 1
  {
    var value := ShowOnto(member.value, style, rest);
    var tail := ":" + (style.afterColon + value);
    StringReads(member.key, style, tail);
    ValueReads(member.value, style, rest);
    ShowStarts(member.value, style, rest);
    BlanksSkip(style.afterColon, value);
    assert tail[1..] == style.afterColon + value;
    var s := MemberOnto(member, style, rest);
    assert s[1..] == EscapeOnto(member.key, style, "\"" + tail);
  }

  /** Whatever the member order, the spacing after separators and the escaping,
      a written value reads back as itself. */
  lemma LoadsReadsShow(j: Json, style: Style)
    requires Proper(style)
    ensures Loads(Show(j, style)) == At(j, [])
  {
    ValueReads(j, style, "");
    ShowStarts(j, style, "");
  }

  // ------------------------------------------------------------------ lengths

  function EscapedLength(s: string, style: Style): nat {
    if s == [] then 0 else |EscapeChar(s[0], style.ascii)| + EscapedLength(s[1..], style)
  }

  /** How many characters the text of `j` has. */
  function TextLength(j: Json, style: Style): (n: nat)
    ensures 0 < n
    decreases j, 0
  {
    match j
    case Null => 4
    case Bool(b) => if b then 4 else 5
    case Int(n) => |Numeral(n)|
    case Float => 3
    case Str(s) => 2 + EscapedLength(s, style)
    case Arr(items) => 2 + ItemsLength(items, style)
    case Obj(members) => 2 + MembersLength(members, style)
  }

  function ItemsLength(items: seq<Json>, style: Style): nat
    decreases items, 1
  {
    if items == [] then 0
    else TextLength(items[0], style) + (if |items| == 1 then 0 else 1 + |style.afterComma|) + ItemsLength(items[1..], style)
  }

  function MembersLength(members: seq<Member>, style: Style): nat
    decreases members, 2
  {
    if members == [] then 0
    else MemberLength(members[0], style) + (if |members| == 1 then 0 else 1 + |style.afterComma|) + MembersLength(members[1..], style)
  }

  function MemberLength(member: Member, style: Style): nat
    decreases member, 1
  {
    3 + EscapedLength(member.key, style) + |style.afterColon| + TextLength(member.value, style)
  }

  lemma {:induction false} EscapeHasLength(s: string, style: Style, rest: string)
    ensures |EscapeOnto(s, style, rest)| == EscapedLength(s, style) + |rest|
  {
    if s != [] { EscapeHasLength(s[1..], style, rest); }
  }

  lemma {:induction false} ShowHasLength(j: Json, style: Style, rest: string)
    ensures |ShowOnto(j, style, rest)| == TextLength(j, style) + |rest|
    decreases j, 0
  {
    match j
    case Str(s) => EscapeHasLength(s, style, "\"" + rest);
    case Arr(items) => ItemsHaveLength(items, style, "]" + rest);
    case Obj(members) => MembersHaveLength(members, style, "}" + rest);
    case _ =>
  }

  lemma {:induction false} ItemsHaveLength(items: seq<Json>, style: Style, rest: string)
    ensures |ItemsOnto(items, style, rest)| == ItemsLength(items, style) + |rest|
    decreases items, 1
  {
    if |items| == 1 {
      ShowHasLength(items[0], style, rest);
    } else if items != [] {
      ItemsHaveLength(items[1..], style, rest);
      ShowHasLength(items[0], style, "," + (style.afterComma + ItemsOnto(items[1..], style, rest)));
    }
  }

  lemma {:induction false} MembersHaveLength(members: seq<Member>, style: Style, rest: string)
    ensures |MembersOnto(members, style, rest)| == MembersLength(members, style) + |rest|
    decreases members, 2
  {
    if |members| == 1 {
      MemberHasLength(members[0], style, rest);
    } else if members != [] {
      MembersHaveLength(members[1..], style, rest);
      MemberHasLength(members[0], style, "," + (style.afterComma + MembersOnto(members[1..], style, rest)));
    }
  }

  lemma {:induction false} MemberHasLength(member: Member, style: Style, rest: string)
    ensures |MemberOnto(member, style, rest)| == MemberLength(member, style) + |rest|
    decreases member, 1
  {
    ShowHasLength(member.value, style, rest);
    EscapeHasLength(member.key, style, "\"" + (":" + (style.afterColon + ShowOnto(member.value, style, rest))));
  }

  const COMPACT := Style("", "", false)
  const SPACED := Style(" ", " ", false)

  /** A space after every `,` and `:` makes a text at most half as long again:
      no value is so short that its separators outnumber half its characters. */
  lemma {:induction false} SpacingCostsAtMostHalf(j: Json)
    ensures 2 * TextLength(j, SPACED) + 1 <= 3 * TextLength(j, COMPACT)
    decreases j, 0
  {
    match j
    case Str(s) => SameEscapes(s);
    case Arr(items) => ItemsSpacing(items);
    case Obj(members) => MembersSpacing(members);
    case _ =>
  }

  lemma {:induction false} SameEscapes(s: string)
    ensures EscapedLength(s, SPACED) == EscapedLength(s, COMPACT)
  {
    if s != [] { SameEscapes(s[1..]); }
  }

  lemma {:induction false} ItemsSpacing(items: seq<Json>)
    ensures 2 * ItemsLength(items, SPACED) <= 3 * ItemsLength(items, COMPACT)
    ensures items != [] ==> 2 * ItemsLength(items, SPACED) + 1 <= 3 * ItemsLength(items, COMPACT)
    decreases items, 1
  {
    if items != [] {
      SpacingCostsAtMostHalf(items[0]);
      ItemsSpacing(items[1..]);
    }
  }

  lemma {:induction false} MembersSpacing(members: seq<Member>)
    ensures 2 * MembersLength(members, SPACED) <= 3 * MembersLength(members, COMPACT)
    decreases members, 2
  {
    if members != [] {
      SpacingCostsAtMostHalf(members[0].value);
      SameEscapes(members[0].key);
      MembersSpacing(members[1..]);
    }
  }

  // -------------------------------------------------------------------- dicts

  /** A size for recursion over a value's parts. */
  function Weight(j: Json): (n: nat)
    ensures 0 < n
    decreases j, 0
  {
    match j
    case Arr(items) => 1 + ItemsWeight(items)
    case Obj(members) => 1 + MembersWeight(members)
    case _ => 1
  }

  function ItemsWeight(items: seq<Json>): nat
    decreases items, 1
  {
    if items == [] then 0 else Weight(items[0]) + ItemsWeight(items[1..])
  }

  function MembersWeight(members: seq<Member>): nat
    decreases members, 1
  {
    if members == [] then 0 else MembersWeight(members[..|members| - 1]) + Weight(members[|members| - 1].value)
  }

  /** dict.get: the last value written under the key. */
  function Lookup(members: seq<Member>, key: string): (r: Option<Json>)
    ensures r.Some? ==> Weight(r.value) <= MembersWeight(members)
    decreases |members|
  {
    if members == [] then None
    else if members[|members| - 1].key == key then Some(members[|members| - 1].value)
    else Lookup(members[..|members| - 1], key)
  }

  lemma {:induction false} LookupFinds(members: seq<Member>, key: string)
    ensures Lookup(members, key).Some? <==> exists m :: m in members && m.key == key
  {
    if members != [] {
      var before, last := members[..|members| - 1], members[|members| - 1];
      assert members == before + [last];
      LookupFinds(before, key);
    }
  }

  lemma {:induction false} LookupJoin(a: seq<Member>, b: seq<Member>, key: string)
    ensures Lookup(a + b, key) == if Lookup(b, key).Some? then Lookup(b, key) else Lookup(a, key)
    decreases |b|
  {
    if b == [] {
      assert a + b == a;
    } else {
      var before := b[..|b| - 1];
      assert (a + b)[..|a + b| - 1] == a + before;
      LookupJoin(a, before, key);
    }
  }

  /** The same Python value: equal scalars, lists equal item by item, and dicts
      with the same keys and the same values whatever order they are in. */
  ghost predicate SameValue(a: Json, b: Json)
    decreases Weight(a), 0
  {
    match a
    case Arr(items) => b.Arr? && SameItems(items, b.items)
    case Obj(members) =>
      && b.Obj?
      && (forall m :: m in members ==> Lookup(b.members, m.key).Some?)
      && (forall m :: m in b.members ==> Lookup(members, m.key).Some?)
      && (forall m :: m in members && Lookup(members, m.key).Some? && Lookup(b.members, m.key).Some?
            ==> SameValue(Lookup(members, m.key).value, Lookup(b.members, m.key).value))
    case _ => a == b
  }

  ghost predicate SameItems(a: seq<Json>, b: seq<Json>)
    decreases ItemsWeight(a), 1
  {
    |a| == |b| && (a == [] || (SameValue(a[0], b[0]) && SameItems(a[1..], b[1..])))
  }

  /** Equal dicts answer every lookup alike. */
  lemma SameLookup(a: seq<Member>, b: seq<Member>, key: string)
    requires SameValue(Obj(a), Obj(b))
    ensures Lookup(a, key).Some? == Lookup(b, key).Some?
    ensures Lookup(a, key).Some? ==> SameValue(Lookup(a, key).value, Lookup(b, key).value)
  {
    LookupFinds(a, key);
    LookupFinds(b, key);
  }
}
