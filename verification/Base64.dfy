/** URL-safe Base64 (section 5 of RFC 4648) as Python writes it, the lenient way
    Python reads it, and the UTF-8 inside (app/domain/pagination.py:92-129). */
module Base64 {
  import opened Wrappers

  type Byte = b: int | 0 <= b < 256

  function Letter(v: int): (c: char)
    requires 0 <= v < 64
  {
    if v < 26 then 'A' + v as char
    else if v < 52 then 'a' + (v - 26) as char
    else if v < 62 then '0' + (v - 52) as char
    else if v == 62 then '-'
    else '_'
  }

  /** The six bits a character stands for, or -1. The reader also takes the
      letters of the ordinary alphabet. */
  function LetterValue(c: char): (v: int)
    ensures -1 <= v < 64
  {
    if 'A' <= c <= 'Z' then (c - 'A') as int
    else if 'a' <= c <= 'z' then (c - 'a') as int + 26
    else if '0' <= c <= '9' then (c - '0') as int + 52
    else if c == '-' || c == '+' then 62
    else if c == '_' || c == '/' then 63
    else -1
  }

  function Encode(bytes: seq<Byte>): string {
    if bytes == [] then []
    else if |bytes| == 1 then [Letter(bytes[0] / 4), Letter(bytes[0] % 4 * 16)] + "=="
    else if |bytes| == 2 then
      [Letter(bytes[0] / 4), Letter(bytes[0] % 4 * 16 + bytes[1] / 16), Letter(bytes[1] % 16 * 4)] + "="
    else
      [Letter(bytes[0] / 4), Letter(bytes[0] % 4 * 16 + bytes[1] / 16), Letter(bytes[1] % 16 * 4 + bytes[2] / 64), Letter(bytes[2] % 64)]
      + Encode(bytes[3..])
  }

  /** Where the reader is inside a group of four: the bits it has not used yet. */
  datatype Quad = Zero | One(left: int) | Two(left: int) | Three(left: int)

  predicate Fitting(quad: Quad) {
    match quad
    case Zero => true
    case One(left) => 0 <= left < 64
    case Two(left) => 0 <= left < 16
    case Three(left) => 0 <= left < 4
  }

  function Place(quad: Quad): nat {
    match quad case Zero => 0 case One(_) => 1 case Two(_) => 2 case Three(_) => 3
  }

  /** The reader: characters outside the alphabet are passed over, and enough
      padding ends the text wherever it comes. */
  function DecodeFrom(s: string, quad: Quad, pads: nat): Option<seq<Byte>>
    requires Fitting(quad)
  {
    if s == [] then (if quad.Zero? then Some([]) else None)
    else if s[0] == '=' then
      if Place(quad) >= 2 && Place(quad) + pads + 1 >= 4 then Some([])
      else DecodeFrom(s[1..], quad, if Place(quad) >= 2 then pads + 1 else pads)
    else
      var v := LetterValue(s[0]);
      if v < 0 then DecodeFrom(s[1..], quad, pads)
      else match quad
        case Zero => DecodeFrom(s[1..], One(v), 0)
        case One(left) => Onto(left * 4 + v / 16, DecodeFrom(s[1..], Two(v % 16), 0))
        case Two(left) => Onto(left * 16 + v / 4, DecodeFrom(s[1..], Three(v % 4), 0))
        case Three(left) => Onto(left * 64 + v, DecodeFrom(s[1..], Zero, 0))
  }

  function Onto(first: Byte, more: Option<seq<Byte>>): Option<seq<Byte>> {
    if more.None? then None else Some([first] + more.value)
  }

  predicate IsAscii(s: string) {
    forall i :: 0 <= i < |s| ==> s[i] as int < 128
  }

  /** base64.urlsafe_b64decode(cursor.encode("ascii")) */
  function Decode(s: string): Option<seq<Byte>> {
    if IsAscii(s) then DecodeFrom(s, Zero, 0) else None
  }

  lemma LetterReads(v: int)
    requires 0 <= v < 64
    ensures LetterValue(Letter(v)) == v && Letter(v) != '=' && Letter(v) as int < 128
  {}

  lemma Split64(b: Byte)
    ensures 0 <= b / 4 < 64 && 0 <= b % 4 < 4 && b == b / 4 * 4 + b % 4
    ensures 0 <= b / 16 < 16 && 0 <= b % 16 < 16 && b == b / 16 * 16 + b % 16
    ensures 0 <= b / 64 < 4 && 0 <= b % 64 < 64 && b == b / 64 * 64 + b % 64
  {}

  /** Two packed parts come apart again. */
  lemma Halves16(high: int, low: int, v: int)
    requires 0 <= low < 16 && v == high * 16 + low
    ensures v / 16 == high && v % 16 == low
  {}

  lemma Halves4(high: int, low: int, v: int)
    requires 0 <= low < 4 && v == high * 4 + low
    ensures v / 4 == high && v % 4 == low
  {}

  lemma ReadLetter(v: int, rest: string, quad: Quad, pads: nat)
    requires 0 <= v < 64 && Fitting(quad)
    ensures DecodeFrom([Letter(v)] + rest, quad, pads)
            == match quad
               case Zero => DecodeFrom(rest, One(v), 0)
               case One(left) => Onto(left * 4 + v / 16, DecodeFrom(rest, Two(v % 16), 0))
               case Two(left) => Onto(left * 16 + v / 4, DecodeFrom(rest, Three(v % 4), 0))
               case Three(left) => Onto(left * 64 + v, DecodeFrom(rest, Zero, 0))
  {
    LetterReads(v);
    assert ([Letter(v)] + rest)[1..] == rest;
  }

  lemma ReadPads(left: int)
    requires 0 <= left < 16
    ensures DecodeFrom("==", Two(left), 0) == Some([])
    ensures left < 4 ==> DecodeFrom("=", Three(left), 0) == Some([])
  {
    assert "=="[1..] == "=";
  }

  /** Two, three and four letters in a row. */
  lemma ReadTwo(p: int, q: int, rest: string)
    requires 0 <= p < 64 && 0 <= q < 64
    ensures p * 4 + q / 16 < 256
    ensures DecodeFrom([Letter(p)] + ([Letter(q)] + rest), Zero, 0) == Onto(p * 4 + q / 16, DecodeFrom(rest, Two(q % 16), 0))
  {
    ReadLetter(p, [Letter(q)] + rest, Zero, 0);
    ReadLetter(q, rest, One(p), 0);
  }

  lemma ReadThird(left: int, r: int, rest: string)
    requires 0 <= left < 16 && 0 <= r < 64
    ensures left * 16 + r / 4 < 256
    ensures DecodeFrom([Letter(r)] + rest, Two(left), 0) == Onto(left * 16 + r / 4, DecodeFrom(rest, Three(r % 4), 0))
  {
    ReadLetter(r, rest, Two(left), 0);
  }

  lemma ReadFourth(left: int, t: int, rest: string)
    requires 0 <= left < 4 && 0 <= t < 64
    ensures left * 64 + t < 256
    ensures DecodeFrom([Letter(t)] + rest, Three(left), 0) == Onto(left * 64 + t, DecodeFrom(rest, Zero, 0))
  {
    ReadLetter(t, rest, Three(left), 0);
  }

  lemma OneByte(a: Byte, rest: string)
    ensures DecodeFrom([Letter(a / 4)] + ([Letter(a % 4 * 16)] + rest), Zero, 0) == Onto(a, DecodeFrom(rest, Two(0), 0))
  {
    Split64(a);
    Halves16(a % 4, 0, a % 4 * 16);
    ReadTwo(a / 4, a % 4 * 16, rest);
  }

  /** The second letter carries the ends of two bytes, and so does the third. */
  lemma SecondLetter(a: Byte, b: Byte, v: int)
    requires v == a % 4 * 16 + b / 16
    ensures 0 <= v < 64 && v / 16 == a % 4 && v % 16 == b / 16
  {
    Split64(a);
    Split64(b);
    Halves16(a % 4, b / 16, v);
  }

  lemma ThirdLetter(b: Byte, c: Byte, w: int)
    requires w == b % 16 * 4 + c / 64
    ensures 0 <= w < 64 && w / 4 == b % 16 && w % 4 == c / 64
  {
    Split64(b);
    Split64(c);
    Halves4(b % 16, c / 64, w);
  }

  lemma TwoBytes(a: Byte, b: Byte, v: int, w: int, rest: string)
    requires v == a % 4 * 16 + b / 16 && w == b % 16 * 4
    ensures 0 <= v < 64 && 0 <= w < 64
    ensures DecodeFrom([Letter(a / 4)] + ([Letter(v)] + ([Letter(w)] + rest)), Zero, 0)
            == Onto(a, Onto(b, DecodeFrom(rest, Three(0), 0)))
  {
    Split64(a);
    Split64(b);
    SecondLetter(a, b, v);
    Halves4(b % 16, 0, w);
    ReadTwo(a / 4, v, [Letter(w)] + rest);
    ReadThird(b / 16, w, rest);
  }

  lemma FourLetters(p: int, q: int, r: int, t: int, a: Byte, b: Byte, c: Byte, rest: string)
    requires 0 <= p < 64 && 0 <= q < 64 && 0 <= r < 64 && 0 <= t < 64
    requires p * 4 + q / 16 == a && q % 16 * 16 + r / 4 == b && r % 4 * 64 + t == c
    ensures DecodeFrom([Letter(p)] + ([Letter(q)] + ([Letter(r)] + ([Letter(t)] + rest))), Zero, 0)
            == Onto(a, Onto(b, Onto(c, DecodeFrom(rest, Zero, 0))))
  {
    ReadTwo(p, q, [Letter(r)] + ([Letter(t)] + rest));
    ReadThird(q % 16, r, [Letter(t)] + rest);
    ReadFourth(r % 4, t, rest);
  }

  lemma Packed(a: Byte, b: Byte, c: Byte, v: int, w: int)
    requires v == a % 4 * 16 + b / 16 && w == b % 16 * 4 + c / 64
    ensures 0 <= v < 64 && 0 <= w < 64
    ensures a / 4 * 4 + v / 16 == a && v % 16 * 16 + w / 4 == b && w % 4 * 64 + c % 64 == c
  {
    Split64(a);
    Split64(b);
    Split64(c);
    SecondLetter(a, b, v);
    ThirdLetter(b, c, w);
  }

  lemma ThreeBytes(a: Byte, b: Byte, c: Byte, v: int, w: int, rest: string)
    requires v == a % 4 * 16 + b / 16 && w == b % 16 * 4 + c / 64
    ensures 0 <= v < 64 && 0 <= w < 64
    ensures DecodeFrom([Letter(a / 4)] + ([Letter(v)] + ([Letter(w)] + ([Letter(c % 64)] + rest))), Zero, 0)
            == Onto(a, Onto(b, Onto(c, DecodeFrom(rest, Zero, 0))))
  {
    Packed(a, b, c, v, w);
    FourLetters(a / 4, v, w, c % 64, a, b, c, rest);
  }

  lemma LastByteReads(bytes: seq<Byte>, a: Byte, pads: string)
    requires bytes == [a] && pads == "==" && DecodeFrom(pads, Two(0), 0) == Some([])
    ensures DecodeFrom(Encode(bytes), Zero, 0) == Some(bytes)
  {
    OneByte(a, pads);
    assert Encode(bytes) == [Letter(a / 4)] + ([Letter(a % 4 * 16)] + pads);
    assert bytes == [a] + [];
  }

  lemma LastTwoRead(bytes: seq<Byte>, a: Byte, b: Byte, pads: string)
    requires bytes == [a, b] && pads == "=" && DecodeFrom(pads, Three(0), 0) == Some([])
    ensures DecodeFrom(Encode(bytes), Zero, 0) == Some(bytes)
  {
    var v, w := a % 4 * 16 + b / 16, b % 16 * 4;
    TwoBytes(a, b, v, w, pads);
    assert Encode(bytes) == [Letter(a / 4)] + ([Letter(v)] + ([Letter(w)] + pads));
    assert bytes == [a] + ([b] + []);
  }

  lemma FullGroupReads(bytes: seq<Byte>, rest: string)
    requires 2 < |bytes| && rest == Encode(bytes[3..])
    ensures DecodeFrom(rest, Zero, 0) == Some(bytes[3..]) ==> DecodeFrom(Encode(bytes), Zero, 0) == Some(bytes)
  {
    var a, b, c := bytes[0], bytes[1], bytes[2];
    var v, w := a % 4 * 16 + b / 16, b % 16 * 4 + c / 64;
    ThreeBytes(a, b, c, v, w, rest);
    assert Encode(bytes) == [Letter(a / 4)] + ([Letter(v)] + ([Letter(w)] + ([Letter(c % 64)] + rest)));
    assert bytes == [a] + ([b] + ([c] + bytes[3..]));
  }

  lemma {:induction false} GroupsRead(bytes: seq<Byte>)
    ensures DecodeFrom(Encode(bytes), Zero, 0) == Some(bytes)
    decreases |bytes|
  {
    ReadPads(0);
    if |bytes| == 1 {
      LastByteReads(bytes, bytes[0], "==");
    } else if |bytes| == 2 {
      LastTwoRead(bytes, bytes[0], bytes[1], "=");
    } else if |bytes| > 2 {
      GroupsRead(bytes[3..]);
      FullGroupReads(bytes, Encode(bytes[3..]));
    }
  }

  lemma {:induction false} EncodeIsAscii(bytes: seq<Byte>)
    ensures IsAscii(Encode(bytes))
    decreases |bytes|
  {
    if |bytes| > 2 { EncodeIsAscii(bytes[3..]); }
  }

  /** Every byte string reads back from its encoding, so no two share one. */
  lemma DecodeEncode(bytes: seq<Byte>)
    ensures Decode(Encode(bytes)) == Some(bytes)
  {
    GroupsRead(bytes);
    EncodeIsAscii(bytes);
  }

  // -------------------------------------------------------------------- UTF-8

  /** The six bits of a continuation byte, or -1. */
  function Tail(bytes: seq<Byte>, i: nat): int {
    if i < |bytes| && 0x80 <= bytes[i] < 0xC0 then (bytes[i] as int) - 0x80 else -1
  }

  /** bytes.decode("utf-8"), strict: shortest forms and scalar values only. */
  function FromUtf8(bytes: seq<Byte>): Option<string> {
    if bytes == [] then Some([])
    else
      var a, b, c, d := bytes[0] as int, Tail(bytes, 1), Tail(bytes, 2), Tail(bytes, 3);
      if a < 0x80 then CharOnto(a, FromUtf8(bytes[1..]))
      else if 0xC2 <= a < 0xE0 && b >= 0 then CharOnto((a - 0xC0) * 0x40 + b, FromUtf8(bytes[2..]))
      else if 0xE0 <= a < 0xF0 && b >= (if a == 0xE0 then 0x20 else 0) && c >= 0 then
        CharOnto(((a - 0xE0) * 0x40 + b) * 0x40 + c, FromUtf8(bytes[3..]))
      else if 0xF0 <= a < 0xF5 && b >= (if a == 0xF0 then 0x10 else 0) && c >= 0 && d >= 0 then
        CharOnto((((a - 0xF0) * 0x40 + b) * 0x40 + c) * 0x40 + d, FromUtf8(bytes[4..]))
      else None
  }

  function CharOnto(n: int, more: Option<string>): Option<string> {
    if more.None? || n < 0 || 0xD800 <= n < 0xE000 || 0x110000 <= n then None else Some([n as char] + more.value)
  }

  /** text.encode("utf-8"), for the ASCII text the writer produces. */
  function AsciiBytes(s: string): seq<Byte>
    requires IsAscii(s)
  {
    if s == [] then [] else [s[0] as int] + AsciiBytes(s[1..])
  }

  lemma {:induction false} AsciiIsUtf8(s: string)
    requires IsAscii(s)
    ensures FromUtf8(AsciiBytes(s)) == Some(s)
  {
    if s != [] {
      AsciiIsUtf8(s[1..]);
      assert AsciiBytes(s)[1..] == AsciiBytes(s[1..]);
      assert s == [s[0]] + s[1..];
    }
  }

  /** One character, as the table of section 3 of RFC 3629 writes it. */
  function Utf8Char(c: char): (bytes: seq<Byte>)
    ensures bytes != []
  {
    var n := c as int;
    if n < 0x80 then [n]
    else if n < 0x800 then [0xC0 + n / 0x40, 0x80 + n % 0x40]
    else if n < 0x10000 then [0xE0 + n / 0x1000, 0x80 + n / 0x40 % 0x40, 0x80 + n % 0x40]
    else [0xF0 + n / 0x40000, 0x80 + n / 0x1000 % 0x40, 0x80 + n / 0x40 % 0x40, 0x80 + n % 0x40]
  }

  function Utf8(s: string): seq<Byte> {
    if s == [] then [] else Utf8Char(s[0]) + Utf8(s[1..])
  }

  lemma Tails(n: int)
    requires 0 <= n
    ensures n / 0x1000 == n / 0x40 / 0x40 && n / 0x40000 == n / 0x1000 / 0x40
    ensures n == n / 0x40 * 0x40 + n % 0x40
    ensures n / 0x40 == n / 0x1000 * 0x40 + n / 0x40 % 0x40
    ensures n / 0x1000 == n / 0x40000 * 0x40 + n / 0x1000 % 0x40
  {}

  lemma CharReads(c: char, rest: seq<Byte>)
    ensures FromUtf8(Utf8Char(c) + rest) == CharOnto(c as int, FromUtf8(rest))
  {
    var n, bytes := c as int, Utf8Char(c) + rest;
    Tails(n);
    assert bytes[|Utf8Char(c)|..] == rest;
  }

  /** The bytes of a character of two, of three and of four. */
  lemma TwoByteChar(bytes: seq<Byte>, n: int)
    requires |bytes| == 2 && 0xC2 <= bytes[0] < 0xE0 && Tail(bytes, 1) >= 0
    requires n == (bytes[0] - 0xC0) * 0x40 + Tail(bytes, 1)
    ensures 0 <= n < 0x800 && Utf8Char(n as char) == bytes
  {
    Tails(n);
  }

  lemma ThreeByteChar(bytes: seq<Byte>, n: int)
    requires |bytes| == 3 && 0xE0 <= bytes[0] < 0xF0 && Tail(bytes, 1) >= (if bytes[0] == 0xE0 then 0x20 else 0) && Tail(bytes, 2) >= 0
    requires n == ((bytes[0] - 0xE0) * 0x40 + Tail(bytes, 1)) * 0x40 + Tail(bytes, 2)
    ensures 0 <= n < 0x10000 && (!(0xD800 <= n < 0xE000) ==> Utf8Char(n as char) == bytes)
  {
    Tails(n);
  }

  lemma FourByteChar(bytes: seq<Byte>, n: int)
    requires |bytes| == 4 && 0xF0 <= bytes[0] < 0xF5 && Tail(bytes, 1) >= (if bytes[0] == 0xF0 then 0x10 else 0)
    requires Tail(bytes, 2) >= 0 && Tail(bytes, 3) >= 0
    requires n == (((bytes[0] - 0xF0) * 0x40 + Tail(bytes, 1)) * 0x40 + Tail(bytes, 2)) * 0x40 + Tail(bytes, 3)
    ensures 0x10000 <= n && (n < 0x110000 ==> Utf8Char(n as char) == bytes)
  {
    Tails(n);
  }

  /** The first character of a text that reads is the one the table writes. */
  lemma FirstCharIs(bytes: seq<Byte>) returns (c: char, rest: seq<Byte>)
    requires bytes != [] && FromUtf8(bytes).Some?
    ensures bytes == Utf8Char(c) + rest && |rest| < |bytes| && FromUtf8(bytes) == CharOnto(c as int, FromUtf8(rest))
  {
    var a := bytes[0] as int;
    var k := if a < 0x80 then 1 else if a < 0xE0 then 2 else if a < 0xF0 then 3 else 4;
    rest := bytes[k..];
    var b, d, e := Tail(bytes, 1), Tail(bytes, 2), Tail(bytes, 3);
    var n := if k == 1 then a
             else if k == 2 then (a - 0xC0) * 0x40 + b
             else if k == 3 then ((a - 0xE0) * 0x40 + b) * 0x40 + d
             else (((a - 0xF0) * 0x40 + b) * 0x40 + d) * 0x40 + e;
    assert FromUtf8(bytes) == CharOnto(n, FromUtf8(rest));
    c := n as char;
    if k == 2 { TwoByteChar(bytes[..k], n); }
    if k == 3 { ThreeByteChar(bytes[..k], n); }
    if k == 4 { FourByteChar(bytes[..k], n); }
    assert bytes == bytes[..k] + rest;
  }

  /** The reader accepts exactly the well-formed texts: shortest forms, no
      surrogates, nothing past the last code point. */
  lemma {:induction false} Utf8ReadsIff(bytes: seq<Byte>, s: string)
    ensures FromUtf8(bytes) == Some(s) <==> bytes == Utf8(s)
    decreases |bytes| + |s|
  {
    if FromUtf8(bytes) == Some(s) && bytes != [] {
      var c, rest := FirstCharIs(bytes);
      assert s[0] == c && s[1..] == FromUtf8(rest).value;
      Utf8ReadsIff(rest, s[1..]);
    }
    if bytes == Utf8(s) && s != [] {
      CharReads(s[0], Utf8(s[1..]));
      assert |Utf8(s[1..])| < |bytes|;
      Utf8ReadsIff(Utf8(s[1..]), s[1..]);
      assert s == [s[0]] + s[1..];
    }
  }

  /** The reader takes the letters of both alphabets of RFC 4648. */
  lemma BothAlphabetsRead(c: char)
    ensures LetterValue(c) >= 0 <==> c == '+' || c == '/' || exists v :: 0 <= v < 64 && c == Letter(v)
    ensures LetterValue('+') == 62 && LetterValue('/') == 63
  {
    var v := LetterValue(c);
    if v >= 0 && c != '+' && c != '/' { assert c == Letter(v); }
    forall w | 0 <= w < 64 && c == Letter(w) ensures LetterValue(c) >= 0 { LetterReads(w); }
  }
}
