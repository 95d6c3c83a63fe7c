/** Page cursors: positions of an ordered list as opaque text, and back
    (app/domain/pagination.py:92-339; app/domain/issues.py:270-345). */
module Cursors {
  import opened Wrappers
  import opened Decimal
  import opened Calendar
  import opened IsoTime
  import opened Json
  import opened Base64

  // ---------------------------------------------------------------- UUID texts

  /** A UUID as its 32 hexadecimal digits. */
  type Uuid = u: seq<int> | |u| == 32 && forall i :: 0 <= i < |u| ==> 0 <= u[i] < 16
    witness seq(32, _ => 0)

  predicate AreNibbles(u: seq<int>) { forall i :: 0 <= i < |u| ==> 0 <= u[i] < 16 }

  function Hex(u: seq<int>): string
    requires AreNibbles(u)
  {
    if u == [] then [] else [HexChar(u[0])] + Hex(u[1..])
  }

  function UuidText(u: Uuid): string {
    Hex(u[..8]) + ("-" + (Hex(u[8..12]) + ("-" + (Hex(u[12..16]) + ("-" + (Hex(u[16..20]) + ("-" + Hex(u[20..]))))))))
  }

  /** The hex digits of a text, hyphens passed over; None at anything else. */
  function Nibbles(s: string): (r: Option<seq<int>>)
    ensures r.Some? ==> AreNibbles(r.value)
  {
    if s == [] then Some([])
    else
      var more := Nibbles(s[1..]);
      if s[0] == '-' || more.None? then more
      else if HexValue(s[0]) < 0 then None
      else Some([HexValue(s[0])] + more.value)
  }

  /** UUID(text) */
  function ReadUuid(s: string): Option<Uuid> {
    var r := Nibbles(s);
    if r.Some? && |r.value| == 32 then Some(r.value) else None
  }

  lemma NibbleStep(d: int, more: string)
    requires 0 <= d < 16 && Nibbles(more).Some?
    ensures Nibbles([HexChar(d)] + more) == Some([d] + Nibbles(more).value)
  {
    HexReads(d);
    assert ([HexChar(d)] + more)[1..] == more;
  }

  lemma {:induction false} HexNibbles(u: seq<int>, rest: string)
    requires AreNibbles(u) && Nibbles(rest).Some?
    ensures Nibbles(Hex(u) + rest) == Some(u + Nibbles(rest).value)
  {
    if u == [] {
      assert Hex(u) + rest == rest && u + Nibbles(rest).value == Nibbles(rest).value;
    } else {
      var more := Hex(u[1..]) + rest;
      HexNibbles(u[1..], rest);
      NibbleStep(u[0], more);
      assert Hex(u) + rest == [HexChar(u[0])] + more;
      assert u + Nibbles(rest).value == [u[0]] + (u[1..] + Nibbles(rest).value);
    }
  }

  lemma HyphenNibbles(rest: string)
    ensures Nibbles("-" + rest) == Nibbles(rest)
  {
    assert ("-" + rest)[1..] == rest;
  }

  lemma UuidReads(u: Uuid)
    ensures ReadUuid(UuidText(u)) == Some(u)
  {
    var e := Hex(u[20..]);
    var d := Hex(u[16..20]) + ("-" + e);
    var c := Hex(u[12..16]) + ("-" + d);
    var b := Hex(u[8..12]) + ("-" + c);
    HexNibbles(u[20..], "");
    assert e + "" == e && u[20..] + [] == u[20..];
    HyphenNibbles(e);
    HexNibbles(u[16..20], "-" + e);
    assert u[16..20] + u[20..] == u[16..];
    HyphenNibbles(d);
    HexNibbles(u[12..16], "-" + d);
    assert u[12..16] + u[16..] == u[12..];
    HyphenNibbles(c);
    HexNibbles(u[8..12], "-" + c);
    assert u[8..12] + u[12..] == u[8..];
    HyphenNibbles(b);
    HexNibbles(u[..8], "-" + b);
    assert u[..8] + u[8..] == u;
  }

  // ------------------------------------------------------------ int(), str()

  /** int(text), on an optional sign and ASCII digits. */
  function ReadInt(s: string): Option<int> {
    var digits := if s != [] && (s[0] == '-' || s[0] == '+') then s[1..] else s;
    if digits == [] || !AllDigits(digits) then None
    else Some(Signed(s[0] == '-', Value(digits)))
  }

  lemma IntReads(n: int)
    ensures ReadInt(Numeral(n)) == Some(n)
  {
    ValueOfDigits(if n < 0 then -n else n);
    if n < 0 {
      assert Numeral(n)[1..] == Digits(-n);
    } else {
      assert IsDigit(Numeral(n)[0]);
    }
  }

  // ------------------------------------------------------------------ payloads

  /** json.dumps with its default escaping, and no blanks. */
  const WIRE := Style("", "", true)

  lemma {:induction false} EscapesAreAscii(s: string, style: Style, rest: string)
    requires style.ascii && IsAscii(rest)
    ensures IsAscii(EscapeOnto(s, style, rest))
  {
    if s != [] { EscapesAreAscii(s[1..], style, rest); }
  }

  /** A string member in front of ASCII text is ASCII text. */
  lemma MemberIsAscii(member: Member, rest: string)
    requires IsAscii(rest) && (member.value.Str? || member.value.Null?)
    ensures IsAscii(MemberOnto(member, WIRE, rest))
  {
    if member.value.Str? { EscapesAreAscii(member.value.s, WIRE, "\"" + rest); }
    var value := ShowOnto(member.value, WIRE, rest);
    assert IsAscii(value);
    EscapesAreAscii(member.key, WIRE, "\"" + (":" + (WIRE.afterColon + value)));
  }

  predicate AreTexts(members: seq<Member>) {
    forall i :: 0 <= i < |members| ==> members[i].value.Str? || members[i].value.Null?
  }

  lemma {:induction false} MembersAreAscii(members: seq<Member>, rest: string)
    requires IsAscii(rest) && AreTexts(members)
    ensures IsAscii(MembersOnto(members, WIRE, rest))
  {
    if |members| == 1 {
      MemberIsAscii(members[0], rest);
    } else if members != [] {
      MembersAreAscii(members[1..], rest);
      MemberIsAscii(members[0], "," + (WIRE.afterComma + MembersOnto(members[1..], WIRE, rest)));
    }
  }

  lemma PayloadIsAscii(members: seq<Member>)
    requires AreTexts(members)
    ensures IsAscii(Show(Obj(members), WIRE))
  {
    MembersAreAscii(members, "}" + "");
  }

  /** _encode_payload, its members given in key order. */
  function EncodePayload(members: seq<Member>): string
    requires AreTexts(members)
  {
    PayloadIsAscii(members);
    Encode(AsciiBytes(Show(Obj(members), WIRE)))
  }

  /** _decode_payload: the object inside a cursor; None for InvalidCursorError. */
  function DecodePayload(cursor: string): Option<seq<Member>> {
    var bytes := Decode(cursor);
    if bytes.None? then None
    else
      var text := FromUtf8(bytes.value);
      if text.None? then None
      else match Loads(text.value)
        case At(Obj(members), _) => Some(members)
        case _ => None
  }

  lemma PayloadReads(members: seq<Member>)
    requires AreTexts(members)
    ensures DecodePayload(EncodePayload(members)) == Some(members)
  {
    var text := Show(Obj(members), WIRE);
    PayloadIsAscii(members);
    DecodeEncode(AsciiBytes(text));
    AsciiIsUtf8(text);
    LoadsReadsShow(Obj(members), WIRE);
  }

  /** _string_field */
  function StringField(members: seq<Member>, key: string): Option<string> {
    var v := Lookup(members, key);
    if v.Some? && v.value.Str? then Some(v.value.s) else None
  }

  /** Two or three members, each found under its own key. */
  lemma PairFinds(a: Member, b: Member)
    requires a.key != b.key
    ensures Lookup([a, b], a.key) == Some(a.value) && Lookup([a, b], b.key) == Some(b.value)
    ensures forall key :: key != a.key && key != b.key ==> Lookup([a, b], key) == None
  {
    assert [a, b][..1] == [a] && [a][..0] == [];
  }

  lemma TripleFinds(a: Member, b: Member, c: Member)
    requires a.key != b.key && a.key != c.key && b.key != c.key
    ensures var ms := [a, b, c]; Lookup(ms, a.key) == Some(a.value) && Lookup(ms, b.key) == Some(b.value) && Lookup(ms, c.key) == Some(c.value)
    ensures forall key :: key != a.key && key != b.key && key != c.key ==> Lookup([a, b, c], key) == None
  {
    PairFinds(a, b);
    assert [a, b, c][..2] == [a, b];
  }

  // ----------------------------------------------------- (created_at, id) cursors

  datatype Keyset = Keyset(createdAt: Moment, id: Uuid)

  function KeysetMembers(createdAt: Moment, id: Uuid): seq<Member>
    requires ValidMoment(createdAt)
  {
    [Member("created_at", Str(IsoMoment(createdAt))), Member("id", Str(UuidText(id)))]
  }

  /** encode_issue_cursor; None where a naive datetime raises ValueError. */
  function EncodeKeyset(createdAt: Moment, id: Uuid): Option<string>
    requires ValidMoment(createdAt)
  {
    if createdAt.offset.None? then None else Some(EncodePayload(KeysetMembers(createdAt, id)))
  }

  function DecodeKeyset(cursor: string): Option<Keyset> {
    var payload := DecodePayload(cursor);
    if payload.None? then None
    else
      var createdAt, id := StringField(payload.value, "created_at"), StringField(payload.value, "id");
      if createdAt.None? || id.None? then None
      else
        var moment, uuid := ReadMoment(createdAt.value), ReadUuid(id.value);
        if moment.None? || uuid.None? || moment.value.offset.None? then None
        else Some(Keyset(moment.value, uuid.value))
  }

  lemma KeysetStep(cursor: string, ms: seq<Member>, c: string, i: string, moment: Moment, id: Uuid)
    requires DecodePayload(cursor) == Some(ms) && Lookup(ms, "created_at") == Some(Str(c)) && Lookup(ms, "id") == Some(Str(i))
    requires ReadMoment(c) == Some(moment) && ReadUuid(i) == Some(id)
    ensures DecodeKeyset(cursor) == if moment.offset.None? then None else Some(Keyset(moment, id))
  {}

  lemma KeysetReads(createdAt: Moment, id: Uuid)
    requires ValidMoment(createdAt)
    ensures DecodeKeyset(EncodePayload(KeysetMembers(createdAt, id)))
            == if createdAt.offset.None? then None else Some(Keyset(createdAt, id))
  {
    var ms := KeysetMembers(createdAt, id);
    PayloadReads(ms);
    PairFinds(ms[0], ms[1]);
    MomentReads(createdAt);
    UuidReads(id);
    KeysetStep(EncodePayload(ms), ms, IsoMoment(createdAt), UuidText(id), createdAt, id);
  }

  /** Every aware instant and every id comes back from its cursor. */
  lemma KeysetRoundTrip(createdAt: Moment, id: Uuid)
    requires ValidMoment(createdAt) && createdAt.offset.Some?
    ensures DecodeKeyset(EncodeKeyset(createdAt, id).value) == Some(Keyset(createdAt, id))
  {
    KeysetReads(createdAt, id);
  }

  /** An instant without an offset is neither put into a cursor nor taken from one,
      even where a client has written such a cursor itself. */
  lemma NaiveInstantsAreRefused(createdAt: Moment, id: Uuid)
    requires ValidMoment(createdAt)
    ensures EncodeKeyset(createdAt, id).Some? <==> createdAt.offset.Some?
    ensures DecodeKeyset(EncodePayload(KeysetMembers(createdAt, id))).Some? <==> createdAt.offset.Some?
  {
    KeysetReads(createdAt, id);
  }

  lemma DecodedKeysetIsAware(cursor: string)
    ensures DecodeKeyset(cursor).Some? ==> DecodeKeyset(cursor).value.createdAt.offset.Some?
  {}

  lemma KeysetIsInjective(a: Keyset, b: Keyset)
    requires ValidMoment(a.createdAt) && ValidMoment(b.createdAt)
    requires EncodeKeyset(a.createdAt, a.id).Some? && EncodeKeyset(a.createdAt, a.id) == EncodeKeyset(b.createdAt, b.id)
    ensures a == b
  {
    KeysetRoundTrip(a.createdAt, a.id);
    KeysetRoundTrip(b.createdAt, b.id);
  }

  // --------------------------------------------------------------- label cursors

  datatype LabelCursor = LabelCursor(name: string, id: Uuid)

  function LabelMembers(name: string, id: Uuid): seq<Member> {
    [Member("id", Str(UuidText(id))), Member("name", Str(name))]
  }

  function EncodeLabel(name: string, id: Uuid): string { EncodePayload(LabelMembers(name, id)) }

  function DecodeLabel(cursor: string): Option<LabelCursor> {
    var payload := DecodePayload(cursor);
    if payload.None? then None
    else
      var name, id := StringField(payload.value, "name"), StringField(payload.value, "id");
      if name.None? || id.None? || ReadUuid(id.value).None? then None
      else Some(LabelCursor(name.value, ReadUuid(id.value).value))
  }

  /** Any name at all: quotes, control characters, text beyond the basic plane. */
  lemma LabelRoundTrip(name: string, id: Uuid)
    ensures DecodeLabel(EncodeLabel(name, id)) == Some(LabelCursor(name, id))
  {
    var ms := LabelMembers(name, id);
    PayloadReads(ms);
    PairFinds(ms[0], ms[1]);
    UuidReads(id);
  }

  lemma LabelIsInjective(a: LabelCursor, b: LabelCursor)
    requires EncodeLabel(a.name, a.id) == EncodeLabel(b.name, b.id)
    ensures a == b
  {
    LabelRoundTrip(a.name, a.id);
    LabelRoundTrip(b.name, b.id);
  }

  // ---------------------------------------------------------- issue-list cursors

  datatype Field = Priority | CreatedAt | UpdatedAt | DueDate

  datatype Direction = Asc | Desc

  datatype Order = Order(field: Field, direction: Direction)

  /** What a row sorts at; NoKey where it has none. */
  datatype OrderKey = NoKey | Number(n: int) | Day(d: Date) | Instant(m: Moment)

  datatype Position = Position(order: Order, key: OrderKey, id: Uuid)

  predicate ValidKey(key: OrderKey) {
    match key
    case Day(d) => Representable(d)
    case Instant(m) => ValidMoment(m)
    case _ => true
  }

  function FieldText(field: Field): string {
    match field
    case Priority => "priority"
    case CreatedAt => "created_at"
    case UpdatedAt => "updated_at"
    case DueDate => "due_date"
  }

  function DirectionText(direction: Direction): string { if direction.Asc? then "asc" else "desc" }

  function Token(order: Order): string { FieldText(order.field) + (":" + DirectionText(order.direction)) }

  function ReadField(s: string): (r: Option<Field>)
    ensures forall f :: FieldText(f) == s ==> r == Some(f)
  {
    if s == "priority" then Some(Priority)
    else if s == "created_at" then Some(CreatedAt)
    else if s == "updated_at" then Some(UpdatedAt)
    else if s == "due_date" then Some(DueDate)
    else None
  }

  function ReadDirection(s: string): (r: Option<Direction>)
    ensures forall d :: DirectionText(d) == s ==> r == Some(d)
  {
    if s == "asc" then Some(Asc) else if s == "desc" then Some(Desc) else None
  }

  /** Where str.partition(":") cuts. */
  function ColonAt(s: string): (n: nat)
    ensures n <= |s|
  {
    if s == [] || s[0] == ':' then 0 else 1 + ColonAt(s[1..])
  }

  function ReadOrder(s: string): Option<Order> {
    var n := ColonAt(s);
    var field, direction := ReadField(s[..n]), ReadDirection(if n < |s| then s[n + 1..] else "");
    if field.None? || direction.None? then None else Some(Order(field.value, direction.value))
  }

  /** _order_key_text */
  function KeyText(key: OrderKey): Json
    requires ValidKey(key)
  {
    match key
    case NoKey => Null
    case Number(n) => Str(Numeral(n))
    case Day(d) => Str(IsoDate(d))
    case Instant(m) => Str(IsoMoment(m))
  }

  /** _parse_order_key: the ordering chooses the type, never the text. */
  function ReadKey(field: Field, text: Json): Option<OrderKey>
    requires text.Null? || text.Str?
  {
    if text.Null? then Some(NoKey)
    else match field
      case Priority =>
        var n := ReadInt(text.s);
        if n.None? then None else Some(Number(n.value))
      case DueDate =>
        var d := ReadDate(text.s);
        if d.None? then None else Some(Day(d.value))
      case _ =>
        var m := ReadMoment(text.s);
        if m.None? || m.value.offset.None? then None else Some(Instant(m.value))
  }

  function PositionMembers(order: Order, key: OrderKey, id: Uuid): seq<Member>
    requires ValidKey(key)
  {
    [Member("id", Str(UuidText(id))), Member("k", KeyText(key)), Member("o", Str(Token(order)))]
  }

  function EncodePosition(order: Order, key: OrderKey, id: Uuid): string
    requires ValidKey(key)
  {
    EncodePayload(PositionMembers(order, key, id))
  }

  function DecodePosition(cursor: string): Option<Position> {
    var payload := DecodePayload(cursor);
    if payload.None? then None
    else
      var o, id, k := StringField(payload.value, "o"), StringField(payload.value, "id"), Lookup(payload.value, "k");
      if o.None? || id.None? || k.None? || (!k.value.Null? && !k.value.Str?) then None
      else
        var order, uuid := ReadOrder(o.value), ReadUuid(id.value);
        if order.None? || uuid.None? then None
        else
          var key := ReadKey(order.value.field, k.value);
          if key.None? then None else Some(Position(order.value, key.value, uuid.value))
  }

  /** A key of the type its column compares as. */
  predicate Suits(key: OrderKey, field: Field) {
    match key
    case NoKey => true
    case Number(_) => field.Priority?
    case Day(_) => field.DueDate?
    case Instant(m) => (field.CreatedAt? || field.UpdatedAt?) && m.offset.Some?
  }

  lemma {:induction false} ColonFound(a: string, b: string)
    requires forall i :: 0 <= i < |a| ==> a[i] != ':'
    ensures ColonAt(a + (":" + b)) == |a|
  {
    if a != [] {
      assert (a + (":" + b))[1..] == a[1..] + (":" + b);
      ColonFound(a[1..], b);
    } else {
      assert a + (":" + b) == ":" + b;
    }
  }

  lemma TokenReads(order: Order)
    ensures ReadOrder(Token(order)) == Some(order)
  {
    var a, b := FieldText(order.field), DirectionText(order.direction);
    assert forall i :: 0 <= i < |a| ==> a[i] != ':';
    ColonFound(a, b);
    var s := Token(order);
    assert s[..|a|] == a && s[|a| + 1..] == b;
  }

  lemma NumberKeyIff(field: Field, n: int)
    ensures ReadKey(field, Str(Numeral(n))) == Some(Number(n)) <==> field.Priority?
  {
    IntReads(n);
  }

  lemma DayKeyIff(field: Field, d: Date)
    requires Representable(d)
    ensures ReadKey(field, Str(IsoDate(d))) == Some(Day(d)) <==> field.DueDate?
  {
    DateReads(d);
  }

  lemma InstantKeyIff(field: Field, m: Moment)
    requires ValidMoment(m)
    ensures ReadKey(field, Str(IsoMoment(m))) == Some(Instant(m)) <==> (field.CreatedAt? || field.UpdatedAt?) && m.offset.Some?
  {
    MomentReads(m);
  }

  /** A key survives its text exactly when it has its field's type. */
  lemma KeyReadsIff(field: Field, key: OrderKey)
    requires ValidKey(key)
    ensures ReadKey(field, KeyText(key)) == Some(key) <==> Suits(key, field)
  {
    match key
    case Number(n) => NumberKeyIff(field, n);
    case Day(d) => DayKeyIff(field, d);
    case Instant(m) => InstantKeyIff(field, m);
    case NoKey =>
  }

  /** A payload whose ordering and id are read leaves the key. */
  lemma PositionStep(cursor: string, ms: seq<Member>, order: Order, id: Uuid, o: string, i: string, k: Json)
    requires DecodePayload(cursor) == Some(ms) && (k.Null? || k.Str?)
    requires Lookup(ms, "o") == Some(Str(o)) && Lookup(ms, "id") == Some(Str(i)) && Lookup(ms, "k") == Some(k)
    requires ReadOrder(o) == Some(order) && ReadUuid(i) == Some(id)
    ensures var key := ReadKey(order.field, k);
            DecodePosition(cursor) == if key.None? then None else Some(Position(order, key.value, id))
  {}

  lemma PositionFields(ms: seq<Member>, id: Json, k: Json, o: Json)
    requires ms == [Member("id", id), Member("k", k), Member("o", o)]
    ensures Lookup(ms, "id") == Some(id) && Lookup(ms, "k") == Some(k) && Lookup(ms, "o") == Some(o)
  {
    TripleFinds(ms[0], ms[1], ms[2]);
  }

  /** A position comes back whole exactly when its key suits its ordering. */
  lemma PositionRoundTripIff(order: Order, key: OrderKey, id: Uuid)
    requires ValidKey(key)
    ensures DecodePosition(EncodePosition(order, key, id)) == Some(Position(order, key, id)) <==> Suits(key, order.field)
  {
    var ms := PositionMembers(order, key, id);
    PayloadReads(ms);
    PositionFields(ms, Str(UuidText(id)), KeyText(key), Str(Token(order)));
    TokenReads(order);
    UuidReads(id);
    PositionStep(EncodePosition(order, key, id), ms, order, id, Token(order), UuidText(id), KeyText(key));
    KeyReadsIff(order.field, key);
  }

  lemma PositionIsInjective(a: Position, b: Position)
    requires ValidKey(a.key) && Suits(a.key, a.order.field) && ValidKey(b.key) && Suits(b.key, b.order.field)
    requires EncodePosition(a.order, a.key, a.id) == EncodePosition(b.order, b.key, b.id)
    ensures a == b
  {
    PositionRoundTripIff(a.order, a.key, a.id);
    PositionRoundTripIff(b.order, b.key, b.id);
  }

  /** Whatever text a client sends, a decoded key has the type its ordering
      compares: no date reaches a number column. */
  lemma DecodedKeySuits(cursor: string)
    ensures DecodePosition(cursor).Some? ==> Suits(DecodePosition(cursor).value.key, DecodePosition(cursor).value.order.field)
  {}

  /** Each decoder needs its own keys. */
  lemma KeysetNeeds(cursor: string, ms: seq<Member>)
    requires DecodePayload(cursor) == Some(ms) && Lookup(ms, "created_at") == None
    ensures DecodeKeyset(cursor) == None
  {}

  lemma LabelNeeds(cursor: string, ms: seq<Member>)
    requires DecodePayload(cursor) == Some(ms) && Lookup(ms, "name") == None
    ensures DecodeLabel(cursor) == None
  {}

  lemma PositionNeeds(cursor: string, ms: seq<Member>)
    requires DecodePayload(cursor) == Some(ms) && Lookup(ms, "o") == None
    ensures DecodePosition(cursor) == None
  {}

  lemma PositionLacks(ms: seq<Member>, id: Json, k: Json, o: Json)
    requires ms == [Member("id", id), Member("k", k), Member("o", o)]
    ensures Lookup(ms, "created_at") == None && Lookup(ms, "name") == None
  {
    TripleFinds(ms[0], ms[1], ms[2]);
  }

  lemma PairLacks(ms: seq<Member>, key: string)
    requires |ms| == 2 && ms[0].key != ms[1].key && key != ms[0].key && key != ms[1].key
    ensures Lookup(ms, key) == None
  {
    assert ms == [ms[0], ms[1]];
    PairFinds(ms[0], ms[1]);
  }

  lemma KeysetIsNoOther(createdAt: Moment, id: Uuid)
    requires ValidMoment(createdAt) && createdAt.offset.Some?
    ensures DecodeLabel(EncodeKeyset(createdAt, id).value) == None && DecodePosition(EncodeKeyset(createdAt, id).value) == None
  {
    var p := KeysetMembers(createdAt, id);
    PayloadReads(p);
    PairLacks(p, "name");
    PairLacks(p, "o");
    LabelNeeds(EncodePayload(p), p);
    PositionNeeds(EncodePayload(p), p);
  }

  lemma LabelIsNoOther(name: string, id: Uuid)
    ensures DecodeKeyset(EncodeLabel(name, id)) == None && DecodePosition(EncodeLabel(name, id)) == None
  {
    var p := LabelMembers(name, id);
    PayloadReads(p);
    PairLacks(p, "created_at");
    PairLacks(p, "o");
    KeysetNeeds(EncodePayload(p), p);
    PositionNeeds(EncodePayload(p), p);
  }

  lemma PositionIsNoOther(order: Order, key: OrderKey, id: Uuid)
    requires ValidKey(key)
    ensures DecodeKeyset(EncodePosition(order, key, id)) == None && DecodeLabel(EncodePosition(order, key, id)) == None
  {
    var p := PositionMembers(order, key, id);
    PositionLacks(p, p[0].value, p[1].value, p[2].value);
    PayloadReads(p);
    KeysetNeeds(EncodePayload(p), p);
    LabelNeeds(EncodePayload(p), p);
  }

  /** A cursor minted for one kind of list is refused by the other two. */
  lemma CursorsDoNotMix(createdAt: Moment, name: string, order: Order, key: OrderKey, id: Uuid)
    requires ValidMoment(createdAt) && createdAt.offset.Some? && ValidKey(key)
    ensures DecodeLabel(EncodeKeyset(createdAt, id).value) == None && DecodePosition(EncodeKeyset(createdAt, id).value) == None
    ensures DecodeKeyset(EncodeLabel(name, id)) == None && DecodePosition(EncodeLabel(name, id)) == None
    ensures DecodeKeyset(EncodePosition(order, key, id)) == None && DecodeLabel(EncodePosition(order, key, id)) == None
  {
    KeysetIsNoOther(createdAt, id);
    LabelIsNoOther(name, id);
    PositionIsNoOther(order, key, id);
  }
}
