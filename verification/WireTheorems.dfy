/** The shape of what is written: JSON objects with their keys in order, and UUIDs
    in the form of section 3 of RFC 4122 (app/domain/documents.py:577-597;
    app/domain/pagination.py:92-101). */
module WireTheorems {
  import opened Wrappers
  import opened Text
  import opened Json
  import opened Documents
  import opened IsoTime
  import opened Cursors

  /** Keys in dictionary order, none twice. */
  ghost predicate KeysAscend(members: seq<Member>) {
    forall i, j :: 0 <= i < j < |members| ==> Precedes(members[i].key, members[j].key)
  }

  ghost predicate AllBefore(members: seq<Member>, key: string) {
    forall i :: 0 <= i < |members| ==> Precedes(members[i].key, key)
  }

  lemma PrecedesThrough(a: string, b: string, c: string)
    requires Precedes(a, b) && Precedes(b, c)
    ensures Precedes(a, c)
  {
    var j: nat :| PartsAt(a, b, j);
    var k: nat :| PartsAt(b, c, k);
    var n := if j < k then j else k;
    assert a[..n] == a[..j][..n] == b[..j][..n] == b[..n] == b[..k][..n] == c[..k][..n] == c[..n];
    if k < j { assert a[k] == a[..j][k] == b[..j][k] == b[k]; }
    if j < k { assert b[j] == b[..k][j] == c[..k][j] == c[j]; }
    assert PartsAt(a, c, n);
  }

  /** One optional member more, in front of one called `next`. */
  lemma OneMore(members: seq<Member>, key: string, value: Option<Json>, next: string)
    requires KeysAscend(members) && AllBefore(members, key) && Precedes(key, next)
    ensures KeysAscend(members + Optional(key, value)) && AllBefore(members + Optional(key, value), next)
  {
    forall i | 0 <= i < |members| ensures Precedes(members[i].key, next) { PrecedesThrough(members[i].key, key, next); }
  }

  lemma LastMember(members: seq<Member>, last: Member)
    requires KeysAscend(members) && AllBefore(members, last.key)
    ensures KeysAscend(members + [last])
  {}

  /** The names come in this order. */
  lemma NamesInOrder()
    ensures Precedes("attrs", "content") && Precedes("content", "marks") && Precedes("marks", "text") && Precedes("text", "type")
    ensures Precedes("attrs", "type") && Precedes("content", "type")
  {
    assert PartsAt("attrs", "content", 0) && PartsAt("content", "marks", 0) && PartsAt("marks", "text", 0);
    assert PartsAt("attrs", "type", 0) && PartsAt("content", "type", 0);
    assert "text"[..1] == "type"[..1];
    assert PartsAt("text", "type", 1);
  }

  lemma FieldsAscend(attrs: Option<Json>, content: Option<Json>, marks: Option<Json>, text: Option<Json>, kind: Json)
    ensures KeysAscend(Fields(attrs, content, marks, text, kind))
  {
    NamesInOrder();
    var a := Optional("attrs", attrs);
    var b := a + Optional("content", content);
    var c := b + Optional("marks", marks);
    assert [] + a == a;
    OneMore([], "attrs", attrs, "content");
    OneMore(a, "content", content, "marks");
    OneMore(b, "marks", marks, "text");
    OneMore(c, "text", text, "type");
    LastMember(c + Optional("text", text), Member("type", kind));
  }

  lemma NodeKeysAscend(node: Node)
    ensures KeysAscend(NodeJson(node).members)
  {
    FieldsAscend(AttributesJson(NodeAttribute(node.kind), node.attribute),
                 if node.content.Present? then Some(Arr(NodesJson(node.content.nodes))) else None,
                 if node.marks != [] then Some(Arr(MarksJson(node.marks))) else None,
                 if node.text.Some? then Some(Str(node.text.value)) else None,
                 Str(KindName(node.kind)));
  }

  /** Every object of a rendered document has its keys in order, which is what
      makes its text canonical. */
  lemma DocumentKeysAscend(content: Content, node: Node, mark: Mark)
    ensures KeysAscend(ContentJson(content).members) && KeysAscend(NodeJson(node).members) && KeysAscend(MarkJson(mark).members)
  {
    NamesInOrder();
    NodeKeysAscend(node);
    var attrs := AttributesJson(MarkAttribute(mark.kind), mark.attribute);
    assert [] + Optional("attrs", attrs) == Optional("attrs", attrs);
    OneMore([], "attrs", attrs, "type");
    LastMember(Optional("attrs", attrs), Member("type", Str(MarkName(mark.kind))));
  }

  /** So has every object inside a cursor. */
  lemma CursorKeysAscend(createdAt: Moment, name: string, order: Order, key: OrderKey, id: Uuid)
    requires ValidMoment(createdAt) && ValidKey(key)
    ensures KeysAscend(KeysetMembers(createdAt, id)) && KeysAscend(LabelMembers(name, id)) && KeysAscend(PositionMembers(order, key, id))
  {
    assert PartsAt("created_at", "id", 0) && PartsAt("id", "name", 0);
    assert PartsAt("id", "k", 0) && PartsAt("id", "o", 0) && PartsAt("k", "o", 0);
  }

  // ---------------------------------------------------------------------- UUIDs

  predicate IsLowerHex(c: char) { '0' <= c <= '9' || 'a' <= c <= 'f' }

  lemma {:induction false} HexIs(u: seq<int>)
    requires AreNibbles(u)
    ensures |Hex(u)| == |u| && forall i :: 0 <= i < |u| ==> IsLowerHex(Hex(u)[i])
  {
    if u != [] { HexIs(u[1..]); }
  }

  /** Thirty-six characters: lower-case hexadecimal digits, and hyphens in the
      four usual places. */
  lemma UuidTextIs(u: Uuid)
    ensures var s := UuidText(u);
            && |s| == 36
            && forall i :: 0 <= i < 36 ==> if i == 8 || i == 13 || i == 18 || i == 23 then s[i] == '-' else IsLowerHex(s[i])
  {
    HexIs(u[..8]);
    HexIs(u[8..12]);
    HexIs(u[12..16]);
    HexIs(u[16..20]);
    HexIs(u[20..]);
  }
}
