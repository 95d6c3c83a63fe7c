/** What the document parser accepts, and that what it stores it reads back. */
module DocumentTheorems {
  import opened Wrappers
  import opened Json
  import opened Documents

  // ------------------------------------------------------- the closed grammar

  ghost predicate AttributesConform(schemes: SchemeOf, raw: Option<Json>, allowed: Option<string>, required: bool) {
    && (raw.None? || raw.value.Null? || raw.value.Obj?)
    && (raw.Some? && raw.value.Obj? ==>
          forall m :: m in raw.value.members ==>
            && Some(m.key) == allowed
            && Lookup(raw.value.members, m.key).Some?
            && IsValueFor(schemes, m.key, Lookup(raw.value.members, m.key).value))
    && (required ==> raw.Some? && raw.value.Obj? && raw.value.members != [])
  }

  ghost predicate MarkConforms(schemes: SchemeOf, raw: Json) {
    && raw.Obj? && KeysWithin(raw.members, MARK_KEYS)
    && exists kind :: Lookup(raw.members, "type") == Some(Str(MarkName(kind)))
         && AttributesConform(schemes, Lookup(raw.members, "attrs"), MarkAttribute(kind), kind.Link?)
  }

  /** The kind a node names, if it names one. */
  function KindOf(raw: Json): (r: Option<Kind>)
    ensures r.Some? ==> raw.Obj? && Lookup(raw.members, "type") == Some(Str(KindName(r.value)))
  {
    if raw.Obj? && Lookup(raw.members, "type").Some? && Lookup(raw.members, "type").value.Str?
    then KindNamed(Lookup(raw.members, "type").value.s)
    else None
  }

  /** A node of the vocabulary, its own keys only. */
  ghost predicate ShellConforms(schemes: SchemeOf, raw: Json, kind: Kind) {
    && raw.Obj? && KeysWithin(raw.members, NODE_KEYS)
    && Lookup(raw.members, "type") == Some(Str(KindName(kind)))
    && AttributesConform(schemes, Lookup(raw.members, "attrs"), NodeAttribute(kind), kind.Heading?)
    && (var text := Lookup(raw.members, "text");
        if kind.TextRun? then text.Some? && text.value.Str? && IsText(text.value.s) else text.None?)
    && (var marks := Lookup(raw.members, "marks");
        marks.Some? ==> kind.TextRun? && marks.value.Arr? && forall m :: m in marks.value.items ==> MarkConforms(schemes, m))
  }

  ghost predicate NodeConforms(schemes: SchemeOf, raw: Json)
    decreases Weight(raw), 0
  {
    && KindOf(raw).Some? && ShellConforms(schemes, raw, KindOf(raw).value)
    && (Lookup(raw.members, "content").Some? ==> !IsLeaf(KindOf(raw).value) && Lookup(raw.members, "content").value.Arr?)
    && ListConforms(schemes, ItemsOf(raw))
  }

  ghost predicate ListConforms(schemes: SchemeOf, items: seq<Json>)
    decreases ItemsWeight(items), 1
  {
    items == [] || (NodeConforms(schemes, items[0]) && ListConforms(schemes, items[1..]))
  }

  /** Levels of nodes: 1 for a node without children. */
  function Depth(raw: Json): (n: nat)
    ensures 1 <= n
    decreases Weight(raw), 0
  {
    1 + ListDepth(ItemsOf(raw))
  }

  function ListDepth(items: seq<Json>): nat
    decreases ItemsWeight(items), 1
  {
    if items == [] then 0
    else if Depth(items[0]) <= ListDepth(items[1..]) then ListDepth(items[1..]) else Depth(items[0])
  }

  function Count(raw: Json): (n: nat)
    ensures 1 <= n
    decreases Weight(raw), 0
  {
    1 + ListCount(ItemsOf(raw))
  }

  function ListCount(items: seq<Json>): nat
    decreases ItemsWeight(items), 1
  {
    if items == [] then 0 else Count(items[0]) + ListCount(items[1..])
  }

  lemma AttributesAccepted(schemes: SchemeOf, raw: Option<Json>, allowed: Option<string>, required: bool, unknown: Reason)
    ensures ReadAttributes(schemes, raw, allowed, required, unknown).Ok? <==> AttributesConform(schemes, raw, allowed, required)
  {
    if raw.Some? && raw.value.Obj? && raw.value.members != [] {
      var ms := raw.value.members;
      LookupFinds(ms, ms[0].key);
    }
  }

  lemma MarkAccepted(schemes: SchemeOf, raw: Json)
    ensures ReadMark(schemes, raw).Ok? <==> MarkConforms(schemes, raw)
  {
    if raw.Obj? && KeysWithin(raw.members, MARK_KEYS) {
      var name := Lookup(raw.members, "type");
      if name.Some? && name.value.Str? && MarkNamed(name.value.s).Some? {
        var kind := MarkNamed(name.value.s).value;
        AttributesAccepted(schemes, Lookup(raw.members, "attrs"), MarkAttribute(kind), kind.Link?, UnknownMark);
      }
    }
  }

  lemma {:induction false} MarksAccepted(schemes: SchemeOf, items: seq<Json>)
    ensures ReadMarkList(schemes, items).Ok? <==> forall m :: m in items ==> MarkConforms(schemes, m)
  {
    if items != [] {
      MarkAccepted(schemes, items[0]);
      MarksAccepted(schemes, items[1..]);
      assert items == [items[0]] + items[1..];
    }
  }

  lemma ShellAccepted(schemes: SchemeOf, raw: Json, kind: Kind)
    requires raw.Obj? && Lookup(raw.members, "type") == Some(Str(KindName(kind)))
    ensures ReadShell(schemes, raw).Ok? <==> ShellConforms(schemes, raw, kind)
    ensures ReadShell(schemes, raw).Ok? ==> ReadShell(schemes, raw).value.kind == kind
  {
    NamesComeBack(kind, Bold);
    AttributesAccepted(schemes, Lookup(raw.members, "attrs"), NodeAttribute(kind), kind.Heading?, UnknownAttribute);
    var marks := Lookup(raw.members, "marks");
    if marks.Some? && marks.value.Arr? { MarksAccepted(schemes, marks.value.items); }
  }

  lemma ShellNeedsKind(schemes: SchemeOf, raw: Json)
    ensures KindOf(raw).None? ==> ReadShell(schemes, raw).Err?
  {}

  ghost predicate NodeVerdict(schemes: SchemeOf, raw: Json, depth: int, budget: int, r: Result<Node, Reason>, left: int) {
    && (r.Ok? <==> NodeConforms(schemes, raw) && depth - 1 + Depth(raw) <= MAX_CONTENT_DEPTH && Count(raw) <= budget)
    && (r.Ok? ==> left == budget - Count(raw))
  }

  ghost predicate ListVerdict(schemes: SchemeOf, items: seq<Json>, depth: int, budget: int, r: Result<seq<Node>, Reason>, left: int) {
    && (r.Ok? <==> ListConforms(schemes, items) && (items == [] || depth - 1 + ListDepth(items) <= MAX_CONTENT_DEPTH)
                   && ListCount(items) <= budget)
    && (r.Ok? ==> left == budget - ListCount(items))
  }

  lemma NodeAcceptedStep(schemes: SchemeOf, raw: Json, depth: int, budget: int, kind: Kind, conforms: bool,
                         children: Result<seq<Node>, Reason>, left: int, r: Result<Node, Reason>, rest: int)
    requires KindOf(raw) == Some(kind) && (conforms <==> ShellConforms(schemes, raw, kind))
    requires ListVerdict(schemes, ItemsOf(raw), depth + 1, budget - 1, children, left)
    requires depth <= MAX_CONTENT_DEPTH && 1 <= budget
    requires var content := Lookup(raw.members, "content");
             if !conforms then r.Err?
             else if content.None? then r.Ok? && rest == budget - 1
             else if IsLeaf(kind) || !content.value.Arr? then r.Err?
             else (r.Ok? <==> children.Ok?) && rest == left
    ensures NodeVerdict(schemes, raw, depth, budget, r, rest)
  {
    var items, content := ItemsOf(raw), Lookup(raw.members, "content");
    NodeSums(raw, items);
    EmptyOrDeep(schemes, items);
    assert NodeConforms(schemes, raw) <==>
           conforms && (content.Some? ==> !IsLeaf(kind) && content.value.Arr?) && ListConforms(schemes, items);
    if content.None? { assert items == []; }
  }

  lemma NodeSums(raw: Json, items: seq<Json>)
    requires items == ItemsOf(raw)
    ensures Depth(raw) == 1 + ListDepth(items) && Count(raw) == 1 + ListCount(items)
  {}

  lemma EmptyOrDeep(schemes: SchemeOf, items: seq<Json>)
    ensures if items == [] then ListConforms(schemes, items) && ListDepth(items) == 0 && ListCount(items) == 0
            else 1 <= ListDepth(items)
  {}

  lemma RefusedVerdict(schemes: SchemeOf, raw: Json, depth: int, budget: int, r: Result<Node, Reason>, left: int)
    requires depth > MAX_CONTENT_DEPTH || budget < 1 || KindOf(raw).None?
    requires r.Err?
    ensures NodeVerdict(schemes, raw, depth, budget, r, left)
  {}

  /** One node is read exactly when it obeys the grammar, fits below the depth
      limit and its nodes fit the budget; the budget then pays one per node. */
  lemma {:induction false} NodeAccepted(schemes: SchemeOf, raw: Json, depth: int, budget: int)
    requires 0 <= budget
    ensures var (r, left) := ReadNode(schemes, raw, depth, budget);
            NodeVerdict(schemes, raw, depth, budget, r, left)
    decreases Weight(raw), 0
  {
    if depth > MAX_CONTENT_DEPTH || budget < 1 || KindOf(raw).None? {
      ShellNeedsKind(schemes, raw);
      NodeRefused(schemes, raw, depth, budget);
      var (r, left) := ReadNode(schemes, raw, depth, budget);
      RefusedVerdict(schemes, raw, depth, budget, r, left);
    } else {
      var kind := KindOf(raw).value;
      ShellAccepted(schemes, raw, kind);
      var (children, left) := ReadNodeList(schemes, ItemsOf(raw), depth + 1, budget - 1);
      var (r, rest) := ReadNode(schemes, raw, depth, budget);
      if ReadShell(schemes, raw).Ok? {
        NodeStep(schemes, raw, depth, budget, ReadShell(schemes, raw).value);
      } else {
        NodeRefused(schemes, raw, depth, budget);
      }
      ListAccepted(schemes, ItemsOf(raw), depth + 1, budget - 1);
      NodeAcceptedStep(schemes, raw, depth, budget, kind, ShellConforms(schemes, raw, kind), children, left, r, rest);
    }
  }

  lemma {:induction false} ListAccepted(schemes: SchemeOf, items: seq<Json>, depth: int, budget: int)
    requires 0 <= budget
    ensures var (r, left) := ReadNodeList(schemes, items, depth, budget);
            ListVerdict(schemes, items, depth, budget, r, left)
    decreases ItemsWeight(items), 1
  {
    if items != [] {
      NodeAccepted(schemes, items[0], depth, budget);
      var (first, left) := ReadNode(schemes, items[0], depth, budget);
      if first.Ok? { ListAccepted(schemes, items[1..], depth, left); }
    }
  }

  // ------------------------------------------------ equal dicts parse the same

  predicate Foreign(members: seq<Member>, allowed: Option<string>) {
    exists m | m in members :: allowed.None? || m.key != allowed.value
  }

  lemma SameForeign(p: seq<Member>, q: seq<Member>, allowed: Option<string>)
    requires SameValue(Obj(p), Obj(q)) && Foreign(p, allowed)
    ensures Foreign(q, allowed)
  {
    var m :| m in p && (allowed.None? || m.key != allowed.value);
    LookupFinds(q, m.key);
  }

  lemma SameEmptiness(p: seq<Member>, q: seq<Member>)
    requires SameValue(Obj(p), Obj(q))
    ensures p == [] <==> q == []
  {
    if p != [] { assert p[0] in p; LookupFinds(q, p[0].key); }
    if q != [] { assert q[0] in q; LookupFinds(p, q[0].key); }
  }

  lemma SameScalar(schemes: SchemeOf, key: string, a: Json, b: Json)
    requires SameValue(a, b)
    ensures IsValueFor(schemes, key, a) ==> a == b
  {}

  predicate Suitable(schemes: SchemeOf, key: string, value: Option<Json>) {
    value.Some? && IsValueFor(schemes, key, value.value)
  }

  /** The reading of `attrs`, once its keys are known to be allowed. */
  lemma AttributesStep(schemes: SchemeOf, raw: Option<Json>, allowed: Option<string>, required: bool, unknown: Reason)
    requires raw.Some? && raw.value.Obj?
    ensures var members := raw.value.members;
            ReadAttributes(schemes, raw, allowed, required, unknown)
            == if members == [] then (if required then Err(MissingAttribute) else Ok(None))
               else if allowed.None? || Foreign(members, allowed) then Err(unknown)
               else if !Suitable(schemes, allowed.value, Lookup(members, allowed.value))
               then Err(if allowed == Some("href") then BadLink else BadAttribute)
               else Ok(Lookup(members, allowed.value))
  {
    var members := raw.value.members;
    if members != [] && !Foreign(members, allowed) { assert members[0] in members; }
  }

  lemma SameMembers(schemes: SchemeOf, p: seq<Member>, q: seq<Member>, allowed: Option<string>)
    requires SameValue(Obj(p), Obj(q))
    ensures p == [] <==> q == []
    ensures Foreign(p, allowed) <==> Foreign(q, allowed)
    ensures allowed.Some? ==> var a, b := Lookup(p, allowed.value), Lookup(q, allowed.value);
                              Suitable(schemes, allowed.value, a) == Suitable(schemes, allowed.value, b)
                              && (Suitable(schemes, allowed.value, a) ==> a == b)
  {
    SameValueSymmetric(Obj(p), Obj(q));
    SameEmptiness(p, q);
    if Foreign(p, allowed) { SameForeign(p, q, allowed); }
    if Foreign(q, allowed) { SameForeign(q, p, allowed); }
    if allowed.Some? {
      SameLookup(p, q, allowed.value);
      SameLookup(q, p, allowed.value);
      if Lookup(p, allowed.value).Some? {
        SameScalar(schemes, allowed.value, Lookup(p, allowed.value).value, Lookup(q, allowed.value).value);
        SameScalar(schemes, allowed.value, Lookup(q, allowed.value).value, Lookup(p, allowed.value).value);
      }
    }
  }

  lemma SameAttributes(schemes: SchemeOf, a: Option<Json>, b: Option<Json>, allowed: Option<string>, required: bool, unknown: Reason)
    requires a.Some? == b.Some? && (a.Some? ==> SameValue(a.value, b.value))
    ensures ReadAttributes(schemes, a, allowed, required, unknown) == ReadAttributes(schemes, b, allowed, required, unknown)
  {
    if a.Some? && a.value.Obj? {
      SameMembers(schemes, a.value.members, b.value.members, allowed);
      AttributesStep(schemes, a, allowed, required, unknown);
      AttributesStep(schemes, b, allowed, required, unknown);
    }
  }

  lemma SameKeys(a: seq<Member>, b: seq<Member>, allowed: seq<string>)
    requires SameValue(Obj(a), Obj(b)) && KeysWithin(a, allowed)
    ensures KeysWithin(b, allowed)
  {
    forall m | m in b ensures m.key in allowed { LookupFinds(a, m.key); }
  }

  lemma {:induction false} SameValueSymmetric(a: Json, b: Json)
    requires SameValue(a, b)
    ensures SameValue(b, a)
    decreases Weight(a), 0
  {
    match a
    case Arr(items) => SameItemsSymmetric(items, b.items);
    case Obj(members) =>
      forall m | m in b.members && Lookup(b.members, m.key).Some? && Lookup(members, m.key).Some?
        ensures SameValue(Lookup(b.members, m.key).value, Lookup(members, m.key).value)
      {
        SameLookup(members, b.members, m.key);
        SameValueSymmetric(Lookup(members, m.key).value, Lookup(b.members, m.key).value);
      }
    case _ =>
  }

  lemma {:induction false} SameItemsSymmetric(a: seq<Json>, b: seq<Json>)
    requires SameItems(a, b)
    ensures SameItems(b, a)
    decreases ItemsWeight(a), 1
  {
    if a != [] {
      SameValueSymmetric(a[0], b[0]);
      SameItemsSymmetric(a[1..], b[1..]);
    }
  }

  lemma SameMark(schemes: SchemeOf, a: Json, b: Json)
    requires SameValue(a, b)
    ensures ReadMark(schemes, a) == ReadMark(schemes, b)
  {
    if a.Obj? {
      SameValueSymmetric(a, b);
      if KeysWithin(a.members, MARK_KEYS) { SameKeys(a.members, b.members, MARK_KEYS); }
      if KeysWithin(b.members, MARK_KEYS) { SameKeys(b.members, a.members, MARK_KEYS); }
      SameLookup(a.members, b.members, "type");
      SameLookup(a.members, b.members, "attrs");
      var name := Lookup(a.members, "type");
      if name.Some? && name.value.Str? && MarkNamed(name.value.s).Some? {
        var kind := MarkNamed(name.value.s).value;
        SameAttributes(schemes, Lookup(a.members, "attrs"), Lookup(b.members, "attrs"), MarkAttribute(kind), kind.Link?, UnknownMark);
      }
    }
  }

  lemma {:induction false} SameMarks(schemes: SchemeOf, a: seq<Json>, b: seq<Json>)
    requires SameItems(a, b)
    ensures ReadMarkList(schemes, a) == ReadMarkList(schemes, b)
  {
    if a != [] {
      SameMark(schemes, a[0], b[0]);
      SameMarks(schemes, a[1..], b[1..]);
    }
  }

  lemma SameShell(schemes: SchemeOf, a: Json, b: Json)
    requires SameValue(a, b)
    ensures ReadShell(schemes, a) == ReadShell(schemes, b)
  {
    if a.Obj? {
      SameValueSymmetric(a, b);
      if KeysWithin(a.members, NODE_KEYS) { SameKeys(a.members, b.members, NODE_KEYS); }
      if KeysWithin(b.members, NODE_KEYS) { SameKeys(b.members, a.members, NODE_KEYS); }
      SameLookup(a.members, b.members, "type");
      SameLookup(a.members, b.members, "attrs");
      SameLookup(a.members, b.members, "text");
      SameLookup(a.members, b.members, "marks");
      var name := Lookup(a.members, "type");
      if name.Some? && name.value.Str? && KindNamed(name.value.s).Some? {
        var kind := KindNamed(name.value.s).value;
        SameAttributes(schemes, Lookup(a.members, "attrs"), Lookup(b.members, "attrs"), NodeAttribute(kind), kind.Heading?, UnknownAttribute);
      }
      var marks := Lookup(a.members, "marks");
      if marks.Some? && marks.value.Arr? { SameMarks(schemes, marks.value.items, Lookup(b.members, "marks").value.items); }
    }
  }

  lemma {:induction false} SameNode(schemes: SchemeOf, a: Json, b: Json, depth: int, budget: int)
    requires SameValue(a, b)
    ensures ReadNode(schemes, a, depth, budget) == ReadNode(schemes, b, depth, budget)
    decreases Weight(a), 0
  {
    SameShell(schemes, a, b);
    if a.Obj? {
      SameChildren(a, b);
      SameNodes(schemes, ItemsOf(a), ItemsOf(b), depth + 1, budget - 1);
    }
    SameOutcome(schemes, a, b, depth, budget);
  }

  lemma SameOutcome(schemes: SchemeOf, a: Json, b: Json, depth: int, budget: int)
    requires ReadShell(schemes, a) == ReadShell(schemes, b) && a.Obj? == b.Obj?
    requires a.Obj? ==> var p, q := Lookup(a.members, "content"), Lookup(b.members, "content");
                        p.Some? == q.Some? && (p.Some? ==> p.value.Arr? == q.value.Arr?)
    requires a.Obj? ==> ReadNodeList(schemes, ItemsOf(a), depth + 1, budget - 1) == ReadNodeList(schemes, ItemsOf(b), depth + 1, budget - 1)
    ensures ReadNode(schemes, a, depth, budget) == ReadNode(schemes, b, depth, budget)
  {
    if depth > MAX_CONTENT_DEPTH || budget < 1 || ReadShell(schemes, a).Err? {
      NodeRefused(schemes, a, depth, budget);
      NodeRefused(schemes, b, depth, budget);
    } else {
      NodeStep(schemes, a, depth, budget, ReadShell(schemes, a).value);
      NodeStep(schemes, b, depth, budget, ReadShell(schemes, a).value);
    }
  }

  lemma SameChildren(a: Json, b: Json)
    requires SameValue(a, b) && a.Obj?
    ensures var p, q := Lookup(a.members, "content"), Lookup(b.members, "content");
            p.Some? == q.Some? && (p.Some? ==> p.value.Arr? == q.value.Arr?)
    ensures SameItems(ItemsOf(a), ItemsOf(b))
  {
    SameLookup(a.members, b.members, "content");
  }

  lemma {:induction false} SameNodes(schemes: SchemeOf, a: seq<Json>, b: seq<Json>, depth: int, budget: int)
    requires SameItems(a, b)
    ensures ReadNodeList(schemes, a, depth, budget) == ReadNodeList(schemes, b, depth, budget)
    decreases ItemsWeight(a), 1
  {
    if a != [] {
      SameNode(schemes, a[0], b[0], depth, budget);
      SameNodes(schemes, a[1..], b[1..], depth, ReadNode(schemes, a[0], depth, budget).1);
    }
  }

  /** Parsing sees a Python value, not a text: key order never matters. */
  lemma SameContent(schemes: SchemeOf, a: Json, b: Json)
    requires SameValue(a, b)
    ensures ParseContent(schemes, a) == ParseContent(schemes, b)
  {
    if a.Obj? {
      SameValueSymmetric(a, b);
      var keys := ["type", "content"];
      if KeysWithin(a.members, keys) { SameKeys(a.members, b.members, keys); }
      if KeysWithin(b.members, keys) { SameKeys(b.members, a.members, keys); }
      SameLookup(a.members, b.members, "type");
      SameLookup(a.members, b.members, "content");
      var content := Lookup(a.members, "content");
      if content.Some? && content.value.Arr? {
        SameNodes(schemes, content.value.items, Lookup(b.members, "content").value.items, 1, MAX_CONTENT_NODES);
      }
    }
  }

  // -------------------------------------------------- what is written is read

  lemma AttributeReread(schemes: SchemeOf, raw: Option<Json>, allowed: Option<string>, required: bool, unknown: Reason)
    requires ReadAttributes(schemes, raw, allowed, required, unknown).Ok?
    ensures var attribute := ReadAttributes(schemes, raw, allowed, required, unknown).value;
            && (attribute.Some? ==> allowed.Some? && IsValueFor(schemes, allowed.value, attribute.value))
            && ReadAttributes(schemes, AttributesJson(allowed, attribute), allowed, required, unknown) == Ok(attribute)
  {
    var attribute := ReadAttributes(schemes, raw, allowed, required, unknown).value;
    if attribute.Some? {
      var inner := [Member(allowed.value, attribute.value)];
      assert Lookup(inner, allowed.value) == Some(attribute.value);
    }
  }

  /** Lookups in a list built from optional parts. */
  lemma LastWins(before: seq<Member>, last: Member, key: string)
    ensures Lookup(before + [last], key) == if key == last.key then Some(last.value) else Lookup(before, key)
  {
    assert (before + [last])[..|before|] == before;
  }

  lemma MarkReread(schemes: SchemeOf, raw: Json)
    requires ReadMark(schemes, raw).Ok?
    ensures ReadMark(schemes, MarkJson(ReadMark(schemes, raw).value)) == ReadMark(schemes, raw)
  {
    var mark := ReadMark(schemes, raw).value;
    NamesComeBack(Paragraph, mark.kind);
    AttributeReread(schemes, Lookup(raw.members, "attrs"), MarkAttribute(mark.kind), mark.kind.Link?, UnknownMark);
    var attrs, last := AttributesJson(MarkAttribute(mark.kind), mark.attribute), Member("type", Str(MarkName(mark.kind)));
    LastWins(Optional("attrs", attrs), last, "type");
    LastWins(Optional("attrs", attrs), last, "attrs");
    OptionalFinds([], "attrs", attrs, "attrs");
    assert [] + Optional("attrs", attrs) == Optional("attrs", attrs);
  }

  lemma {:induction false} MarksReread(schemes: SchemeOf, items: seq<Json>)
    requires ReadMarkList(schemes, items).Ok?
    ensures ReadMarkList(schemes, MarksJson(ReadMarkList(schemes, items).value)) == ReadMarkList(schemes, items)
  {
    if items != [] {
      MarkReread(schemes, items[0]);
      MarksReread(schemes, items[1..]);
      var marks := ReadMarkList(schemes, items).value;
      assert marks[1..] == ReadMarkList(schemes, items[1..]).value;
      assert MarksJson(marks)[1..] == MarksJson(marks[1..]);
    }
  }

  lemma OptionalFinds(before: seq<Member>, name: string, value: Option<Json>, key: string)
    ensures Lookup(before + Optional(name, value), key) == if key == name && value.Some? then value else Lookup(before, key)
  {
    if value.Some? { LastWins(before, Member(name, value.value), key); } else { assert before + [] == before; }
  }

  lemma FieldsFind(attrs: Option<Json>, content: Option<Json>, marks: Option<Json>, text: Option<Json>, kind: Json)
    ensures var members := Fields(attrs, content, marks, text, kind);
            && KeysWithin(members, NODE_KEYS)
            && Lookup(members, "attrs") == attrs && Lookup(members, "content") == content && Lookup(members, "marks") == marks
            && Lookup(members, "text") == text && Lookup(members, "type") == Some(kind)
  {
    FieldFinds(attrs, content, marks, text, kind, "attrs");
    FieldFinds(attrs, content, marks, text, kind, "content");
    FieldFinds(attrs, content, marks, text, kind, "marks");
    FieldFinds(attrs, content, marks, text, kind, "text");
    FieldFinds(attrs, content, marks, text, kind, "type");
  }

  lemma FieldFinds(attrs: Option<Json>, content: Option<Json>, marks: Option<Json>, text: Option<Json>, kind: Json, key: string)
    ensures Lookup(Fields(attrs, content, marks, text, kind), key)
            == if key == "type" then Some(kind) else if key == "text" then text else if key == "marks" then marks
               else if key == "content" then content else if key == "attrs" then attrs else None
  {
    var a := Optional("attrs", attrs);
    var b := a + Optional("content", content);
    var c := b + Optional("marks", marks);
    var d := c + Optional("text", text);
    LastWins(d, Member("type", kind), key);
    OptionalFinds(c, "text", text, key);
    OptionalFinds(b, "marks", marks, key);
    OptionalFinds(a, "content", content, key);
    OptionalFinds([], "attrs", attrs, key);
    assert [] + a == a;
  }

  /** Each key of a rendered node finds what was put under it. */
  lemma NodeKeys(node: Node)
    ensures var members := NodeJson(node).members;
            && KeysWithin(members, NODE_KEYS)
            && Lookup(members, "type") == Some(Str(KindName(node.kind)))
            && Lookup(members, "attrs") == AttributesJson(NodeAttribute(node.kind), node.attribute)
            && Lookup(members, "text") == (if node.text.Some? then Some(Str(node.text.value)) else None)
            && Lookup(members, "marks") == (if node.marks != [] then Some(Arr(MarksJson(node.marks))) else None)
            && Lookup(members, "content") == (if node.content.Present? then Some(Arr(NodesJson(node.content.nodes))) else None)
  {
    FieldsFind(AttributesJson(NodeAttribute(node.kind), node.attribute),
               if node.content.Present? then Some(Arr(NodesJson(node.content.nodes))) else None,
               if node.marks != [] then Some(Arr(MarksJson(node.marks))) else None,
               if node.text.Some? then Some(Str(node.text.value)) else None,
               Str(KindName(node.kind)));
  }

  /** ReadShell on an object whose five lookups are known. */
  lemma ShellStep(schemes: SchemeOf, raw: Json, kind: Kind, text: Option<Json>, marks: Option<Json>, attribute: Option<Json>, parsed: seq<Mark>)
    requires raw.Obj? && KeysWithin(raw.members, NODE_KEYS)
    requires Lookup(raw.members, "type") == Some(Str(KindName(kind)))
    requires Lookup(raw.members, "text") == text && Lookup(raw.members, "marks") == marks
    requires ReadAttributes(schemes, Lookup(raw.members, "attrs"), NodeAttribute(kind), kind.Heading?, UnknownAttribute) == Ok(attribute)
    requires if kind.TextRun? then text.Some? && text.value.Str? && IsText(text.value.s) else text.None?
    requires if marks.None? then parsed == [] else kind.TextRun? && ReadMarks(schemes, marks.value) == Ok(parsed)
    ensures ReadShell(schemes, raw) == Ok(Node(kind, attribute, if kind.TextRun? then Some(text.value.s) else None, parsed, Absent))
  {
    NamesComeBack(kind, Bold);
  }

  lemma ShellParts(schemes: SchemeOf, raw: Json)
    requires ReadShell(schemes, raw).Ok?
    ensures raw.Obj?
    ensures var node := ReadShell(schemes, raw).value;
            && ReadAttributes(schemes, Lookup(raw.members, "attrs"), NodeAttribute(node.kind), node.kind.Heading?, UnknownAttribute) == Ok(node.attribute)
            && (node.text.Some? <==> node.kind.TextRun?) && (node.text.Some? ==> IsText(node.text.value))
            && (node.marks != [] ==> node.kind.TextRun?)
            && node.content.Absent?
            && (node.marks != [] ==> Lookup(raw.members, "marks").Some? && Lookup(raw.members, "marks").value.Arr?
                                     && ReadMarkList(schemes, Lookup(raw.members, "marks").value.items) == Ok(node.marks))
  {}

  lemma ShellReread(schemes: SchemeOf, raw: Json, content: Children)
    requires ReadShell(schemes, raw).Ok?
    ensures ReadShell(schemes, NodeJson(ReadShell(schemes, raw).value.(content := content))) == ReadShell(schemes, raw)
  {
    var shell := ReadShell(schemes, raw).value;
    ShellParts(schemes, raw);
    ShellRewrite(schemes, Lookup(raw.members, "attrs"), Lookup(raw.members, "marks"), shell, content);
  }

  /** The three optional keys a rendered shell reads back from. */
  lemma PartsReread(schemes: SchemeOf, attrs: Option<Json>, marks: Option<Json>, shell: Node)
    requires ReadAttributes(schemes, attrs, NodeAttribute(shell.kind), shell.kind.Heading?, UnknownAttribute) == Ok(shell.attribute)
    requires shell.marks != [] ==> marks.Some? && marks.value.Arr? && ReadMarkList(schemes, marks.value.items) == Ok(shell.marks)
    ensures ReadAttributes(schemes, AttributesJson(NodeAttribute(shell.kind), shell.attribute), NodeAttribute(shell.kind), shell.kind.Heading?, UnknownAttribute)
            == Ok(shell.attribute)
    ensures shell.marks != [] ==> ReadMarks(schemes, Arr(MarksJson(shell.marks))) == Ok(shell.marks)
  {
    AttributeReread(schemes, attrs, NodeAttribute(shell.kind), shell.kind.Heading?, UnknownAttribute);
    if shell.marks != [] { MarksReread(schemes, marks.value.items); }
  }

  lemma KeysReread(schemes: SchemeOf, j: Json, shell: Node, text: Option<Json>, marks: Option<Json>)
    requires j.Obj? && KeysWithin(j.members, NODE_KEYS) && shell.content.Absent?
    requires Lookup(j.members, "type") == Some(Str(KindName(shell.kind)))
    requires Lookup(j.members, "attrs") == AttributesJson(NodeAttribute(shell.kind), shell.attribute)
    requires Lookup(j.members, "text") == text && text == (if shell.text.Some? then Some(Str(shell.text.value)) else None)
    requires Lookup(j.members, "marks") == marks && marks == (if shell.marks != [] then Some(Arr(MarksJson(shell.marks))) else None)
    requires ReadAttributes(schemes, AttributesJson(NodeAttribute(shell.kind), shell.attribute), NodeAttribute(shell.kind), shell.kind.Heading?, UnknownAttribute)
             == Ok(shell.attribute)
    requires (shell.text.Some? <==> shell.kind.TextRun?) && (shell.text.Some? ==> IsText(shell.text.value))
    requires shell.marks != [] ==> shell.kind.TextRun? && ReadMarks(schemes, Arr(MarksJson(shell.marks))) == Ok(shell.marks)
    ensures ReadShell(schemes, j) == Ok(shell)
  {
    ShellStep(schemes, j, shell.kind, text, marks, shell.attribute, shell.marks);
  }

  lemma ShellRewrite(schemes: SchemeOf, attrs: Option<Json>, marks: Option<Json>, shell: Node, content: Children)
    requires shell.content.Absent?
    requires ReadAttributes(schemes, attrs, NodeAttribute(shell.kind), shell.kind.Heading?, UnknownAttribute) == Ok(shell.attribute)
    requires (shell.text.Some? <==> shell.kind.TextRun?) && (shell.text.Some? ==> IsText(shell.text.value))
    requires shell.marks != [] ==> shell.kind.TextRun? && marks.Some? && marks.value.Arr? && ReadMarkList(schemes, marks.value.items) == Ok(shell.marks)
    ensures ReadShell(schemes, NodeJson(shell.(content := content))) == Ok(shell)
  {
    var node := shell.(content := content);
    NodeKeys(node);
    PartsReread(schemes, attrs, marks, shell);
    KeysReread(schemes, NodeJson(node), shell,
               if node.text.Some? then Some(Str(node.text.value)) else None,
               if node.marks != [] then Some(Arr(MarksJson(node.marks))) else None);
  }

  /** What a node that was read says of its raw form. */
  lemma NodeParts(schemes: SchemeOf, raw: Json, depth: int, budget: int)
    requires ReadNode(schemes, raw, depth, budget).0.Ok?
    ensures ReadShell(schemes, raw).Ok? && raw.Obj?
    ensures var node := ReadNode(schemes, raw, depth, budget).0.value;
            var content := Lookup(raw.members, "content");
            && ReadShell(schemes, raw).value.(content := node.content) == node
            && content.Some? == node.content.Present?
            && (content.Some? ==> content.value.Arr?)
            && (content.Some? ==> ReadNodeList(schemes, ItemsOf(raw), depth + 1, budget - 1).0 == Ok(node.content.nodes))
  {
    if ReadShell(schemes, raw).Err? || depth > MAX_CONTENT_DEPTH || budget < 1 {
      NodeRefused(schemes, raw, depth, budget);
    } else {
      NodeStep(schemes, raw, depth, budget, ReadShell(schemes, raw).value);
    }
  }

  lemma {:induction false} NodeReread(schemes: SchemeOf, raw: Json, depth: int, budget: int)
    requires ReadNode(schemes, raw, depth, budget).0.Ok?
    ensures ReadNode(schemes, NodeJson(ReadNode(schemes, raw, depth, budget).0.value), depth, budget)
            == ReadNode(schemes, raw, depth, budget)
    decreases Weight(raw), 0
  {
    var node := ReadNode(schemes, raw, depth, budget).0.value;
    NodeParts(schemes, raw, depth, budget);
    ShellReread(schemes, raw, node.content);
    NodeItems(node);
    if node.content.Present? { NodesReread(schemes, ItemsOf(raw), depth + 1, budget - 1); }
    SameOutcome(schemes, NodeJson(node), raw, depth, budget);
  }

  lemma NodeItems(node: Node)
    ensures Lookup(NodeJson(node).members, "content") == (if node.content.Present? then Some(Arr(NodesJson(node.content.nodes))) else None)
    ensures ItemsOf(NodeJson(node)) == if node.content.Present? then NodesJson(node.content.nodes) else []
  {
    NodeKeys(node);
  }

  lemma {:induction false} NodesReread(schemes: SchemeOf, items: seq<Json>, depth: int, budget: int)
    requires ReadNodeList(schemes, items, depth, budget).0.Ok?
    ensures ReadNodeList(schemes, NodesJson(ReadNodeList(schemes, items, depth, budget).0.value), depth, budget)
            == ReadNodeList(schemes, items, depth, budget)
    decreases ItemsWeight(items), 1
  {
    if items != [] {
      var (first, left) := ReadNode(schemes, items[0], depth, budget);
      NodeReread(schemes, items[0], depth, budget);
      NodesReread(schemes, items[1..], depth, left);
      var nodes := ReadNodeList(schemes, items, depth, budget).0.value;
      assert nodes[1..] == ReadNodeList(schemes, items[1..], depth, left).0.value;
      assert NodesJson(nodes)[1..] == NodesJson(nodes[1..]);
    }
  }

  // ------------------------------------------------------ the canonical tree

  /** The one attribute an `attrs` object holds, in its last value; none when it
      is null or empty. */
  function CanonicalAttributes(raw: Option<Json>): Option<Json> {
    if raw.None? || !raw.value.Obj? || raw.value.members == [] then None
    else
      var key := raw.value.members[0].key;
      AttributesJson(Some(key), Lookup(raw.value.members, key))
  }

  function TypeOf(raw: Json): Json {
    if raw.Obj? && Lookup(raw.members, "type").Some? then Lookup(raw.members, "type").value else Null
  }

  function CanonicalMark(raw: Json): Json {
    if raw.Obj? then Obj(Optional("attrs", CanonicalAttributes(Lookup(raw.members, "attrs"))) + [Member("type", TypeOf(raw))]) else Null
  }

  function CanonicalMarks(items: seq<Json>): seq<Json> {
    if items == [] then [] else [CanonicalMark(items[0])] + CanonicalMarks(items[1..])
  }

  /** The last value of each key in sorted order, empty `attrs` and `marks` left
      out: a node with nothing of its own to say about the vocabulary. */
  function Canonical(raw: Json): Json
    decreases Weight(raw), 0
  {
    if !raw.Obj? then Null
    else
      var content, marks := Lookup(raw.members, "content"), Lookup(raw.members, "marks");
      Obj(Fields(CanonicalAttributes(Lookup(raw.members, "attrs")),
                 if content.Some? then Some(Arr(CanonicalItems(ItemsOf(raw)))) else None,
                 if marks.Some? && marks.value.Arr? && marks.value.items != [] then Some(Arr(CanonicalMarks(marks.value.items))) else None,
                 Lookup(raw.members, "text"),
                 TypeOf(raw)))
  }

  function CanonicalItems(items: seq<Json>): seq<Json>
    decreases ItemsWeight(items), 1
  {
    if items == [] then [] else [Canonical(items[0])] + CanonicalItems(items[1..])
  }

  /** A payload as the document it stands for. */
  function CanonicalDocument(payload: Json): Json {
    Obj([Member("content", Arr(CanonicalItems(ItemsOf(payload)))), Member("type", Str("doc"))])
  }

  lemma AttributesAreCanonical(schemes: SchemeOf, raw: Option<Json>, allowed: Option<string>, required: bool, unknown: Reason)
    requires ReadAttributes(schemes, raw, allowed, required, unknown).Ok?
    ensures AttributesJson(allowed, ReadAttributes(schemes, raw, allowed, required, unknown).value) == CanonicalAttributes(raw)
  {
    if raw.Some? && raw.value.Obj? && raw.value.members != [] {
      var ms := raw.value.members;
      AttributesStep(schemes, raw, allowed, required, unknown);
      if allowed.Some? && !Foreign(ms, allowed) { assert ms[0] in ms; }
    }
  }

  lemma MarkIsCanonical(schemes: SchemeOf, raw: Json)
    requires ReadMark(schemes, raw).Ok?
    ensures MarkJson(ReadMark(schemes, raw).value) == CanonicalMark(raw)
  {
    var mark := ReadMark(schemes, raw).value;
    AttributesAreCanonical(schemes, Lookup(raw.members, "attrs"), MarkAttribute(mark.kind), mark.kind.Link?, UnknownMark);
  }

  lemma {:induction false} MarksAreCanonical(schemes: SchemeOf, items: seq<Json>)
    requires ReadMarkList(schemes, items).Ok?
    ensures MarksJson(ReadMarkList(schemes, items).value) == CanonicalMarks(items)
    ensures ReadMarkList(schemes, items).value == [] <==> items == []
  {
    if items != [] {
      MarkIsCanonical(schemes, items[0]);
      MarksAreCanonical(schemes, items[1..]);
      var marks := ReadMarkList(schemes, items).value;
      assert marks[1..] == ReadMarkList(schemes, items[1..]).value;
    }
  }

  /** What a shell that was read says of its keys, one by one. */
  lemma ShellKeys(schemes: SchemeOf, raw: Json)
    requires ReadShell(schemes, raw).Ok?
    ensures raw.Obj?
    ensures var shell, marks := ReadShell(schemes, raw).value, Lookup(raw.members, "marks");
            && TypeOf(raw) == Str(KindName(shell.kind))
            && Lookup(raw.members, "text") == (if shell.text.Some? then Some(Str(shell.text.value)) else None)
            && (marks.None? ==> shell.marks == [])
            && (marks.Some? ==> marks.value.Arr? && ReadMarkList(schemes, marks.value.items) == Ok(shell.marks))
  {}

  lemma ShellIsCanonical(schemes: SchemeOf, raw: Json, content: Children)
    requires ReadShell(schemes, raw).Ok?
    requires content.Present? <==> Lookup(raw.members, "content").Some?
    requires content.Present? ==> NodesJson(content.nodes) == CanonicalItems(ItemsOf(raw))
    ensures NodeJson(ReadShell(schemes, raw).value.(content := content)) == Canonical(raw)
  {
    var shell, marks := ReadShell(schemes, raw).value, Lookup(raw.members, "marks");
    ShellParts(schemes, raw);
    ShellKeys(schemes, raw);
    AttributesAreCanonical(schemes, Lookup(raw.members, "attrs"), NodeAttribute(shell.kind), shell.kind.Heading?, UnknownAttribute);
    if marks.Some? { MarksAreCanonical(schemes, marks.value.items); }
  }

  lemma {:induction false} NodeIsCanonical(schemes: SchemeOf, raw: Json, depth: int, budget: int)
    requires ReadNode(schemes, raw, depth, budget).0.Ok?
    ensures NodeJson(ReadNode(schemes, raw, depth, budget).0.value) == Canonical(raw)
    decreases Weight(raw), 0
  {
    var node := ReadNode(schemes, raw, depth, budget).0.value;
    NodeParts(schemes, raw, depth, budget);
    if node.content.Present? { NodesAreCanonical(schemes, ItemsOf(raw), depth + 1, budget - 1); }
    ShellIsCanonical(schemes, raw, node.content);
  }

  lemma {:induction false} NodesAreCanonical(schemes: SchemeOf, items: seq<Json>, depth: int, budget: int)
    requires ReadNodeList(schemes, items, depth, budget).0.Ok?
    ensures NodesJson(ReadNodeList(schemes, items, depth, budget).0.value) == CanonicalItems(items)
    decreases ItemsWeight(items), 1
  {
    if items != [] {
      var (first, left) := ReadNode(schemes, items[0], depth, budget);
      NodeIsCanonical(schemes, items[0], depth, budget);
      NodesAreCanonical(schemes, items[1..], depth, left);
      var nodes := ReadNodeList(schemes, items, depth, budget).0.value;
      assert nodes[1..] == ReadNodeList(schemes, items[1..], depth, left).0.value;
    }
  }

  /** What comes back from a parse is the canonical form of what was put in. */
  lemma ParsedIsCanonical(schemes: SchemeOf, payload: Json)
    requires ParseContent(schemes, payload).Ok?
    ensures ContentJson(ParseContent(schemes, payload).value) == CanonicalDocument(payload)
  {
    NodesAreCanonical(schemes, ItemsOf(payload), 1, MAX_CONTENT_NODES);
  }

  /** parse_content accepts exactly: a `doc` whose nodes obey the grammar, at most
      20 deep, at most 10,000 of them, whose canonical form has at most 200,000
      characters; and gives back that form. */
  lemma ParseAcceptsExactly(schemes: SchemeOf, payload: Json)
    ensures ParseContent(schemes, payload).Ok? <==>
            && payload.Obj? && KeysWithin(payload.members, ["type", "content"])
            && Lookup(payload.members, "type") == Some(Str("doc"))
            && (Lookup(payload.members, "content").Some? ==> Lookup(payload.members, "content").value.Arr?)
            && ListConforms(schemes, ItemsOf(payload))
            && ListDepth(ItemsOf(payload)) <= MAX_CONTENT_DEPTH
            && ListCount(ItemsOf(payload)) <= MAX_CONTENT_NODES
            && |Show(CanonicalDocument(payload), COMPACT)| <= MAX_CONTENT_CHARACTERS
    ensures ParseContent(schemes, payload).Ok? ==> ContentJson(ParseContent(schemes, payload).value) == CanonicalDocument(payload)
  {
    var items := ItemsOf(payload);
    ListAccepted(schemes, items, 1, MAX_CONTENT_NODES);
    var read := ReadNodeList(schemes, items, 1, MAX_CONTENT_NODES).0;
    if read.Ok? {
      NodesAreCanonical(schemes, items, 1, MAX_CONTENT_NODES);
      SizeIsCanonical(payload, Content(read.value));
    }
  }

  lemma SizeIsCanonical(payload: Json, content: Content)
    requires NodesJson(content.nodes) == CanonicalItems(ItemsOf(payload))
    ensures ContentJson(content) == CanonicalDocument(payload)
    ensures Render(content) == Show(CanonicalDocument(payload), COMPACT)
  {}

  /** The tree a parse built: the only contents there are. */
  ghost predicate Parsed(schemes: SchemeOf, content: Content) {
    exists payload :: ParseContent(schemes, payload) == Ok(content)
  }

  /** Parsing is idempotent. */
  lemma ParsedParsesToItself(schemes: SchemeOf, content: Content)
    requires Parsed(schemes, content)
    ensures ParseContent(schemes, ContentJson(content)) == Ok(content)
  {
    var payload :| ParseContent(schemes, payload) == Ok(content);
    NodesReread(schemes, ItemsOf(payload), 1, MAX_CONTENT_NODES);
    var first, last := Member("content", Arr(NodesJson(content.nodes))), Member("type", Str("doc"));
    assert ContentJson(content).members == [first] + [last];
    LastWins([first], last, "type");
    LastWins([first], last, "content");
    assert Lookup([first], "content") == Some(first.value);
  }

  /** Writing a parsed document and reading it back is the identity: with its
      keys in whatever order, any blanks after the separators, either escaping. */
  lemma StoredDocumentReadsBack(schemes: SchemeOf, content: Content, stored: Json, style: Style)
    requires Parsed(schemes, content) && SameValue(stored, ContentJson(content)) && Proper(style)
    ensures ToContent(schemes, Show(stored, style)) == Some(content)
  {
    LoadsReadsShow(stored, style);
    SameContent(schemes, stored, ContentJson(content));
    ParsedParsesToItself(schemes, content);
  }

  /** In particular its canonical text, so no two documents share one. */
  lemma RenderedDocumentReadsBack(schemes: SchemeOf, content: Content)
    requires Parsed(schemes, content)
    ensures ToContent(schemes, Render(content)) == Some(content)
  {
    LoadsReadsShow(ContentJson(content), COMPACT);
    ParsedParsesToItself(schemes, content);
  }

  /** The same value with the members of its objects in another order. */
  ghost predicate Reordered(a: Json, b: Json)
    decreases a, 0
  {
    match a
    case Arr(items) => b.Arr? && ItemsReordered(items, b.items)
    case Obj(members) => b.Obj? && MembersReordered(members, b.members)
    case _ => a == b
  }

  ghost predicate ItemsReordered(a: seq<Json>, b: seq<Json>)
    decreases a, 1
  {
    |a| == |b| && (a == [] || (Reordered(a[0], b[0]) && ItemsReordered(a[1..], b[1..])))
  }

  ghost predicate MembersReordered(a: seq<Member>, b: seq<Member>)
    decreases a, 1
  {
    && |a| == |b|
    && (a == [] || exists i :: 0 <= i < |b| && b[i].key == a[0].key && Reordered(a[0].value, b[i].value)
                               && MembersReordered(a[1..], Without(b, i)))
  }

  function Without(members: seq<Member>, i: nat): (r: seq<Member>)
    requires i < |members|
    ensures |r| == |members| - 1
  {
    members[..i] + members[i + 1..]
  }

  lemma {:induction false} WithoutIsShorter(members: seq<Member>, i: nat)
    requires i < |members|
    ensures MembersLength(members, COMPACT)
            == MembersLength(Without(members, i), COMPACT) + MemberLength(members[i], COMPACT) + if |members| == 1 then 0 else 1
  {
    var rest := Without(members, i);
    if i == 0 {
      assert rest == members[1..];
    } else {
      assert rest[0] == members[0] && rest[1..] == Without(members[1..], i - 1);
      WithoutIsShorter(members[1..], i - 1);
    }
  }

  lemma {:induction false} ReorderedLength(a: Json, b: Json)
    requires Reordered(a, b)
    ensures TextLength(a, COMPACT) == TextLength(b, COMPACT)
    decreases a, 0
  {
    match a
    case Arr(items) => ItemsReorderedLength(items, b.items);
    case Obj(members) => MembersReorderedLength(members, b.members);
    case _ =>
  }

  lemma {:induction false} ItemsReorderedLength(a: seq<Json>, b: seq<Json>)
    requires ItemsReordered(a, b)
    ensures ItemsLength(a, COMPACT) == ItemsLength(b, COMPACT)
    decreases a, 1
  {
    if a != [] {
      ReorderedLength(a[0], b[0]);
      ItemsReorderedLength(a[1..], b[1..]);
    }
  }

  lemma {:induction false} MembersReorderedLength(a: seq<Member>, b: seq<Member>)
    requires MembersReordered(a, b)
    ensures MembersLength(a, COMPACT) == MembersLength(b, COMPACT)
    decreases a, 1
  {
    if a != [] {
      var i :| 0 <= i < |b| && b[i].key == a[0].key && Reordered(a[0].value, b[i].value)
               && MembersReordered(a[1..], Without(b, i));
      ReorderedLength(a[0].value, b[i].value);
      MembersReorderedLength(a[1..], Without(b, i));
      WithoutIsShorter(b, i);
    }
  }

  lemma ParsedIsShort(schemes: SchemeOf, content: Content)
    requires Parsed(schemes, content)
    ensures |Render(content)| <= MAX_CONTENT_CHARACTERS
  {}

  /** The stored column has room for every document the parser passed, in
      whatever order the database keeps the keys. */
  lemma StoredDocumentFits(schemes: SchemeOf, content: Content, stored: Json)
    requires Parsed(schemes, content) && Reordered(ContentJson(content), stored)
    ensures 2 * |Show(stored, SPACED)| < 3 * |Render(content)|
    ensures |Show(stored, SPACED)| < MAX_STORED_CHARACTERS
  {
    ParsedIsShort(schemes, content);
    SpacedIsShort(ContentJson(content), stored);
  }

  lemma SpacedIsShort(j: Json, stored: Json)
    requires Reordered(j, stored)
    ensures 2 * |Show(stored, SPACED)| < 3 * |Show(j, COMPACT)|
  {
    ShowHasLength(stored, SPACED, "");
    ShowHasLength(j, COMPACT, "");
    ReorderedLength(j, stored);
    SpacingCostsAtMostHalf(stored);
  }
}
