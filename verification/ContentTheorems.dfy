/** What a stored document can hold, written out value by value: the trees the
    parser returns are these and no others (app/domain/documents.py:74-98, 339-453, 677-769). */
module ContentTheorems {
  import opened Wrappers
  import opened Text
  import opened Json
  import opened Documents
  import opened DocumentTheorems

  ghost predicate GoodLanguage(s: string) {
    && 1 <= |s| <= 40
    && forall i :: 0 <= i < |s| ==>
         'a' <= s[i] <= 'z' || 'A' <= s[i] <= 'Z' || '0' <= s[i] <= '9'
         || s[i] == '+' || s[i] == '-' || s[i] == '.' || s[i] == '_' || s[i] == '#'
  }

  /** An absolute address of one of three schemes, with no control character and
      no white space at its ends. */
  ghost predicate GoodAddress(schemes: SchemeOf, s: string) {
    && 1 <= |s| <= 2048
    && !IsSpace(s[0]) && !IsSpace(s[|s| - 1])
    && (forall i :: 0 <= i < |s| ==> s[i] as int >= 0x20 && s[i] as int != 0x7f)
    && (schemes(s) == Some("http") || schemes(s) == Some("https") || schemes(s) == Some("mailto"))
  }

  /** What a node of each kind may say of itself. */
  ghost predicate GoodAttribute(kind: Kind, attribute: Option<Json>) {
    match kind
    case Heading => attribute.Some? && attribute.value.Int? && 1 <= attribute.value.n <= 6
    case OrderedList => attribute.Some? ==> attribute.value.Int? && 0 <= attribute.value.n <= 10_000
    case TaskItem => attribute.Some? ==> attribute.value.Bool?
    case CodeBlock => attribute.Some? ==> attribute.value.Null? || (attribute.value.Str? && GoodLanguage(attribute.value.s))
    case _ => attribute.None?
  }

  /** A link has an address, and no other mark says anything. */
  ghost predicate GoodMark(schemes: SchemeOf, mark: Mark) {
    if mark.kind.Link? then mark.attribute.Some? && mark.attribute.value.Str? && GoodAddress(schemes, mark.attribute.value.s)
    else mark.attribute.None?
  }

  ghost predicate GoodText(text: Option<string>) {
    text.Some? && 1 <= |text.value| <= 20_000 && forall i :: 0 <= i < |text.value| ==> text.value[i] as int != 0
  }

  ghost predicate GoodShell(schemes: SchemeOf, node: Node) {
    && GoodAttribute(node.kind, node.attribute)
    && (if node.kind.TextRun? then GoodText(node.text) else node.text.None? && node.marks == [])
    && (forall m :: m in node.marks ==> GoodMark(schemes, m))
    && (node.kind.TextRun? || node.kind.HorizontalRule? || node.kind.HardBreak? ==> node.content.Absent?)
  }

  ghost predicate GoodNode(schemes: SchemeOf, node: Node)
    decreases node, 0
  {
    GoodShell(schemes, node) && (node.content.Present? ==> GoodNodes(schemes, node.content.nodes))
  }

  ghost predicate GoodNodes(schemes: SchemeOf, nodes: seq<Node>)
    decreases nodes, 1
  {
    nodes == [] || (GoodNode(schemes, nodes[0]) && GoodNodes(schemes, nodes[1..]))
  }

  function Levels(nodes: seq<Node>): nat
    decreases nodes, 1
  {
    if nodes == [] then 0
    else if NodeLevels(nodes[0]) <= Levels(nodes[1..]) then Levels(nodes[1..]) else NodeLevels(nodes[0])
  }

  function NodeLevels(node: Node): (n: nat)
    ensures 1 <= n
    decreases node, 0
  {
    1 + if node.content.Present? then Levels(node.content.nodes) else 0
  }

  function Size(nodes: seq<Node>): nat
    decreases nodes, 1
  {
    if nodes == [] then 0 else NodeSize(nodes[0]) + Size(nodes[1..])
  }

  function NodeSize(node: Node): (n: nat)
    ensures 1 <= n
    decreases node, 0
  {
    1 + if node.content.Present? then Size(node.content.nodes) else 0
  }

  // ---------------------------------------------------------- what is read is good

  lemma ValueIsGood(schemes: SchemeOf, raw: Option<Json>, kind: Kind)
    requires ReadAttributes(schemes, raw, NodeAttribute(kind), kind.Heading?, UnknownAttribute).Ok?
    ensures GoodAttribute(kind, ReadAttributes(schemes, raw, NodeAttribute(kind), kind.Heading?, UnknownAttribute).value)
  {
    AttributeReread(schemes, raw, NodeAttribute(kind), kind.Heading?, UnknownAttribute);
  }

  lemma MarkIsGood(schemes: SchemeOf, raw: Json)
    requires ReadMark(schemes, raw).Ok?
    ensures GoodMark(schemes, ReadMark(schemes, raw).value)
  {
    var mark := ReadMark(schemes, raw).value;
    AttributeReread(schemes, Lookup(raw.members, "attrs"), MarkAttribute(mark.kind), mark.kind.Link?, UnknownMark);
  }

  lemma {:induction false} MarksAreGood(schemes: SchemeOf, items: seq<Json>)
    requires ReadMarkList(schemes, items).Ok?
    ensures forall m :: m in ReadMarkList(schemes, items).value ==> GoodMark(schemes, m)
  {
    if items != [] {
      MarkIsGood(schemes, items[0]);
      MarksAreGood(schemes, items[1..]);
    }
  }

  lemma ShellIsGood(schemes: SchemeOf, raw: Json)
    requires ReadShell(schemes, raw).Ok?
    ensures GoodShell(schemes, ReadShell(schemes, raw).value)
  {
    var shell, marks := ReadShell(schemes, raw).value, Lookup(raw.members, "marks");
    ShellParts(schemes, raw);
    ValueIsGood(schemes, Lookup(raw.members, "attrs"), shell.kind);
    if shell.marks != [] { MarksAreGood(schemes, marks.value.items); }
  }

  lemma NodeSpends(schemes: SchemeOf, raw: Json, depth: int, budget: int)
    requires ReadNode(schemes, raw, depth, budget).0.Ok?
    ensures depth <= MAX_CONTENT_DEPTH && 1 <= budget
    ensures var (node, left) := ReadNode(schemes, raw, depth, budget);
            && (IsLeaf(node.value.kind) ==> node.value.content.Absent?)
            && left == if node.value.content.Absent? then budget - 1 else ReadNodeList(schemes, ItemsOf(raw), depth + 1, budget - 1).1
  {
    if ReadShell(schemes, raw).Err? || depth > MAX_CONTENT_DEPTH || budget < 1 {
      NodeRefused(schemes, raw, depth, budget);
    } else {
      NodeStep(schemes, raw, depth, budget, ReadShell(schemes, raw).value);
    }
  }

  lemma NodeSums(node: Node)
    ensures node.content.Absent? ==> NodeLevels(node) == 1 && NodeSize(node) == 1
    ensures node.content.Present? ==> NodeLevels(node) == 1 + Levels(node.content.nodes) && NodeSize(node) == 1 + Size(node.content.nodes)
  {}

  /** A node that may be read at this depth, spending this much. */
  ghost predicate Fits(schemes: SchemeOf, node: Node, depth: int, budget: int, left: int) {
    GoodNode(schemes, node) && depth - 1 + NodeLevels(node) <= MAX_CONTENT_DEPTH && left == budget - NodeSize(node) && 0 <= left
  }

  ghost predicate AllFit(schemes: SchemeOf, nodes: seq<Node>, depth: int, budget: int, left: int) {
    && GoodNodes(schemes, nodes) && (nodes == [] || depth - 1 + Levels(nodes) <= MAX_CONTENT_DEPTH)
    && left == budget - Size(nodes) && 0 <= left
  }

  lemma NodeFits(schemes: SchemeOf, shell: Node, node: Node, depth: int, budget: int, left: int)
    requires GoodShell(schemes, shell) && shell.(content := node.content) == node && (IsLeaf(node.kind) ==> node.content.Absent?)
    requires depth <= MAX_CONTENT_DEPTH && 1 <= budget
    requires if node.content.Absent? then left == budget - 1 else AllFit(schemes, node.content.nodes, depth + 1, budget - 1, left)
    ensures Fits(schemes, node, depth, budget, left)
  {
    NodeSums(node);
    assert node.content.Present? && node.content.nodes == [] ==> Levels(node.content.nodes) == 0;
  }

  lemma MoreFit(schemes: SchemeOf, first: Node, more: seq<Node>, depth: int, budget: int, left: int, rest: int)
    requires Fits(schemes, first, depth, budget, left) && AllFit(schemes, more, depth, left, rest)
    ensures AllFit(schemes, [first] + more, depth, budget, rest)
  {
    var nodes := [first] + more;
    assert nodes[0] == first && nodes[1..] == more;
    assert more == [] ==> Levels(more) == 0;
  }

  /** A node that was read is good, in the depth and the budget it was read with. */
  lemma {:induction false} NodeIsGood(schemes: SchemeOf, raw: Json, depth: int, budget: int)
    requires ReadNode(schemes, raw, depth, budget).0.Ok?
    ensures var (r, left) := ReadNode(schemes, raw, depth, budget); Fits(schemes, r.value, depth, budget, left)
    decreases Weight(raw), 0
  {
    var (r, left) := ReadNode(schemes, raw, depth, budget);
    NodeSpends(schemes, raw, depth, budget);
    NodeParts(schemes, raw, depth, budget);
    ShellIsGood(schemes, raw);
    if r.value.content.Present? { NodesAreGood(schemes, ItemsOf(raw), depth + 1, budget - 1); }
    NodeFits(schemes, ReadShell(schemes, raw).value, r.value, depth, budget, left);
  }

  lemma {:induction false} NodesAreGood(schemes: SchemeOf, items: seq<Json>, depth: int, budget: int)
    requires ReadNodeList(schemes, items, depth, budget).0.Ok? && 0 <= budget
    ensures var (r, left) := ReadNodeList(schemes, items, depth, budget); AllFit(schemes, r.value, depth, budget, left)
    decreases ItemsWeight(items), 1
  {
    if items != [] {
      var (first, left) := ReadNode(schemes, items[0], depth, budget);
      NodeIsGood(schemes, items[0], depth, budget);
      NodesAreGood(schemes, items[1..], depth, left);
      var (more, rest) := ReadNodeList(schemes, items[1..], depth, left);
      MoreFit(schemes, first.value, more.value, depth, budget, left, rest);
    }
  }

  // ---------------------------------------------------------- what is good is read

  lemma GoodValueReads(schemes: SchemeOf, kind: Kind, attribute: Option<Json>)
    requires GoodAttribute(kind, attribute)
    ensures ReadAttributes(schemes, AttributesJson(NodeAttribute(kind), attribute), NodeAttribute(kind), kind.Heading?, UnknownAttribute) == Ok(attribute)
  {
    if attribute.Some? { OnlyMember(NodeAttribute(kind).value, attribute.value); }
  }

  lemma OnlyMember(key: string, value: Json)
    ensures Lookup([Member(key, value)], key) == Some(value)
  {}

  lemma GoodAddressReads(schemes: SchemeOf, mark: Mark)
    requires GoodMark(schemes, mark)
    ensures ReadAttributes(schemes, AttributesJson(MarkAttribute(mark.kind), mark.attribute), MarkAttribute(mark.kind), mark.kind.Link?, UnknownMark)
            == Ok(mark.attribute)
  {
    if mark.attribute.Some? { OnlyMember("href", mark.attribute.value); }
  }

  lemma MarkStep(schemes: SchemeOf, raw: Json, kind: MarkKind, attribute: Option<Json>)
    requires raw.Obj? && KeysWithin(raw.members, MARK_KEYS) && Lookup(raw.members, "type") == Some(Str(MarkName(kind)))
    requires ReadAttributes(schemes, Lookup(raw.members, "attrs"), MarkAttribute(kind), kind.Link?, UnknownMark) == Ok(attribute)
    ensures ReadMark(schemes, raw) == Ok(Mark(kind, attribute))
  {
    NamesComeBack(Paragraph, kind);
  }

  lemma MarkKeys(mark: Mark)
    ensures var ms := MarkJson(mark).members;
            && KeysWithin(ms, MARK_KEYS) && Lookup(ms, "type") == Some(Str(MarkName(mark.kind)))
            && Lookup(ms, "attrs") == AttributesJson(MarkAttribute(mark.kind), mark.attribute)
  {
    var attrs, last := AttributesJson(MarkAttribute(mark.kind), mark.attribute), Member("type", Str(MarkName(mark.kind)));
    LastWins(Optional("attrs", attrs), last, "type");
    LastWins(Optional("attrs", attrs), last, "attrs");
    OptionalFinds([], "attrs", attrs, "attrs");
    assert [] + Optional("attrs", attrs) == Optional("attrs", attrs);
  }

  lemma GoodMarkReads(schemes: SchemeOf, mark: Mark)
    requires GoodMark(schemes, mark)
    ensures ReadMark(schemes, MarkJson(mark)) == Ok(mark)
  {
    MarkKeys(mark);
    GoodAddressReads(schemes, mark);
    MarkStep(schemes, MarkJson(mark), mark.kind, mark.attribute);
  }

  lemma MarkFails(schemes: SchemeOf, raw: Json, kind: MarkKind, reason: Reason)
    requires raw.Obj? && KeysWithin(raw.members, MARK_KEYS) && Lookup(raw.members, "type") == Some(Str(MarkName(kind)))
    requires ReadAttributes(schemes, Lookup(raw.members, "attrs"), MarkAttribute(kind), kind.Link?, UnknownMark) == Err(reason)
    ensures ReadMark(schemes, raw) == Err(reason)
  {
    NamesComeBack(Paragraph, kind);
  }

  /** A link is taken exactly when it has such an address; any other value is
      answered as a bad link, and none at all as a missing attribute. */
  lemma LinkAnswers(schemes: SchemeOf, mark: Mark)
    requires mark.kind.Link?
    ensures ReadMark(schemes, MarkJson(mark)) ==
            if mark.attribute.None? then Err(MissingAttribute)
            else if mark.attribute.value.Str? && GoodAddress(schemes, mark.attribute.value.s) then Ok(mark)
            else Err(BadLink)
  {
    MarkKeys(mark);
    if GoodMark(schemes, mark) {
      GoodMarkReads(schemes, mark);
    } else if mark.attribute.None? {
      MarkFails(schemes, MarkJson(mark), mark.kind, MissingAttribute);
    } else {
      OnlyMember("href", mark.attribute.value);
      MarkFails(schemes, MarkJson(mark), mark.kind, BadLink);
    }
  }

  lemma MarkListStep(schemes: SchemeOf, items: seq<Json>, first: Json, rest: seq<Json>, marks: seq<Mark>)
    requires items == [first] + rest && marks != []
    requires ReadMark(schemes, first) == Ok(marks[0]) && ReadMarkList(schemes, rest) == Ok(marks[1..])
    ensures ReadMarkList(schemes, items) == Ok(marks)
  {
    assert items[1..] == rest && marks == [marks[0]] + marks[1..];
  }

  lemma {:induction false} GoodMarksRead(schemes: SchemeOf, marks: seq<Mark>)
    requires forall m :: m in marks ==> GoodMark(schemes, m)
    ensures ReadMarkList(schemes, MarksJson(marks)) == Ok(marks)
  {
    if marks != [] {
      GoodMarkReads(schemes, marks[0]);
      GoodMarksRead(schemes, marks[1..]);
      MarkListStep(schemes, MarksJson(marks), MarkJson(marks[0]), MarksJson(marks[1..]), marks);
    }
  }

  /** The parts of a good shell, each as its reader takes it. */
  lemma GoodPartsRead(schemes: SchemeOf, node: Node)
    requires GoodShell(schemes, node)
    ensures ReadAttributes(schemes, AttributesJson(NodeAttribute(node.kind), node.attribute), NodeAttribute(node.kind), node.kind.Heading?, UnknownAttribute)
            == Ok(node.attribute)
    ensures (node.text.Some? <==> node.kind.TextRun?) && (node.text.Some? ==> IsText(node.text.value))
    ensures node.marks != [] ==> node.kind.TextRun? && ReadMarks(schemes, Arr(MarksJson(node.marks))) == Ok(node.marks)
  {
    GoodValueReads(schemes, node.kind, node.attribute);
    GoodMarksRead(schemes, node.marks);
  }

  lemma GoodShellReads(schemes: SchemeOf, node: Node)
    requires GoodShell(schemes, node)
    ensures ReadShell(schemes, NodeJson(node)) == Ok(node.(content := Absent))
  {
    NodeKeys(node);
    GoodPartsRead(schemes, node);
    KeysReread(schemes, NodeJson(node), node.(content := Absent),
               if node.text.Some? then Some(Str(node.text.value)) else None,
               if node.marks != [] then Some(Arr(MarksJson(node.marks))) else None);
  }

  lemma FittingNode(schemes: SchemeOf, node: Node, depth: int, budget: int, left: int)
    requires Fits(schemes, node, depth, budget, left)
    ensures GoodShell(schemes, node) && (IsLeaf(node.kind) ==> node.content.Absent?) && depth <= MAX_CONTENT_DEPTH && 1 <= budget
    ensures node.content.Absent? ==> left == budget - 1
    ensures node.content.Present? ==> AllFit(schemes, node.content.nodes, depth + 1, budget - 1, left)
  {
    NodeSums(node);
  }

  lemma RebuiltLeaf(schemes: SchemeOf, raw: Json, depth: int, budget: int, shell: Node)
    requires ReadShell(schemes, raw) == Ok(shell) && depth <= MAX_CONTENT_DEPTH && 1 <= budget
    requires Lookup(raw.members, "content") == None
    ensures ReadNode(schemes, raw, depth, budget) == (Ok(shell), budget - 1)
  {
    NodeStep(schemes, raw, depth, budget, shell);
  }

  lemma RebuiltParent(schemes: SchemeOf, raw: Json, depth: int, budget: int, shell: Node, nodes: seq<Node>, left: int)
    requires ReadShell(schemes, raw) == Ok(shell) && depth <= MAX_CONTENT_DEPTH && 1 <= budget && !IsLeaf(shell.kind)
    requires Lookup(raw.members, "content").Some? && Lookup(raw.members, "content").value.Arr?
    requires ReadNodeList(schemes, ItemsOf(raw), depth + 1, budget - 1) == (Ok(nodes), left)
    ensures ReadNode(schemes, raw, depth, budget) == (Ok(shell.(content := Present(nodes))), left)
  {
    NodeStep(schemes, raw, depth, budget, shell);
  }

  lemma LeafReads(schemes: SchemeOf, node: Node, depth: int, budget: int, left: int)
    requires Fits(schemes, node, depth, budget, left) && node.content.Absent?
    ensures ReadNode(schemes, NodeJson(node), depth, budget) == (Ok(node), left)
  {
    FittingNode(schemes, node, depth, budget, left);
    GoodShellReads(schemes, node);
    NodeItems(node);
    RebuiltLeaf(schemes, NodeJson(node), depth, budget, node);
  }

  lemma ParentReads(schemes: SchemeOf, node: Node, nodes: seq<Node>, depth: int, budget: int, left: int)
    requires Fits(schemes, node, depth, budget, left) && node.content == Present(nodes)
    requires ReadNodeList(schemes, NodesJson(nodes), depth + 1, budget - 1) == (Ok(nodes), left)
    ensures ReadNode(schemes, NodeJson(node), depth, budget) == (Ok(node), left)
  {
    FittingNode(schemes, node, depth, budget, left);
    GoodShellReads(schemes, node);
    NodeItems(node);
    RebuiltParent(schemes, NodeJson(node), depth, budget, node.(content := Absent), nodes, left);
  }

  lemma FittingChildren(schemes: SchemeOf, node: Node, nodes: seq<Node>, depth: int, budget: int, left: int)
    requires Fits(schemes, node, depth, budget, left) && node.content == Present(nodes)
    ensures AllFit(schemes, nodes, depth + 1, budget - 1, left)
  {
    FittingNode(schemes, node, depth, budget, left);
  }

  /** A good node, written down, is read back as it was. */
  lemma {:induction false} GoodNodeReads(schemes: SchemeOf, node: Node, depth: int, budget: int, left: int)
    requires Fits(schemes, node, depth, budget, left)
    ensures ReadNode(schemes, NodeJson(node), depth, budget) == (Ok(node), left)
    decreases node, 0
  {
    match node.content
    case Absent => LeafReads(schemes, node, depth, budget, left);
    case Present(nodes) =>
      FittingChildren(schemes, node, nodes, depth, budget, left);
      GoodNodesRead(schemes, nodes, depth + 1, budget - 1, left);
      ParentReads(schemes, node, nodes, depth, budget, left);
  }

  lemma FittingNodes(schemes: SchemeOf, nodes: seq<Node>, depth: int, budget: int, left: int)
    requires nodes != [] && AllFit(schemes, nodes, depth, budget, left)
    ensures Fits(schemes, nodes[0], depth, budget, budget - NodeSize(nodes[0]))
    ensures AllFit(schemes, nodes[1..], depth, budget - NodeSize(nodes[0]), left)
  {}

  lemma ItemsStep(nodes: seq<Node>, items: seq<Json>)
    requires nodes != [] && items == NodesJson(nodes)
    ensures items != [] && items[0] == NodeJson(nodes[0]) && items[1..] == NodesJson(nodes[1..])
  {}

  lemma ListStep(schemes: SchemeOf, items: seq<Json>, depth: int, budget: int, nodes: seq<Node>, between: int, left: int)
    requires items != [] && nodes != [] && ReadNode(schemes, items[0], depth, budget) == (Ok(nodes[0]), between)
    requires ReadNodeList(schemes, items[1..], depth, between) == (Ok(nodes[1..]), left)
    ensures ReadNodeList(schemes, items, depth, budget) == (Ok(nodes), left)
  {
    assert nodes == [nodes[0]] + nodes[1..];
  }

  lemma {:induction false} GoodNodesRead(schemes: SchemeOf, nodes: seq<Node>, depth: int, budget: int, left: int)
    requires AllFit(schemes, nodes, depth, budget, left)
    ensures ReadNodeList(schemes, NodesJson(nodes), depth, budget) == (Ok(nodes), left)
    decreases nodes, 1
  {
    var items := NodesJson(nodes);
    if nodes == [] {
      NothingToRead(schemes, items, nodes, depth, budget, left);
    } else {
      FittingNodes(schemes, nodes, depth, budget, left);
      var between := budget - NodeSize(nodes[0]);
      GoodNodeReads(schemes, nodes[0], depth, budget, between);
      GoodNodesRead(schemes, nodes[1..], depth, between, left);
      ItemsStep(nodes, items);
      ListStep(schemes, items, depth, budget, nodes, between, left);
    }
  }

  lemma NothingToRead(schemes: SchemeOf, items: seq<Json>, nodes: seq<Node>, depth: int, budget: int, left: int)
    requires nodes == [] && items == NodesJson(nodes) && AllFit(schemes, nodes, depth, budget, left)
    ensures ReadNodeList(schemes, items, depth, budget) == (Ok(nodes), left)
  {
    assert items == [];
  }

  /** The documents there are: every value within its bounds, every link an address
      of an allowed scheme, 20 levels, 10,000 nodes, 200,000 characters; and every
      tree like that is one. */
  lemma DocumentsAreExactly(schemes: SchemeOf, content: Content)
    ensures DocumentTheorems.Parsed(schemes, content) <==>
            && GoodNodes(schemes, content.nodes)
            && Levels(content.nodes) <= 20 && Size(content.nodes) <= 10_000 && |Render(content)| <= 200_000
  {
    if DocumentTheorems.Parsed(schemes, content) {
      var payload :| ParseContent(schemes, payload) == Ok(content);
      NodesAreGood(schemes, ItemsOf(payload), 1, MAX_CONTENT_NODES);
    }
    if GoodNodes(schemes, content.nodes) && Levels(content.nodes) <= 20 && Size(content.nodes) <= 10_000 && |Render(content)| <= 200_000 {
      GoodNodesRead(schemes, content.nodes, 1, MAX_CONTENT_NODES, MAX_CONTENT_NODES - Size(content.nodes));
      ContentKeys(content);
      assert ParseContent(schemes, ContentJson(content)) == Ok(content);
    }
  }

  lemma ContentKeys(content: Content)
    ensures var ms := ContentJson(content).members;
            && KeysWithin(ms, ["type", "content"]) && Lookup(ms, "type") == Some(Str("doc"))
            && Lookup(ms, "content") == Some(Arr(NodesJson(content.nodes)))
  {
    var first, last := Member("content", Arr(NodesJson(content.nodes))), Member("type", Str("doc"));
    assert ContentJson(content).members == [first] + [last];
    LastWins([first], last, "type");
    LastWins([first], last, "content");
    OnlyMember("content", first.value);
  }

  /** Every link mark of the tree, at any level. */
  ghost predicate Holds(nodes: seq<Node>, mark: Mark)
    decreases nodes, 1
  {
    exists i :: 0 <= i < |nodes| && (mark in nodes[i].marks || (nodes[i].content.Present? && Holds(nodes[i].content.nodes, mark)))
  }

  lemma {:induction false} GoodMarksThroughout(schemes: SchemeOf, nodes: seq<Node>, mark: Mark)
    requires GoodNodes(schemes, nodes) && Holds(nodes, mark)
    ensures GoodMark(schemes, mark)
    decreases nodes, 1
  {
    var i :| 0 <= i < |nodes| && (mark in nodes[i].marks || (nodes[i].content.Present? && Holds(nodes[i].content.nodes, mark)));
    GoodNodeAt(schemes, nodes, i);
    if mark !in nodes[i].marks { GoodMarksThroughout(schemes, nodes[i].content.nodes, mark); }
  }

  lemma {:induction false} GoodNodeAt(schemes: SchemeOf, nodes: seq<Node>, i: nat)
    requires GoodNodes(schemes, nodes) && i < |nodes|
    ensures GoodNode(schemes, nodes[i])
  {
    if i > 0 { GoodNodeAt(schemes, nodes[1..], i - 1); }
  }

  /** No stored document, whatever was sent, holds a link a browser would run. */
  lemma LinksAreSafe(schemes: SchemeOf, content: Content, mark: Mark)
    requires DocumentTheorems.Parsed(schemes, content) && Holds(content.nodes, mark) && mark.kind.Link?
    ensures mark.attribute.Some? && mark.attribute.value.Str?
    ensures var address := mark.attribute.value.s;
            && 1 <= |address| <= 2048 && !IsSpace(address[0]) && !IsSpace(address[|address| - 1])
            && (forall i :: 0 <= i < |address| ==> address[i] as int >= 0x20 && address[i] as int != 0x7f)
            && schemes(address).Some? && schemes(address).value in {"http", "https", "mailto"}
  {
    DocumentsAreExactly(schemes, content);
    GoodMarksThroughout(schemes, content.nodes, mark);
  }

  // ------------------------------------------------------------ no other key

  ghost predicate OnlyKeys(raw: Json, keys: set<string>) {
    raw.Obj? && forall m :: m in raw.members ==> m.key in keys
  }

  /** Nothing in this node or under it is called what the grammar does not know. */
  ghost predicate IsClosed(raw: Json)
    decreases Weight(raw), 0
  {
    && OnlyKeys(raw, {"type", "attrs", "content", "marks", "text"})
    && AttrsClosed(Lookup(raw.members, "attrs"), {"level", "start", "checked", "language"})
    && MarksClosed(Lookup(raw.members, "marks"))
    && AreClosed(ItemsOf(raw))
  }

  ghost predicate AttrsClosed(raw: Option<Json>, keys: set<string>) {
    raw.Some? && !raw.value.Null? ==> OnlyKeys(raw.value, keys) && forall m, n :: m in raw.value.members && n in raw.value.members ==> m.key == n.key
  }

  ghost predicate MarksClosed(raw: Option<Json>) {
    raw.Some? ==> raw.value.Arr? && forall m :: m in raw.value.items ==>
      OnlyKeys(m, {"type", "attrs"}) && AttrsClosed(Lookup(m.members, "attrs"), {"href"})
  }

  ghost predicate AreClosed(items: seq<Json>)
    decreases ItemsWeight(items), 1
  {
    items == [] || (IsClosed(items[0]) && AreClosed(items[1..]))
  }

  lemma ConformingMarksAreClosed(schemes: SchemeOf, raw: Json)
    requires raw.Arr? && forall m :: m in raw.items ==> MarkConforms(schemes, m)
    ensures MarksClosed(Some(raw))
  {}

  lemma {:induction false} ConformingIsClosed(schemes: SchemeOf, raw: Json)
    requires NodeConforms(schemes, raw)
    ensures IsClosed(raw)
    decreases Weight(raw), 0
  {
    var marks := Lookup(raw.members, "marks");
    if marks.Some? { ConformingMarksAreClosed(schemes, marks.value); }
    ConformingAreClosed(schemes, ItemsOf(raw));
  }

  lemma {:induction false} ConformingAreClosed(schemes: SchemeOf, items: seq<Json>)
    requires ListConforms(schemes, items)
    ensures AreClosed(items)
    decreases ItemsWeight(items), 1
  {
    if items != [] {
      ConformingIsClosed(schemes, items[0]);
      ConformingAreClosed(schemes, items[1..]);
    }
  }

  /** A payload with an unknown key anywhere in it is refused. */
  lemma AcceptedIsClosed(schemes: SchemeOf, payload: Json)
    requires ParseContent(schemes, payload).Ok?
    ensures OnlyKeys(payload, {"type", "content"}) && AreClosed(ItemsOf(payload))
  {
    ParseAcceptsExactly(schemes, payload);
    ConformingAreClosed(schemes, ItemsOf(payload));
  }
}
