/** The document parser: a closed grammar over JSON values, a depth limit, a
    mutable node budget, and the canonical text that is stored
    (app/domain/documents.py:57-98, 339-772; app/repositories/documents.py:865-890). */
module Documents {
  import opened Wrappers
  import opened Text
  import opened Json

  const MAX_CONTENT_CHARACTERS: int := 200_000
  const MAX_CONTENT_DEPTH: int := 20
  const MAX_CONTENT_NODES: int := 10_000
  const MAX_TEXT_LENGTH: int := 20_000
  const MAX_HREF_LENGTH: int := 2048
  const MAX_LANGUAGE_LENGTH: int := 40

  /** The bound of the `documents_content_length` constraint. */
  const MAX_STORED_CHARACTERS: int := 524_288

  /** urlsplit(address).scheme, lower-cased; None where it raises ValueError. */
  type SchemeOf = string -> Option<string>

  datatype Reason =
    | NotADocument | UnknownNode | UnknownMark | UnknownAttribute | MissingAttribute
    | BadAttribute | BadText | BadLink | TooDeep | TooManyNodes | TooLarge

  // ------------------------------------------------------------- vocabularies

  datatype Kind =
    | Paragraph | TextRun | Heading | BulletList | OrderedList | ListItem
    | TaskList | TaskItem | Blockquote | CodeBlock | HorizontalRule | HardBreak

  datatype MarkKind = Bold | Italic | Strike | Code | Link

  function KindName(kind: Kind): string {
    match kind
    case Paragraph => "paragraph"
    case TextRun => "text"
    case Heading => "heading"
    case BulletList => "bulletList"
    case OrderedList => "orderedList"
    case ListItem => "listItem"
    case TaskList => "taskList"
    case TaskItem => "taskItem"
    case Blockquote => "blockquote"
    case CodeBlock => "codeBlock"
    case HorizontalRule => "horizontalRule"
    case HardBreak => "hardBreak"
  }

  function KindNamed(name: string): (r: Option<Kind>)
    ensures r.Some? ==> KindName(r.value) == name
  {
    if name == "paragraph" then Some(Paragraph)
    else if name == "text" then Some(TextRun)
    else if name == "heading" then Some(Heading)
    else if name == "bulletList" then Some(BulletList)
    else if name == "orderedList" then Some(OrderedList)
    else if name == "listItem" then Some(ListItem)
    else if name == "taskList" then Some(TaskList)
    else if name == "taskItem" then Some(TaskItem)
    else if name == "blockquote" then Some(Blockquote)
    else if name == "codeBlock" then Some(CodeBlock)
    else if name == "horizontalRule" then Some(HorizontalRule)
    else if name == "hardBreak" then Some(HardBreak)
    else None
  }

  function MarkName(kind: MarkKind): string {
    match kind
    case Bold => "bold"
    case Italic => "italic"
    case Strike => "strike"
    case Code => "code"
    case Link => "link"
  }

  function MarkNamed(name: string): (r: Option<MarkKind>)
    ensures r.Some? ==> MarkName(r.value) == name
  {
    if name == "bold" then Some(Bold)
    else if name == "italic" then Some(Italic)
    else if name == "strike" then Some(Strike)
    else if name == "code" then Some(Code)
    else if name == "link" then Some(Link)
    else None
  }

  lemma NamesComeBack(kind: Kind, mark: MarkKind)
    ensures KindNamed(KindName(kind)) == Some(kind) && MarkNamed(MarkName(mark)) == Some(mark)
  {}

  /** The one attribute a node type may carry, if any. */
  function NodeAttribute(kind: Kind): Option<string> {
    match kind
    case Heading => Some("level")
    case OrderedList => Some("start")
    case TaskItem => Some("checked")
    case CodeBlock => Some("language")
    case _ => None
  }

  function MarkAttribute(kind: MarkKind): Option<string> {
    if kind.Link? then Some("href") else None
  }

  predicate IsLeaf(kind: Kind) { kind.TextRun? || kind.HorizontalRule? || kind.HardBreak? }

  // ------------------------------------------------------------ a parsed tree

  /** A formatting mark and the value of its attribute. */
  datatype Mark = Mark(kind: MarkKind, attribute: Option<Json>)

  /** A node as the parser rebuilds it: `attribute` and `text` are absent keys
      when None, `marks` when empty. */
  datatype Node = Node(kind: Kind, attribute: Option<Json>, text: Option<string>, marks: seq<Mark>, content: Children)

  /** The `content` key: absent, or a list of nodes. */
  datatype Children = Absent | Present(nodes: seq<Node>)

  datatype Content = Content(nodes: seq<Node>)

  // ------------------------------------------------------------------ scalars

  predicate IsLanguage(s: string) {
    1 <= |s| <= MAX_LANGUAGE_LENGTH && forall i :: 0 <= i < |s| ==> IsAsciiAlnum(s[i]) || s[i] in "+-._#"
  }

  predicate IsHref(schemes: SchemeOf, s: string) {
    && 1 <= |s| <= MAX_HREF_LENGTH
    && IsStripped(s)
    && (forall i :: 0 <= i < |s| ==> ' ' <= s[i] && s[i] as int != 0x7f)
    && schemes(s).Some? && schemes(s).value in ["http", "https", "mailto"]
  }

  predicate IsText(s: string) {
    1 <= |s| <= MAX_TEXT_LENGTH && forall i :: 0 <= i < |s| ==> s[i] as int != 0
  }

  /** The parser of one attribute value is chosen by its key. */
  predicate IsValueFor(schemes: SchemeOf, key: string, raw: Json) {
    if key == "level" then raw.Int? && 1 <= raw.n <= 6
    else if key == "start" then raw.Int? && 0 <= raw.n <= 10_000
    else if key == "checked" then raw.Bool?
    else if key == "language" then raw.Null? || (raw.Str? && IsLanguage(raw.s))
    else key == "href" && raw.Str? && IsHref(schemes, raw.s)
  }

  /** The `attrs` object of one node or mark: at most the one allowed key. */
  function ReadAttributes(schemes: SchemeOf, raw: Option<Json>, allowed: Option<string>, required: bool, unknown: Reason): Result<Option<Json>, Reason> {
    var found: Result<Option<Json>, Reason> :=
      if raw.None? || raw.value.Null? then Ok(None)
      else if !raw.value.Obj? then Err(unknown)
      else if exists m | m in raw.value.members :: allowed.None? || m.key != allowed.value then Err(unknown)
      else if raw.value.members == [] then Ok(None)
      else
        var value := Lookup(raw.value.members, raw.value.members[0].key);
        if value.None? || !IsValueFor(schemes, raw.value.members[0].key, value.value)
        then Err(if allowed == Some("href") then BadLink else BadAttribute)
        else Ok(value);
    if found.Ok? && found.value.None? && required then Err(MissingAttribute) else found
  }

  predicate KeysWithin(members: seq<Member>, allowed: seq<string>) {
    forall m :: m in members ==> m.key in allowed
  }

  const NODE_KEYS := ["type", "attrs", "content", "marks", "text"]
  const MARK_KEYS := ["type", "attrs"]

  // -------------------------------------------------------------------- marks

  function ReadMark(schemes: SchemeOf, raw: Json): Result<Mark, Reason> {
    if !raw.Obj? || !KeysWithin(raw.members, MARK_KEYS) then Err(UnknownMark)
    else
      var name := Lookup(raw.members, "type");
      if name.None? || !name.value.Str? || MarkNamed(name.value.s).None? then Err(UnknownMark)
      else
        var kind := MarkNamed(name.value.s).value;
        match ReadAttributes(schemes, Lookup(raw.members, "attrs"), MarkAttribute(kind), kind.Link?, UnknownMark)
        case Err(e) => Err(e)
        case Ok(attribute) => Ok(Mark(kind, attribute))
  }

  function ReadMarkList(schemes: SchemeOf, items: seq<Json>): (r: Result<seq<Mark>, Reason>)
    ensures r.Ok? ==> |r.value| == |items|
  {
    if items == [] then Ok([])
    else match ReadMark(schemes, items[0])
      case Err(e) => Err(e)
      case Ok(first) =>
        match ReadMarkList(schemes, items[1..])
        case Err(e) => Err(e)
        case Ok(more) => Ok([first] + more)
  }

  function ReadMarks(schemes: SchemeOf, raw: Json): Result<seq<Mark>, Reason> {
    if raw.Arr? then ReadMarkList(schemes, raw.items) else Err(UnknownMark)
  }

  // -------------------------------------------------------------------- nodes

  /** Everything about a node but its children, in the order it is checked. */
  function ReadShell(schemes: SchemeOf, raw: Json): (r: Result<Node, Reason>)
    ensures r.Ok? ==> raw.Obj? && r.value.content.Absent?
  {
    if !raw.Obj? || !KeysWithin(raw.members, NODE_KEYS) then Err(UnknownAttribute)
    else
      var name := Lookup(raw.members, "type");
      if name.None? || !name.value.Str? || KindNamed(name.value.s).None? then Err(UnknownNode)
      else
        var kind := KindNamed(name.value.s).value;
        match ReadAttributes(schemes, Lookup(raw.members, "attrs"), NodeAttribute(kind), kind.Heading?, UnknownAttribute)
        case Err(e) => Err(e)
        case Ok(attribute) =>
          var text := Lookup(raw.members, "text");
          if kind.TextRun? && (text.None? || !text.value.Str? || !IsText(text.value.s)) then Err(BadText)
          else if !kind.TextRun? && text.Some? then Err(BadText)
          else
            var run := if kind.TextRun? then Some(text.value.s) else None;
            var marks := Lookup(raw.members, "marks");
            if marks.None? then Ok(Node(kind, attribute, run, [], Absent))
            else if !kind.TextRun? then Err(UnknownMark)
            else match ReadMarks(schemes, marks.value)
              case Err(e) => Err(e)
              case Ok(parsed) => Ok(Node(kind, attribute, run, parsed, Absent))
  }

  /** One node, and what its walk leaves of the budget. */
  function ReadNode(schemes: SchemeOf, raw: Json, depth: int, budget: int): (Result<Node, Reason>, int)
    decreases Weight(raw), 0
  {
    if depth > MAX_CONTENT_DEPTH then (Err(TooDeep), budget)
    else if budget - 1 < 0 then (Err(TooManyNodes), budget - 1)
    else match ReadShell(schemes, raw)
      case Err(e) => (Err(e), budget - 1)
      case Ok(shell) =>
        var content := Lookup(raw.members, "content");
        if content.None? then (Ok(shell), budget - 1)
        else if IsLeaf(shell.kind) then (Err(UnknownNode), budget - 1)
        else if !content.value.Arr? then (Err(NotADocument), budget - 1)
        else
          var (children, left) := ReadNodeList(schemes, content.value.items, depth + 1, budget - 1);
          match children
          case Err(e) => (Err(e), left)
          case Ok(nodes) => (Ok(shell.(content := Present(nodes))), left)
  }

  function ReadNodeList(schemes: SchemeOf, items: seq<Json>, depth: int, budget: int): (Result<seq<Node>, Reason>, int)
    decreases ItemsWeight(items), 1
  {
    if items == [] then (Ok([]), budget)
    else
      var (first, left) := ReadNode(schemes, items[0], depth, budget);
      match first
      case Err(e) => (Err(e), left)
      case Ok(node) =>
        var (more, rest) := ReadNodeList(schemes, items[1..], depth, left);
        match more
        case Err(e) => (Err(e), rest)
        case Ok(nodes) => (Ok([node] + nodes), rest)
  }

  /** parse_content, with its budget unfolded. */
  function ParseContent(schemes: SchemeOf, payload: Json): Result<Content, Reason> {
    if !payload.Obj? || !KeysWithin(payload.members, ["type", "content"]) then Err(NotADocument)
    else if Lookup(payload.members, "type") != Some(Str("doc")) then Err(NotADocument)
    else
      var content := Lookup(payload.members, "content");
      if content.Some? && !content.value.Arr? then Err(NotADocument)
      else
        match ReadNodeList(schemes, if content.Some? then content.value.items else [], 1, MAX_CONTENT_NODES).0
        case Err(e) => Err(e)
        case Ok(nodes) =>
          if |Render(Content(nodes))| > MAX_CONTENT_CHARACTERS then Err(TooLarge) else Ok(Content(nodes))
  }

  // ---------------------------------------------------------------- rendering

  /** A member that may be left out. */
  function Optional(key: string, value: Option<Json>): seq<Member> {
    if value.Some? then [Member(key, value.value)] else []
  }

  function AttributesJson(key: Option<string>, attribute: Option<Json>): Option<Json> {
    if key.Some? && attribute.Some? then Some(Obj([Member(key.value, attribute.value)])) else None
  }

  function MarkJson(mark: Mark): Json {
    Obj(Optional("attrs", AttributesJson(MarkAttribute(mark.kind), mark.attribute)) + [Member("type", Str(MarkName(mark.kind)))])
  }

  /** The five keys a node may have, in sorted order. */
  function Fields(attrs: Option<Json>, content: Option<Json>, marks: Option<Json>, text: Option<Json>, kind: Json): seq<Member> {
    Optional("attrs", attrs) + Optional("content", content) + Optional("marks", marks) + Optional("text", text) + [Member("type", kind)]
  }

  function NodeJson(node: Node): Json
    decreases node, 0
  {
    Obj(Fields(AttributesJson(NodeAttribute(node.kind), node.attribute),
               if node.content.Present? then Some(Arr(NodesJson(node.content.nodes))) else None,
               if node.marks != [] then Some(Arr(MarksJson(node.marks))) else None,
               if node.text.Some? then Some(Str(node.text.value)) else None,
               Str(KindName(node.kind))))
  }

  function NodesJson(nodes: seq<Node>): seq<Json>
    decreases nodes, 1
  {
    if nodes == [] then [] else [NodeJson(nodes[0])] + NodesJson(nodes[1..])
  }

  function MarksJson(marks: seq<Mark>): seq<Json> {
    if marks == [] then [] else [MarkJson(marks[0])] + MarksJson(marks[1..])
  }

  function ContentJson(content: Content): Json {
    Obj([Member("content", Arr(NodesJson(content.nodes))), Member("type", Str("doc"))])
  }

  /** render_content: the one canonical text of a parsed tree. */
  function Render(content: Content): string { Show(ContentJson(content), COMPACT) }

  /** _to_content: a stored text, parsed rather than trusted. */
  function ToContent(schemes: SchemeOf, stored: string): Option<Content> {
    match Loads(stored)
    case Fail => None
    case At(payload, _) =>
      match ParseContent(schemes, payload)
      case Err(_) => None
      case Ok(content) => Some(content)
  }

  /** The node list under a node: empty when there is none. */
  function ItemsOf(raw: Json): (items: seq<Json>)
    ensures ItemsWeight(items) < Weight(raw)
  {
    if raw.Obj? && Lookup(raw.members, "content").Some? && Lookup(raw.members, "content").value.Arr?
    then Lookup(raw.members, "content").value.items
    else []
  }

  /** A node refused before its children are looked at. */
  lemma NodeRefused(schemes: SchemeOf, raw: Json, depth: int, budget: int)
    requires ReadShell(schemes, raw).Err? || depth > MAX_CONTENT_DEPTH || budget < 1
    ensures ReadNode(schemes, raw, depth, budget)
            == if depth > MAX_CONTENT_DEPTH then (Err(TooDeep), budget)
               else if budget < 1 then (Err(TooManyNodes), budget - 1)
               else (Err(ReadShell(schemes, raw).error), budget - 1)
  {}

  /** A node whose shell is read depends on its children alone. */
  lemma NodeStep(schemes: SchemeOf, raw: Json, depth: int, budget: int, shell: Node)
    requires ReadShell(schemes, raw) == Ok(shell) && depth <= MAX_CONTENT_DEPTH && 1 <= budget
    ensures var (children, left) := ReadNodeList(schemes, ItemsOf(raw), depth + 1, budget - 1);
            var content := Lookup(raw.members, "content");
            ReadNode(schemes, raw, depth, budget)
            == if content.None? then (Ok(shell), budget - 1)
               else if IsLeaf(shell.kind) then (Err(UnknownNode), budget - 1)
               else if !content.value.Arr? then (Err(NotADocument), budget - 1)
               else if children.Err? then (Err(children.error), left)
               else (Ok(shell.(content := Present(children.value))), left)
  {}

  // ------------------------------------------------------- the parser, running

  /** How many nodes are left to parse. */
  class Budget {
    var remaining: int
    ghost var visited: nat

    constructor (remaining: int)
      ensures this.remaining == remaining && visited == 0
    {
      this.remaining := remaining;
      visited := 0;
    }

    /** Charges one node; false where the source raises TOO_MANY_NODES. */
    method Spend() returns (affordable: bool)
      modifies this
      ensures remaining == old(remaining) - 1 && visited == old(visited) + 1
      ensures affordable <==> remaining >= 0
    {
      remaining := remaining - 1;
      visited := visited + 1;
      affordable := remaining >= 0;
    }
  }

  method ParseNode(schemes: SchemeOf, raw: Json, depth: int, budget: Budget) returns (r: Result<Node, Reason>)
    modifies budget
    ensures (r, budget.remaining) == ReadNode(schemes, raw, depth, old(budget.remaining))
    ensures budget.remaining + budget.visited == old(budget.remaining + budget.visited)
    decreases Weight(raw), 0
  {
    if depth > MAX_CONTENT_DEPTH { return Err(TooDeep); }
    ghost var before := budget.remaining;
    var affordable := budget.Spend();
    if !affordable { return Err(TooManyNodes); }
    var shell := ReadShell(schemes, raw);
    if shell.Err? {
      NodeRefused(schemes, raw, depth, before);
      return Err(shell.error);
    }
    NodeStep(schemes, raw, depth, before, shell.value);
    var node := shell.value;
    var content := Lookup(raw.members, "content");
    if content.Some? {
      if IsLeaf(node.kind) { return Err(UnknownNode); }
      var children := ParseNodes(schemes, content.value, depth + 1, budget);
      if children.Err? { return Err(children.error); }
      node := node.(content := Present(children.value));
    }
    return Ok(node);
  }

  /** A list read so far, and the reading of the rest of it. */
  function After(done: seq<Node>, rest: (Result<seq<Node>, Reason>, int)): (Result<seq<Node>, Reason>, int) {
    if rest.0.Ok? then (Ok(done + rest.0.value), rest.1) else rest
  }

  lemma AfterNone(rest: (Result<seq<Node>, Reason>, int))
    ensures After([], rest) == rest
  {
    if rest.0.Ok? { assert [] + rest.0.value == rest.0.value; }
  }

  lemma NextItem(schemes: SchemeOf, items: seq<Json>, i: nat, depth: int, budget: int, done: seq<Node>)
    requires i < |items|
    ensures Weight(items[i]) <= ItemsWeight(items)
    ensures var (r, left) := ReadNode(schemes, items[i], depth, budget);
            After(done, ReadNodeList(schemes, items[i..], depth, budget))
            == if r.Err? then (Err(r.error), left)
               else After(done + [r.value], ReadNodeList(schemes, items[i + 1..], depth, left))
  {
    assert items[i..][0] == items[i] && items[i..][1..] == items[i + 1..];
    ItemWeight(items, i);
    var (r, left) := ReadNode(schemes, items[i], depth, budget);
    if r.Ok? {
      var more := ReadNodeList(schemes, items[i + 1..], depth, left).0;
      if more.Ok? { assert done + ([r.value] + more.value) == (done + [r.value]) + more.value; }
    }
  }

  lemma {:induction false} ItemWeight(items: seq<Json>, i: nat)
    requires i < |items|
    ensures Weight(items[i]) <= ItemsWeight(items)
  {
    if i > 0 { ItemWeight(items[1..], i - 1); }
  }

  method ParseNodes(schemes: SchemeOf, raw: Json, depth: int, budget: Budget) returns (r: Result<seq<Node>, Reason>)
    modifies budget
    ensures raw.Arr? ==> (r, budget.remaining) == ReadNodeList(schemes, raw.items, depth, old(budget.remaining))
    ensures !raw.Arr? ==> r == Err(NotADocument) && budget.remaining == old(budget.remaining)
    ensures budget.remaining + budget.visited == old(budget.remaining + budget.visited)
    decreases Weight(raw), 1
  {
    if !raw.Arr? { return Err(NotADocument); }
    var nodes: seq<Node> := [];
    ghost var answer := ReadNodeList(schemes, raw.items, depth, budget.remaining);
    AfterNone(answer);
    assert raw.items[0..] == raw.items;
    var i := 0;
    while i < |raw.items|
      invariant 0 <= i <= |raw.items|
      invariant budget.remaining + budget.visited == old(budget.remaining + budget.visited)
      invariant After(nodes, ReadNodeList(schemes, raw.items[i..], depth, budget.remaining)) == answer
    {
      NextItem(schemes, raw.items, i, depth, budget.remaining, nodes);
      var node := ParseNode(schemes, raw.items[i], depth, budget);
      if node.Err? { return Err(node.error); }
      nodes := nodes + [node.value];
      i := i + 1;
    }
    assert raw.items[i..] == [] && nodes + [] == nodes;
    return Ok(nodes);
  }

  /** The whole parse, over one budget object. */
  method Parse(schemes: SchemeOf, payload: Json) returns (r: Result<Content, Reason>)
    ensures r == ParseContent(schemes, payload)
  {
    if !payload.Obj? || !KeysWithin(payload.members, ["type", "content"]) { return Err(NotADocument); }
    if Lookup(payload.members, "type") != Some(Str("doc")) { return Err(NotADocument); }
    var budget := new Budget(MAX_CONTENT_NODES);
    var content := Lookup(payload.members, "content");
    // an absent content is an empty document
    var nodes := ParseNodes(schemes, if content.Some? then content.value else Arr([]), 1, budget);
    if nodes.Err? { return Err(nodes.error); }
    if |Render(Content(nodes.value))| > MAX_CONTENT_CHARACTERS { return Err(TooLarge); }
    return Ok(Content(nodes.value));
  }
}
