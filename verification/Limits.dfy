/** What one GraphQL document is allowed to ask for (app/graphql/limits.py):
    a memoised, cycle-guarded walk over fields and fragments, measured against
    the document with its fragments written out in place (sections 5.5.2.2 and
    6.3.2 of the GraphQL specification, October 2021). */
module Limits {
  import opened Wrappers

  const MAX_DEPTH: nat := 10
  const MAX_ALIASES: nat := 15
  const MAX_SELECTIONS: nat := 2000
  const MAX_COMPLEXITY: nat := 1000
  const ASSUMED_PAGE_SIZE: nat := 100

  type Name = string

  // ------------------------------------------------------------- the document

  /** An argument value or a declared default, as int() takes it. */
  datatype Literal = Converts(n: int) | Refused

  datatype Argument = Argument(name: Name, value: Literal)

  datatype Selection =
    | Leaf(name: Name, aliased: bool)      // a field with no selection set
    | Field(name: Name, aliased: bool, arguments: seq<Argument>, selections: seq<Selection>)
    | Inline(condition: Option<Name>, body: seq<Selection>)
    | Spread(fragment: Name)

  datatype Fragment = Fragment(condition: Name, body: seq<Selection>)

  datatype OperationKind = Query | Mutation | Subscription

  datatype Definition =
    | OperationDefinition(kind: OperationKind, selections: seq<Selection>)
    | FragmentDefinition(name: Name, fragment: Fragment)

  /** A field's named type and the defaults of the arguments it declares. */
  datatype FieldDef = FieldDef(typeName: Name, defaults: map<Name, Literal>)

  datatype Schema = Schema(types: map<Name, map<Name, FieldDef>>, roots: map<OperationKind, Name>)

  /** What does not change as the walk descends. */
  datatype Doc = Doc(schema: Schema, fragments: map<Name, Fragment>)

  // -------------------------------------------------------------- measurement

  datatype Measurement = Measurement(depth: nat, selections: nat, complexity: nat, aliases: nat)

  const NOTHING := Measurement(0, 0, 0, 0)

  function Max(a: nat, b: nat): nat { if a <= b then b else a }

  /** Depth by max, the rest by sum. */
  function Plus(a: Measurement, b: Measurement): Measurement {
    Measurement(Max(a.depth, b.depth), a.selections + b.selections, a.complexity + b.complexity, a.aliases + b.aliases)
  }

  function AsPageSize(value: Literal): (n: nat)
    ensures 1 <= n
  {
    match value
    case Converts(n) => if n < 1 then 1 else n
    case Refused => ASSUMED_PAGE_SIZE
  }

  function PageSize(arguments: seq<Argument>, def: Option<FieldDef>): (n: nat)
    ensures 1 <= n
  {
    if arguments != [] then
      if arguments[0].name == "first" || arguments[0].name == "last" then AsPageSize(arguments[0].value)
      else PageSize(arguments[1..], def)
    else if def.None? then 1
    else if "first" in def.value.defaults then AsPageSize(def.value.defaults["first"])
    else if "last" in def.value.defaults then AsPageSize(def.value.defaults["last"])
    else 1
  }

  predicate IsPageName(name: Name) { name == "first" || name == "last" }

  /** What is charged for a page size as written: at least one row, and 100 when
      the document cannot tell. */
  predicate Charges(value: Literal, rows: nat) {
    match value
    case Converts(n) => 1 <= rows && n <= rows && (rows == 1 || rows == n)
    case Refused => rows == 100
  }

  /** The first page argument written is the one charged; with none written the
      declared default of `first` and then of `last` is, and a field without
      either is one row. */
  lemma {:induction false} PageSizeMeans(arguments: seq<Argument>, def: Option<FieldDef>, i: nat)
    requires i <= |arguments| && forall k :: 0 <= k < i ==> !IsPageName(arguments[k].name)
    ensures i < |arguments| && IsPageName(arguments[i].name) ==> Charges(arguments[i].value, PageSize(arguments, def))
    ensures i == |arguments| && def.Some? && "first" in def.value.defaults ==> Charges(def.value.defaults["first"], PageSize(arguments, def))
    ensures i == |arguments| && def.Some? && "first" !in def.value.defaults && "last" in def.value.defaults ==>
              Charges(def.value.defaults["last"], PageSize(arguments, def))
    ensures i == |arguments| && (def.Some? ==> "first" !in def.value.defaults && "last" !in def.value.defaults) ==>
              PageSize(arguments, def) == 1
  {
    if i > 0 { PageSizeMeans(arguments[1..], def, i - 1); }
  }

  function FieldDefinition(schema: Schema, parent: Option<Name>, name: Name): Option<FieldDef> {
    if parent.Some? && parent.value in schema.types && name in schema.types[parent.value]
    then Some(schema.types[parent.value][name])
    else None
  }

  function FieldType(def: Option<FieldDef>): Option<Name> {
    if def.Some? then Some(def.value.typeName) else None
  }

  function ConditionType(condition: Option<Name>, parent: Option<Name>): Option<Name> {
    if condition.None? then parent else condition
  }

  function RootType(schema: Schema, kind: OperationKind): Option<Name> {
    if kind in schema.roots then Some(schema.roots[kind]) else None
  }

  predicate IsIntrospection(name: Name) { name == "__schema" || name == "__type" }

  function Count(flag: bool): nat { if flag then 1 else 0 }

  /** A field over an already measured selection set. */
  function Enclosing(node: Selection, page: nat, inner: Measurement): Measurement
    requires node.Field?
  {
    Measurement(1 + inner.depth, 1 + inner.selections, page * inner.complexity, Count(node.aliased) + inner.aliases)
  }

  /** Selection nodes written under this one, itself included. */
  function Size(node: Selection): (n: nat)
    ensures 1 <= n
    decreases node, 0
  {
    match node
    case Leaf(_, _) => 1
    case Field(_, _, _, inner) => 1 + SizeAll(inner)
    case Inline(_, body) => 1 + SizeAll(body)
    case Spread(_) => 1
  }

  function SizeAll(sels: seq<Selection>): nat
    decreases sels, 1
  {
    if sels == [] then 0 else Size(sels[0]) + SizeAll(sels[1..])
  }

  // -------------------------------------------------- the walk, as a function

  /** A walk's answer, the memo it leaves, how many selection nodes it visited
      and which fragment bodies it set out to measure, in order. */
  datatype Walked = Walked(m: Measurement, memo: map<Name, Measurement>, visits: nat, starts: seq<Name>)

  function WalkAll(doc: Doc, sels: seq<Selection>, parent: Option<Name>, memo: map<Name, Measurement>, expanding: set<Name>): Walked
    decreases doc.fragments.Keys - expanding, SizeAll(sels), 1
  {
    if sels == [] then Walked(NOTHING, memo, 0, [])
    else
      var first := WalkNode(doc, sels[0], parent, memo, expanding);
      Then(first, WalkAll(doc, sels[1..], parent, first.memo, expanding))
  }

  function Then(first: Walked, rest: Walked): Walked {
    Walked(Plus(first.m, rest.m), rest.memo, first.visits + rest.visits, first.starts + rest.starts)
  }

  function WalkNode(doc: Doc, node: Selection, parent: Option<Name>, memo: map<Name, Measurement>, expanding: set<Name>): Walked
    decreases doc.fragments.Keys - expanding, Size(node), 0
  {
    match node
    case Leaf(name, aliased) =>
      Walked(Measurement(0, 1, if IsIntrospection(name) then 0 else 1, Count(aliased)), memo, 1, [])
    case Field(name, aliased, arguments, selections) =>
      if IsIntrospection(name) then Walked(Measurement(0, 1, 0, Count(aliased)), memo, 1, [])
      else
        var def := FieldDefinition(doc.schema, parent, name);
        var inner := WalkAll(doc, selections, FieldType(def), memo, expanding);
        inner.(m := Enclosing(node, PageSize(arguments, def), inner.m), visits := 1 + inner.visits)
    case Inline(condition, body) =>
      var inner := WalkAll(doc, body, ConditionType(condition, parent), memo, expanding);
      inner.(visits := 1 + inner.visits)
    case Spread(name) =>
      var inner := WalkSpread(doc, name, memo, expanding);
      inner.(visits := 1 + inner.visits)
  }

  function WalkSpread(doc: Doc, name: Name, memo: map<Name, Measurement>, expanding: set<Name>): Walked
    decreases doc.fragments.Keys - expanding, 0, 0
  {
    if name in expanding then Walked(NOTHING, memo, 0, [])
    else if name in memo then Walked(memo[name], memo, 0, [])
    else if name !in doc.fragments then Walked(NOTHING, memo, 0, [])
    else
      var fragment := doc.fragments[name];
      var inner := WalkAll(doc, fragment.body, Some(fragment.condition), memo, expanding + {name});
      inner.(memo := inner.memo[name := inner.m], starts := [name] + inner.starts)
  }

  // ---------------------------------------------- the walk, as the source runs

  /** Walking one node more. */
  lemma {:induction false} WalkPrefix(doc: Doc, sels: seq<Selection>, i: nat, parent: Option<Name>, memo: map<Name, Measurement>, expanding: set<Name>)
    requires i < |sels|
    ensures var sofar := WalkAll(doc, sels[..i], parent, memo, expanding);
            WalkAll(doc, sels[..i + 1], parent, memo, expanding) == Then(sofar, WalkNode(doc, sels[i], parent, sofar.memo, expanding))
  {
    assert sels[..i + 1][0] == sels[0] && sels[..i + 1][1..] == sels[1..][..i];
    if i == 0 {
      var first := WalkNode(doc, sels[0], parent, memo, expanding);
      assert sels[..0] == [];
      assert first.starts + [] == first.starts && [] + first.starts == first.starts;
    } else {
      var first := WalkNode(doc, sels[0], parent, memo, expanding);
      assert sels[..i][0] == sels[0] && sels[..i][1..] == sels[1..][..i - 1];
      WalkPrefix(doc, sels[1..], i - 1, parent, first.memo, expanding);
      var more := WalkAll(doc, sels[1..][..i - 1], parent, first.memo, expanding);
      ThenThen(first, more, WalkNode(doc, sels[i], parent, more.memo, expanding));
    }
  }

  lemma ThenThen(a: Walked, b: Walked, c: Walked)
    ensures Then(Then(a, b), c) == Then(a, Then(b, c))
  {
    assert (a.starts + b.starts) + c.starts == a.starts + (b.starts + c.starts);
  }

  lemma {:induction false} NodeIsSmaller(sels: seq<Selection>, i: nat)
    requires i < |sels|
    ensures Size(sels[i]) <= SizeAll(sels)
  {
    if i > 0 { NodeIsSmaller(sels[1..], i - 1); }
  }

  /** One walk's mutable half: the memo, filled in as fragments are measured. */
  class Walk {
    const doc: Doc
    var measured: map<Name, Measurement>
    ghost var visits: nat
    ghost var starts: seq<Name>

    constructor (doc: Doc)
      ensures this.doc == doc && measured == map[] && visits == 0 && starts == []
    {
      this.doc := doc;
      measured := map[];
      visits := 0;
      starts := [];
    }

    ghost predicate Advanced(was: map<Name, Measurement>, visitsWas: nat, startsWas: seq<Name>, m: Measurement, step: Walked)
      reads this
    {
      && m == step.m && measured == step.memo
      && visits == visitsWas + step.visits && starts == startsWas + step.starts
    }

    /** One selection set: four accumulators over its nodes, in order. */
    method Measure(selections: seq<Selection>, parent: Option<Name>, expanding: set<Name>) returns (m: Measurement)
      modifies this
      ensures Advanced(old(measured), old(visits), old(starts), m, WalkAll(doc, selections, parent, old(measured), expanding))
      decreases doc.fragments.Keys - expanding, SizeAll(selections), 1
    {
      var depth: nat, selectionCount: nat, complexity: nat, aliases: nat := 0, 0, 0, 0;
      ghost var sofar := Walked(NOTHING, measured, 0, []);
      assert selections[..0] == [];
      var i := 0;
      while i < |selections|
        invariant 0 <= i <= |selections|
        invariant sofar == WalkAll(doc, selections[..i], parent, old(measured), expanding)
        invariant Advanced(old(measured), old(visits), old(starts), Measurement(depth, selectionCount, complexity, aliases), sofar)
      {
        NodeIsSmaller(selections, i);
        WalkPrefix(doc, selections, i, parent, old(measured), expanding);
        sofar := Then(sofar, WalkNode(doc, selections[i], parent, measured, expanding));
        var node := MeasureNode(selections[i], parent, expanding);
        depth := Max(depth, node.depth);
        selectionCount := selectionCount + node.selections;
        complexity := complexity + node.complexity;
        aliases := aliases + node.aliases;
        i := i + 1;
      }
      assert selections[..i] == selections;
      m := Measurement(depth, selectionCount, complexity, aliases);
    }

    /** What one node adds to the accumulators. */
    method MeasureNode(node: Selection, parent: Option<Name>, expanding: set<Name>) returns (m: Measurement)
      modifies this
      ensures Advanced(old(measured), old(visits), old(starts), m, WalkNode(doc, node, parent, old(measured), expanding))
      decreases doc.fragments.Keys - expanding, Size(node), 0
    {
      visits := visits + 1;
      match node {
        case Leaf(name, aliased) =>
          m := Measurement(0, 1, if IsIntrospection(name) then 0 else 1, Count(aliased));
        case Field(name, aliased, arguments, selections) =>
          // the schema's own fields cost the database nothing
          if IsIntrospection(name) { return Measurement(0, 1, 0, Count(aliased)); }
          var def := FieldDefinition(doc.schema, parent, name);
          var inner := Measure(selections, FieldType(def), expanding);
          m := Enclosing(node, PageSize(arguments, def), inner);
        case Inline(condition, body) =>
          m := Measure(body, ConditionType(condition, parent), expanding);
        case Spread(name) =>
          m := MeasureSpread(name, expanding);
      }
    }

    method MeasureSpread(name: Name, expanding: set<Name>) returns (m: Measurement)
      modifies this
      ensures Advanced(old(measured), old(visits), old(starts), m, WalkSpread(doc, name, old(measured), expanding))
      decreases doc.fragments.Keys - expanding, 0, 0
    {
      if name in expanding { return NOTHING; }
      if name in measured { return measured[name]; }
      if name !in doc.fragments { return NOTHING; }
      var fragment := doc.fragments[name];
      starts := starts + [name];
      m := Measure(fragment.body, Some(fragment.condition), expanding + {name});
      measured := measured[name := m];
    }
  }
}
