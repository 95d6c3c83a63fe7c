/** What the four numbers of a document count, and when a budget is reported,
    stated without the walk (app/graphql/limits.py:251-441). */
module BudgetTheorems {
  import opened Wrappers
  import opened Limits
  import opened LimitsTheorems

  /** A composite field whose selections count: any but the two that describe
      the schema. */
  predicate Opens(node: Selection) {
    node.Field? && node.name != "__schema" && node.name != "__type"
  }

  /** The fields one selection set asks for directly, those of the inline
      fragments in it among them. */
  function Level(sels: seq<Selection>): seq<Selection>
    decreases SizeAll(sels), 1
  {
    if sels == [] then [] else LevelOf(sels[0]) + Level(sels[1..])
  }

  function LevelOf(node: Selection): seq<Selection>
    decreases Size(node), 0
  {
    match node
    case Inline(_, body) => Level(body)
    case Spread(_) => []
    case _ => [node]
  }

  /** Composite fields written one inside another, from this level down. */
  predicate Nested(chain: seq<Selection>, level: seq<Selection>) {
    chain == [] || (chain[0] in level && Opens(chain[0]) && Nested(chain[1..], Level(chain[0].selections)))
  }

  /** Every field reached, at any depth and in order. */
  function Reached(sels: seq<Selection>): seq<Selection>
    decreases SizeAll(sels), 1
  {
    if sels == [] then [] else ReachedFrom(sels[0]) + Reached(sels[1..])
  }

  function ReachedFrom(node: Selection): seq<Selection>
    decreases Size(node), 0
  {
    match node
    case Leaf(_, _) => [node]
    case Field(_, _, _, selections) => [node] + if Opens(node) then Reached(selections) else []
    case Inline(_, body) => Reached(body)
    case Spread(_) => []
  }

  function Aliased(fields: seq<Selection>): nat {
    if fields == [] then 0
    else (if !fields[0].Inline? && !fields[0].Spread? && fields[0].aliased then 1 else 0) + Aliased(fields[1..])
  }

  // ------------------------------------------------------------------- depth

  lemma {:induction false} NoChainIsLonger(schema: Schema, sels: seq<Selection>, parent: Option<Name>, chain: seq<Selection>)
    requires Nested(chain, Level(sels))
    ensures |chain| <= PlainAll(schema, sels, parent).depth
    decreases SizeAll(sels), 1
  {
    if chain != [] {
      if chain[0] in LevelOf(sels[0]) {
        NoChainIsLongerIn(schema, sels[0], parent, chain);
      } else {
        NoChainIsLonger(schema, sels[1..], parent, chain);
      }
    }
  }

  lemma {:induction false} NoChainIsLongerIn(schema: Schema, node: Selection, parent: Option<Name>, chain: seq<Selection>)
    requires Nested(chain, LevelOf(node))
    ensures |chain| <= PlainNode(schema, node, parent).depth
    decreases Size(node), 0
  {
    if chain != [] {
      match node
      case Leaf(_, _) =>
      case Field(name, _, _, selections) =>
        NoChainIsLonger(schema, selections, FieldType(FieldDefinition(schema, parent, name)), chain[1..]);
      case Inline(condition, body) =>
        NoChainIsLonger(schema, body, ConditionType(condition, parent), chain);
      case Spread(_) =>
    }
  }

  lemma NestedWithin(chain: seq<Selection>, part: seq<Selection>, level: seq<Selection>)
    requires Nested(chain, part) && forall f :: f in part ==> f in level
    ensures Nested(chain, level)
  {}

  lemma {:induction false} SomeChainIsAsLong(schema: Schema, sels: seq<Selection>, parent: Option<Name>) returns (chain: seq<Selection>)
    ensures Nested(chain, Level(sels)) && |chain| == PlainAll(schema, sels, parent).depth
    decreases SizeAll(sels), 1
  {
    if sels == [] { return []; }
    var first := SomeChainIsAsLongIn(schema, sels[0], parent);
    var rest := SomeChainIsAsLong(schema, sels[1..], parent);
    NestedWithin(first, LevelOf(sels[0]), Level(sels));
    NestedWithin(rest, Level(sels[1..]), Level(sels));
    chain := if |first| <= |rest| then rest else first;
  }

  lemma {:induction false} SomeChainIsAsLongIn(schema: Schema, node: Selection, parent: Option<Name>) returns (chain: seq<Selection>)
    ensures Nested(chain, LevelOf(node)) && |chain| == PlainNode(schema, node, parent).depth
    decreases Size(node), 0
  {
    chain := [];
    match node
    case Leaf(_, _) =>
    case Field(name, _, _, selections) =>
      if Opens(node) {
        var below := SomeChainIsAsLong(schema, selections, FieldType(FieldDefinition(schema, parent, name)));
        chain := [node] + below;
        assert chain[1..] == below;
      }
    case Inline(condition, body) =>
      chain := SomeChainIsAsLong(schema, body, ConditionType(condition, parent));
    case Spread(_) =>
  }

  // -------------------------------------------------------- selections, aliases

  lemma {:induction false} AliasedJoins(a: seq<Selection>, b: seq<Selection>)
    ensures Aliased(a + b) == Aliased(a) + Aliased(b)
  {
    if a == [] {
      assert a + b == b;
    } else {
      assert (a + b)[0] == a[0] && (a + b)[1..] == a[1..] + b;
      AliasedJoins(a[1..], b);
    }
  }

  lemma {:induction false} ReachedIsCounted(schema: Schema, sels: seq<Selection>, parent: Option<Name>)
    ensures PlainAll(schema, sels, parent).selections == |Reached(sels)|
    ensures PlainAll(schema, sels, parent).aliases == Aliased(Reached(sels))
    decreases SizeAll(sels), 1
  {
    if sels != [] {
      ReachedIsCountedIn(schema, sels[0], parent);
      ReachedIsCounted(schema, sels[1..], parent);
      AliasedJoins(ReachedFrom(sels[0]), Reached(sels[1..]));
    }
  }

  lemma {:induction false} ReachedIsCountedIn(schema: Schema, node: Selection, parent: Option<Name>)
    ensures PlainNode(schema, node, parent).selections == |ReachedFrom(node)|
    ensures PlainNode(schema, node, parent).aliases == Aliased(ReachedFrom(node))
    decreases Size(node), 0
  {
    match node
    case Leaf(_, _) => AliasedOne(node, []);
    case Field(name, _, _, selections) =>
      AliasedOne(node, if Opens(node) then Reached(selections) else []);
      if Opens(node) {
        ReachedIsCounted(schema, selections, FieldType(FieldDefinition(schema, parent, name)));
      }
    case Inline(condition, body) => ReachedIsCounted(schema, body, ConditionType(condition, parent));
    case Spread(_) =>
  }

  lemma AliasedOne(node: Selection, more: seq<Selection>)
    requires node.Leaf? || node.Field?
    ensures Aliased([node] + more) == Aliased(more) + if node.aliased then 1 else 0
  {
    assert ([node] + more)[1..] == more;
  }

  /** Depth is the length of the longest chain of composite fields written one
      inside another, selections the number of fields reached and aliases the
      number of those that carry one; inline fragments add nothing themselves. */
  lemma MeasuresMean(schema: Schema, sels: seq<Selection>, parent: Option<Name>)
    ensures forall chain :: Nested(chain, Level(sels)) ==> |chain| <= PlainAll(schema, sels, parent).depth
    ensures exists chain :: Nested(chain, Level(sels)) && |chain| == PlainAll(schema, sels, parent).depth
    ensures PlainAll(schema, sels, parent).selections == |Reached(sels)|
    ensures PlainAll(schema, sels, parent).aliases == Aliased(Reached(sels))
  {
    forall chain | Nested(chain, Level(sels)) ensures |chain| <= PlainAll(schema, sels, parent).depth {
      NoChainIsLonger(schema, sels, parent, chain);
    }
    var chain := SomeChainIsAsLong(schema, sels, parent);
    ReachedIsCounted(schema, sels, parent);
  }

  // ------------------------------------------------------------------ reports

  /** Each error names its budget's excess, and every excess is reported. */
  lemma {:induction false} ReportsMean(measures: seq<Measurement>)
    ensures forall n :: TooDeep(n) in Reports(measures) <==> n > 10 && exists m :: m in measures && m.depth == n
    ensures forall n :: TooManyAliases(n) in Reports(measures) <==> n > 15 && exists m :: m in measures && m.aliases == n
    ensures forall n :: TooManySelections(n) in Reports(measures) <==> n > 2000 && exists m :: m in measures && m.selections == n
    ensures forall n :: TooComplex(n) in Reports(measures) <==> n > 1000 && exists m :: m in measures && m.complexity == n
  {
    if measures != [] {
      var before, last := measures[..|measures| - 1], measures[|measures| - 1];
      ReportsMean(before);
      assert measures == before + [last];
      ReportMeans(last);
    }
  }

  lemma ReportMeans(m: Measurement)
    ensures forall n :: TooDeep(n) in Report(m) <==> n > 10 && m.depth == n
    ensures forall n :: TooManyAliases(n) in Report(m) <==> n > 15 && m.aliases == n
    ensures forall n :: TooManySelections(n) in Report(m) <==> n > 2000 && m.selections == n
    ensures forall n :: TooComplex(n) in Report(m) <==> n > 1000 && m.complexity == n
  {
    var deep := if m.depth > MAX_DEPTH then [TooDeep(m.depth)] else [];
    var aliased := if m.aliases > MAX_ALIASES then [TooManyAliases(m.aliases)] else [];
    var wide := if m.selections > MAX_SELECTIONS then [TooManySelections(m.selections)] else [];
    var costly := if m.complexity > MAX_COMPLEXITY then [TooComplex(m.complexity)] else [];
    assert Report(m) == deep + aliased + wide + costly;
  }

  lemma {:induction false} CostsAreOperations(doc: Doc, defs: seq<Definition>, m: Measurement)
    ensures m in OperationCosts(doc, defs)
            <==> exists d :: d in defs && d.OperationDefinition? && m == OperationCost(doc, d)
  {
    if defs != [] {
      var before, last := defs[..|defs| - 1], defs[|defs| - 1];
      CostsAreOperations(doc, before, m);
      assert defs == before + [last];
    }
  }

  /** The fields an operation asks for directly, with its fragments written out. */
  function TopLevel(doc: Doc, def: Definition): seq<Selection>
    requires def.OperationDefinition?
  {
    Level(Inlined(doc, def.selections, {}))
  }

  /** A document whose fragments are acyclic is refused for its depth exactly
      when one of its operations, written out, nests composite fields more than
      ten deep. */
  lemma TooDeepIff(doc: Doc, defs: seq<Definition>)
    requires Acyclic(doc)
    ensures (exists n :: TooDeep(n) in Reports(AuditOf(doc, defs).measures))
            <==> exists d, chain :: d in defs && d.OperationDefinition? && Nested(chain, TopLevel(doc, d)) && |chain| > 10
  {
    AuditIsExact(doc, defs);
    var measures := OperationCosts(doc, defs);
    ReportsMean(measures);
    forall m | m in measures && m.depth > 10
      ensures exists d, chain :: d in defs && d.OperationDefinition? && Nested(chain, TopLevel(doc, d)) && |chain| > 10
    {
      CostsAreOperations(doc, defs, m);
      var d :| d in defs && d.OperationDefinition? && m == OperationCost(doc, d);
      var chain := SomeChainIsAsLong(doc.schema, Inlined(doc, d.selections, {}), RootType(doc.schema, d.kind));
      assert Nested(chain, TopLevel(doc, d));
    }
    forall d, chain | d in defs && d.OperationDefinition? && Nested(chain, TopLevel(doc, d)) && |chain| > 10
      ensures exists n :: TooDeep(n) in Reports(measures)
    {
      NoChainIsLonger(doc.schema, Inlined(doc, d.selections, {}), RootType(doc.schema, d.kind), chain);
      var m := OperationCost(doc, d);
      CostsAreOperations(doc, defs, m);
      assert TooDeep(m.depth) in Reports(measures);
    }
  }

  // ------------------------------------------------------- whose page it is

  lemma OneNode(schema: Schema, sels: seq<Selection>, parent: Option<Name>)
    requires |sels| == 1
    ensures PlainAll(schema, sels, parent) == PlainNode(schema, sels[0], parent)
  {
    assert sels[1..] == [];
  }

  /** A listing of leaves costs the rows of the field as declared on the type it
      is on, and one row where the schema declares no such field. */
  lemma ListingCosts(schema: Schema, listing: Selection, parent: Option<Name>)
    requires Opens(listing) && |listing.selections| == 1
    requires listing.selections[0].Leaf? && listing.selections[0].name == "__typename"
    ensures parent.Some? && parent.value in schema.types && listing.name in schema.types[parent.value] ==>
              PlainNode(schema, listing, parent).complexity == PageSize(listing.arguments, Some(schema.types[parent.value][listing.name]))
    ensures parent.None? || parent.value !in schema.types || listing.name !in schema.types[parent.value] ==>
              PlainNode(schema, listing, parent).complexity == PageSize(listing.arguments, None)
  {
    OneNode(schema, listing.selections, FieldType(FieldDefinition(schema, parent, listing.name)));
    assert PlainNode(schema, listing.selections[0], FieldType(FieldDefinition(schema, parent, listing.name))).complexity == 1;
  }

  /** The type a listing is on is the one a fragment's condition names, the one
      the field around it returns, or the operation's root. */
  lemma ListingsMultiply(schema: Schema, kind: OperationKind, outer: Selection, listing: Selection, on: Selection)
    requires Opens(listing) && |listing.selections| == 1
    requires listing.selections[0].Leaf? && listing.selections[0].name == "__typename"
    requires Opens(outer) && outer.selections == [listing] && on.Inline? && on.body == [listing]
    requires kind in schema.roots && schema.roots[kind] in schema.types && outer.name in schema.types[schema.roots[kind]]
    ensures var def := schema.types[schema.roots[kind]][outer.name];
            def.typeName in schema.types && listing.name in schema.types[def.typeName] ==>
              var of := schema.types[def.typeName][listing.name];
              && PlainNode(schema, outer, RootType(schema, kind)).complexity == PageSize(outer.arguments, Some(def)) * PageSize(listing.arguments, Some(of))
              && (on.condition == Some(def.typeName) ==>
                    PlainNode(schema, on, RootType(schema, kind)).complexity == PageSize(listing.arguments, Some(of)))
    ensures on.condition == None ==> PlainNode(schema, on, RootType(schema, kind)) == PlainNode(schema, listing, RootType(schema, kind))
  {
    var def := schema.types[schema.roots[kind]][outer.name];
    ListingCosts(schema, listing, Some(def.typeName));
    OneNode(schema, outer.selections, Some(def.typeName));
    OneNode(schema, on.body, Some(def.typeName));
    OneNode(schema, on.body, RootType(schema, kind));
  }

  /** A name means the last fragment defined under it. */
  lemma {:induction false} LastDefinitionWins(defs: seq<Definition>, name: Name, i: nat)
    requires i < |defs| && defs[i].FragmentDefinition? && defs[i].name == name
    requires forall j :: i < j < |defs| && defs[j].FragmentDefinition? ==> defs[j].name != name
    ensures name in FragmentsOf(defs) && FragmentsOf(defs)[name] == defs[i].fragment
  {
    if i < |defs| - 1 { LastDefinitionWins(defs[..|defs| - 1], name, i); }
  }

  lemma {:induction false} OnlyDefinedNames(defs: seq<Definition>, name: Name)
    requires forall d :: d in defs && d.FragmentDefinition? ==> d.name != name
    ensures name !in FragmentsOf(defs)
  {
    if defs != [] { OnlyDefinedNames(defs[..|defs| - 1], name); }
  }

  // ------------------------------------------------------- acyclic documents

  /** Every fragment spread here, at any depth, ranks below `bound`. */
  predicate SpreadsUnder(doc: Doc, sels: seq<Selection>, rank: Name -> nat, bound: nat)
    decreases SizeAll(sels), 1
  {
    sels == [] || (NodeSpreadsUnder(doc, sels[0], rank, bound) && SpreadsUnder(doc, sels[1..], rank, bound))
  }

  predicate NodeSpreadsUnder(doc: Doc, node: Selection, rank: Name -> nat, bound: nat)
    decreases Size(node), 0
  {
    match node
    case Leaf(_, _) => true
    case Field(_, _, _, selections) => SpreadsUnder(doc, selections, rank, bound)
    case Inline(_, body) => SpreadsUnder(doc, body, rank, bound)
    case Spread(name) => name in doc.fragments ==> rank(name) < bound
  }

  /** Each fragment spreads only fragments of lower rank. */
  ghost predicate Ranked(doc: Doc, rank: Name -> nat) {
    forall n :: n in doc.fragments ==> SpreadsUnder(doc, doc.fragments[n].body, rank, rank(n))
  }

  lemma {:induction false} RankedExpands(doc: Doc, sels: seq<Selection>, rank: Name -> nat, bound: nat, expanding: set<Name>)
    requires Ranked(doc, rank) && SpreadsUnder(doc, sels, rank, bound) && forall e :: e in expanding ==> bound <= rank(e)
    ensures ExpandsFreely(doc, sels, expanding)
    decreases doc.fragments.Keys - expanding, SizeAll(sels), 1
  {
    if sels != [] {
      RankedNodeExpands(doc, sels[0], rank, bound, expanding);
      RankedExpands(doc, sels[1..], rank, bound, expanding);
    }
  }

  lemma {:induction false} RankedNodeExpands(doc: Doc, node: Selection, rank: Name -> nat, bound: nat, expanding: set<Name>)
    requires Ranked(doc, rank) && NodeSpreadsUnder(doc, node, rank, bound) && forall e :: e in expanding ==> bound <= rank(e)
    ensures NodeExpandsFreely(doc, node, expanding)
    decreases doc.fragments.Keys - expanding, Size(node), 0
  {
    match node
    case Leaf(_, _) =>
    case Field(_, _, _, selections) => RankedExpands(doc, selections, rank, bound, expanding);
    case Inline(_, body) => RankedExpands(doc, body, rank, bound, expanding);
    case Spread(name) =>
      if name in doc.fragments {
        RankedExpands(doc, doc.fragments[name].body, rank, rank(name), expanding + {name});
      }
  }

  /** How deep spreads are written one inside another. */
  function Height(doc: Doc, sels: seq<Selection>, expanding: set<Name>): nat
    decreases doc.fragments.Keys - expanding, SizeAll(sels), 1
  {
    if sels == [] then 0 else Max(NodeHeight(doc, sels[0], expanding), Height(doc, sels[1..], expanding))
  }

  function NodeHeight(doc: Doc, node: Selection, expanding: set<Name>): nat
    decreases doc.fragments.Keys - expanding, Size(node), 0
  {
    match node
    case Leaf(_, _) => 0
    case Field(_, _, _, selections) => Height(doc, selections, expanding)
    case Inline(_, body) => Height(doc, body, expanding)
    case Spread(name) =>
      if name in expanding || name !in doc.fragments then 0 else 1 + Height(doc, doc.fragments[name].body, expanding + {name})
  }

  lemma {:induction false} HeightUnderLess(doc: Doc, sels: seq<Selection>, more: set<Name>, less: set<Name>)
    requires less <= more && ExpandsFreely(doc, sels, more)
    ensures Height(doc, sels, less) == Height(doc, sels, more)
    decreases doc.fragments.Keys - less, SizeAll(sels), 1
  {
    if sels != [] {
      NodeHeightUnderLess(doc, sels[0], more, less);
      HeightUnderLess(doc, sels[1..], more, less);
    }
  }

  lemma {:induction false} NodeHeightUnderLess(doc: Doc, node: Selection, more: set<Name>, less: set<Name>)
    requires less <= more && NodeExpandsFreely(doc, node, more)
    ensures NodeHeight(doc, node, less) == NodeHeight(doc, node, more)
    decreases doc.fragments.Keys - less, Size(node), 0
  {
    match node
    case Leaf(_, _) =>
    case Field(_, _, _, selections) => HeightUnderLess(doc, selections, more, less);
    case Inline(_, body) => HeightUnderLess(doc, body, more, less);
    case Spread(name) =>
      if name in doc.fragments { HeightUnderLess(doc, doc.fragments[name].body, more + {name}, less + {name}); }
  }

  function FragmentHeight(doc: Doc, name: Name): nat {
    if name in doc.fragments then Height(doc, doc.fragments[name].body, {name}) else 0
  }

  lemma {:induction false} HeightRanks(doc: Doc, sels: seq<Selection>, rank: Name -> nat, bound: nat, expanding: set<Name>)
    requires ExpandsFreely(doc, sels, expanding) && Height(doc, sels, expanding) <= bound
    requires forall n :: rank(n) == FragmentHeight(doc, n)
    ensures SpreadsUnder(doc, sels, rank, bound)
    decreases SizeAll(sels), 1
  {
    if sels != [] {
      NodeHeightRanks(doc, sels[0], rank, bound, expanding);
      HeightRanks(doc, sels[1..], rank, bound, expanding);
    }
  }

  lemma {:induction false} NodeHeightRanks(doc: Doc, node: Selection, rank: Name -> nat, bound: nat, expanding: set<Name>)
    requires NodeExpandsFreely(doc, node, expanding) && NodeHeight(doc, node, expanding) <= bound
    requires forall n :: rank(n) == FragmentHeight(doc, n)
    ensures NodeSpreadsUnder(doc, node, rank, bound)
    decreases Size(node), 0
  {
    match node
    case Leaf(_, _) =>
    case Field(_, _, _, selections) => HeightRanks(doc, selections, rank, bound, expanding);
    case Inline(_, body) => HeightRanks(doc, body, rank, bound, expanding);
    case Spread(name) =>
      if name in doc.fragments { HeightUnderLess(doc, doc.fragments[name].body, expanding + {name}, {name}); }
  }

  /** No fragment spreads itself, directly or through others, exactly when the
      fragments can be ranked so that each spreads only lower ones. */
  lemma AcyclicIffRanked(doc: Doc)
    ensures Acyclic(doc) <==> exists rank: Name -> nat :: Ranked(doc, rank)
  {
    var rank: Name -> nat := n => FragmentHeight(doc, n);
    if Acyclic(doc) {
      forall n | n in doc.fragments ensures SpreadsUnder(doc, doc.fragments[n].body, rank, rank(n)) {
        HeightRanks(doc, doc.fragments[n].body, rank, rank(n), {n});
      }
      assert Ranked(doc, rank);
    }
    forall r: Name -> nat | Ranked(doc, r) ensures Acyclic(doc) {
      forall n | n in doc.fragments ensures ExpandsFreely(doc, doc.fragments[n].body, {n}) {
        RankedExpands(doc, doc.fragments[n].body, r, r(n), {n});
      }
    }
  }
}
