/** What the memoised walk of app/graphql/limits.py guarantees: it is linear on
    every document, and on an acyclic one it measures the fragments written out. */
module LimitsTheorems {
  import opened Wrappers
  import opened Limits

  // ---------------------------------------------------------- linear, always

  /** Selection nodes in the named fragment bodies. */
  ghost function SumOf(fragments: map<Name, Fragment>, names: set<Name>): nat
    requires names <= fragments.Keys
  {
    if names == {} then 0
    else
      var n :| n in names;
      SizeAll(fragments[n].body) + SumOf(fragments, names - {n})
  }

  lemma {:induction false} SumPick(fragments: map<Name, Fragment>, names: set<Name>, n: Name)
    requires names <= fragments.Keys && n in names
    ensures SumOf(fragments, names) == SizeAll(fragments[n].body) + SumOf(fragments, names - {n})
    decreases names
  {
    var k :| k in names && SumOf(fragments, names) == SizeAll(fragments[k].body) + SumOf(fragments, names - {k});
    if k != n {
      SumPick(fragments, names - {k}, n);
      SumPick(fragments, names - {n}, k);
      assert names - {k} - {n} == names - {n} - {k};
    }
  }

  /** Fragments neither measured nor being expanded. */
  function Unstarted(doc: Doc, memo: map<Name, Measurement>, expanding: set<Name>): set<Name> {
    doc.fragments.Keys - memo.Keys - expanding
  }

  ghost predicate Distinct(names: seq<Name>) {
    forall i, j :: 0 <= i < j < |names| ==> names[i] != names[j]
  }

  lemma DistinctJoin(a: seq<Name>, b: seq<Name>)
    requires Distinct(a) && Distinct(b) && forall n :: n in a ==> n !in b
    ensures Distinct(a + b)
  {
    forall i, j | 0 <= i < j < |a + b| ensures (a + b)[i] != (a + b)[j] {
      if i < |a| <= j { assert a[i] in a && b[j - |a|] in b; }
    }
  }

  /** A started fragment is one that was neither memoised nor being expanded,
      it is started once, and it is memoised in the end; the nodes visited are
      paid for by this selection set and by the bodies started. */
  ghost predicate Frugal(doc: Doc, size: nat, memo: map<Name, Measurement>, expanding: set<Name>, w: Walked) {
    && Distinct(w.starts)
    && (forall n :: n in w.starts ==> n in doc.fragments && n !in memo && n !in expanding)
    && (forall n :: n in w.memo <==> n in memo || n in w.starts)
    && (forall n :: n in memo ==> w.memo[n] == memo[n])
    && w.visits + SumOf(doc.fragments, Unstarted(doc, w.memo, expanding))
       <= size + SumOf(doc.fragments, Unstarted(doc, memo, expanding))
  }

  lemma {:induction false} WalkAllIsFrugal(doc: Doc, sels: seq<Selection>, parent: Option<Name>, memo: map<Name, Measurement>, expanding: set<Name>)
    ensures Frugal(doc, SizeAll(sels), memo, expanding, WalkAll(doc, sels, parent, memo, expanding))
    decreases doc.fragments.Keys - expanding, SizeAll(sels), 1
  {
    if sels != [] {
      WalkNodeIsFrugal(doc, sels[0], parent, memo, expanding);
      var first := WalkNode(doc, sels[0], parent, memo, expanding);
      WalkAllIsFrugal(doc, sels[1..], parent, first.memo, expanding);
      DistinctJoin(first.starts, WalkAll(doc, sels[1..], parent, first.memo, expanding).starts);
    }
  }

  lemma {:induction false} WalkNodeIsFrugal(doc: Doc, node: Selection, parent: Option<Name>, memo: map<Name, Measurement>, expanding: set<Name>)
    ensures Frugal(doc, Size(node), memo, expanding, WalkNode(doc, node, parent, memo, expanding))
    decreases doc.fragments.Keys - expanding, Size(node), 0
  {
    match node
    case Leaf(_, _) =>
    case Field(name, _, _, selections) =>
      WalkAllIsFrugal(doc, selections, FieldType(FieldDefinition(doc.schema, parent, name)), memo, expanding);
    case Inline(condition, body) =>
      WalkAllIsFrugal(doc, body, ConditionType(condition, parent), memo, expanding);
    case Spread(name) =>
      WalkSpreadIsFrugal(doc, name, memo, expanding);
  }

  lemma {:induction false} WalkSpreadIsFrugal(doc: Doc, name: Name, memo: map<Name, Measurement>, expanding: set<Name>)
    ensures Frugal(doc, 0, memo, expanding, WalkSpread(doc, name, memo, expanding))
    decreases doc.fragments.Keys - expanding, 0, 0
  {
    if name !in expanding && name !in memo && name in doc.fragments {
      var fragment := doc.fragments[name];
      var within := expanding + {name};
      WalkAllIsFrugal(doc, fragment.body, Some(fragment.condition), memo, within);
      var inner := WalkAll(doc, fragment.body, Some(fragment.condition), memo, within);
      var w := WalkSpread(doc, name, memo, expanding);
      assert name !in inner.starts;
      SumPick(doc.fragments, Unstarted(doc, memo, expanding), name);
      assert Unstarted(doc, memo, expanding) - {name} == Unstarted(doc, memo, within);
      assert Unstarted(doc, w.memo, expanding) == Unstarted(doc, inner.memo, within);
    }
  }

  // ------------------------------------------------------------ a whole request

  /** The dictionary of fragments: a later definition of a name wins. */
  function FragmentsOf(defs: seq<Definition>): map<Name, Fragment> {
    if defs == [] then map[]
    else
      var last := defs[|defs| - 1];
      var before := FragmentsOf(defs[..|defs| - 1]);
      if last.FragmentDefinition? then before[last.name := last.fragment] else before
  }

  function DefinitionSize(def: Definition): nat {
    match def
    case OperationDefinition(_, selections) => SizeAll(selections)
    case FragmentDefinition(_, fragment) => SizeAll(fragment.body)
  }

  function OperationNodes(defs: seq<Definition>): nat {
    if defs == [] then 0
    else OperationNodes(defs[..|defs| - 1]) + if defs[|defs| - 1].OperationDefinition? then DefinitionSize(defs[|defs| - 1]) else 0
  }

  /** Every selection node written in the document. */
  function NodeCount(defs: seq<Definition>): nat {
    if defs == [] then 0 else NodeCount(defs[..|defs| - 1]) + DefinitionSize(defs[|defs| - 1])
  }

  /** The walks of all operations, in order, over one shared memo. */
  datatype Audit = Audit(measures: seq<Measurement>, memo: map<Name, Measurement>, visits: nat, starts: seq<Name>)

  function AuditOf(doc: Doc, defs: seq<Definition>): Audit {
    if defs == [] then Audit([], map[], 0, [])
    else
      var before := AuditOf(doc, defs[..|defs| - 1]);
      match defs[|defs| - 1]
      case FragmentDefinition(_, _) => before
      case OperationDefinition(kind, selections) =>
        var w := WalkAll(doc, selections, RootType(doc.schema, kind), before.memo, {});
        Audit(before.measures + [w.m], w.memo, before.visits + w.visits, before.starts + w.starts)
  }

  lemma {:induction false} AuditIsFrugal(doc: Doc, defs: seq<Definition>)
    ensures var a := AuditOf(doc, defs);
            && Distinct(a.starts) && (forall n :: n in a.memo <==> n in a.starts)
            && (forall n :: n in a.starts ==> n in doc.fragments)
            && a.visits + SumOf(doc.fragments, Unstarted(doc, a.memo, {}))
               <= OperationNodes(defs) + SumOf(doc.fragments, doc.fragments.Keys)
  {
    if defs == [] {
      assert Unstarted(doc, map[], {}) == doc.fragments.Keys;
    } else {
      var before := defs[..|defs| - 1];
      AuditIsFrugal(doc, before);
      match defs[|defs| - 1]
      case FragmentDefinition(_, _) =>
      case OperationDefinition(kind, selections) =>
        WalkAllIsFrugal(doc, selections, RootType(doc.schema, kind), AuditOf(doc, before).memo, {});
        DistinctJoin(AuditOf(doc, before).starts, WalkAll(doc, selections, RootType(doc.schema, kind), AuditOf(doc, before).memo, {}).starts);
    }
  }

  lemma {:induction false} SumAgrees(a: map<Name, Fragment>, b: map<Name, Fragment>, names: set<Name>)
    requires names <= a.Keys && names <= b.Keys && forall n :: n in names ==> a[n] == b[n]
    ensures SumOf(a, names) == SumOf(b, names)
    decreases names
  {
    if n :| n in names {
      SumPick(a, names, n);
      SumPick(b, names, n);
      SumAgrees(a, b, names - {n});
    }
  }

  lemma {:induction false} FragmentsAreWritten(defs: seq<Definition>)
    ensures OperationNodes(defs) + SumOf(FragmentsOf(defs), FragmentsOf(defs).Keys) <= NodeCount(defs)
  {
    if defs != [] {
      var before := defs[..|defs| - 1];
      FragmentsAreWritten(before);
      var last := defs[|defs| - 1];
      if last.FragmentDefinition? {
        var a, b := FragmentsOf(before), FragmentsOf(defs);
        SumPick(b, b.Keys, last.name);
        assert b.Keys - {last.name} == a.Keys - {last.name};
        SumAgrees(a, b, a.Keys - {last.name});
        if last.name in a { SumPick(a, a.Keys, last.name); }
        else { assert a.Keys - {last.name} == a.Keys; }
      }
    }
  }

  /** On every document, cyclic ones included, all operations together visit no
      more nodes than the document has, and start no fragment body twice. */
  lemma AuditIsLinear(schema: Schema, defs: seq<Definition>)
    ensures AuditOf(Doc(schema, FragmentsOf(defs)), defs).visits <= NodeCount(defs)
    ensures Distinct(AuditOf(Doc(schema, FragmentsOf(defs)), defs).starts)
  {
    AuditIsFrugal(Doc(schema, FragmentsOf(defs)), defs);
    FragmentsAreWritten(defs);
  }

  // ---------------------------------------------------- fragments written out

  /** The selection set with every spread replaced by an inline fragment on the
      same type condition. A spread of a fragment already being expanded, or of
      none, selects nothing. */
  function Inlined(doc: Doc, sels: seq<Selection>, expanding: set<Name>): seq<Selection>
    decreases doc.fragments.Keys - expanding, SizeAll(sels), 1
  {
    if sels == [] then [] else [InlinedNode(doc, sels[0], expanding)] + Inlined(doc, sels[1..], expanding)
  }

  function InlinedNode(doc: Doc, node: Selection, expanding: set<Name>): Selection
    decreases doc.fragments.Keys - expanding, Size(node), 0
  {
    match node
    case Leaf(_, _) => node
    case Field(_, _, _, selections) => node.(selections := Inlined(doc, selections, expanding))
    case Inline(_, body) => node.(body := Inlined(doc, body, expanding))
    case Spread(name) =>
      if name in expanding || name !in doc.fragments then Inline(None, [])
      else Inline(Some(doc.fragments[name].condition), Inlined(doc, doc.fragments[name].body, expanding + {name}))
  }

  /** The cost of a selection set without spreads, node by node and no memo. */
  function PlainAll(schema: Schema, sels: seq<Selection>, parent: Option<Name>): Measurement
    decreases SizeAll(sels), 1
  {
    if sels == [] then NOTHING
    else Plus(PlainNode(schema, sels[0], parent), PlainAll(schema, sels[1..], parent))
  }

  function PlainNode(schema: Schema, node: Selection, parent: Option<Name>): Measurement
    decreases Size(node), 0
  {
    match node
    case Leaf(name, aliased) => Measurement(0, 1, if IsIntrospection(name) then 0 else 1, Count(aliased))
    case Field(name, aliased, arguments, selections) =>
      if IsIntrospection(name) then Measurement(0, 1, 0, Count(aliased))
      else
        var def := FieldDefinition(schema, parent, name);
        Enclosing(node, PageSize(arguments, def), PlainAll(schema, selections, FieldType(def)))
    case Inline(condition, body) => PlainAll(schema, body, ConditionType(condition, parent))
    case Spread(_) => NOTHING
  }

  /** Writing the spreads out never meets a fragment it is already inside. */
  predicate ExpandsFreely(doc: Doc, sels: seq<Selection>, expanding: set<Name>)
    decreases doc.fragments.Keys - expanding, SizeAll(sels), 1
  {
    sels == [] || (NodeExpandsFreely(doc, sels[0], expanding) && ExpandsFreely(doc, sels[1..], expanding))
  }

  predicate NodeExpandsFreely(doc: Doc, node: Selection, expanding: set<Name>)
    decreases doc.fragments.Keys - expanding, Size(node), 0
  {
    match node
    case Leaf(_, _) => true
    case Field(_, _, _, selections) => ExpandsFreely(doc, selections, expanding)
    case Inline(_, body) => ExpandsFreely(doc, body, expanding)
    case Spread(name) =>
      name in doc.fragments ==>
        name !in expanding && ExpandsFreely(doc, doc.fragments[name].body, expanding + {name})
  }

  /** No fragment spreads itself, directly or through others. */
  ghost predicate Acyclic(doc: Doc) {
    forall n :: n in doc.fragments ==> ExpandsFreely(doc, doc.fragments[n].body, {n})
  }

  lemma {:induction false} FreeUnderLess(doc: Doc, sels: seq<Selection>, more: set<Name>, less: set<Name>)
    requires less <= more && ExpandsFreely(doc, sels, more)
    ensures ExpandsFreely(doc, sels, less) && Inlined(doc, sels, less) == Inlined(doc, sels, more)
    decreases doc.fragments.Keys - less, SizeAll(sels), 1
  {
    if sels != [] {
      NodeFreeUnderLess(doc, sels[0], more, less);
      FreeUnderLess(doc, sels[1..], more, less);
    }
  }

  lemma {:induction false} NodeFreeUnderLess(doc: Doc, node: Selection, more: set<Name>, less: set<Name>)
    requires less <= more && NodeExpandsFreely(doc, node, more)
    ensures NodeExpandsFreely(doc, node, less) && InlinedNode(doc, node, less) == InlinedNode(doc, node, more)
    decreases doc.fragments.Keys - less, Size(node), 0
  {
    match node
    case Leaf(_, _) =>
    case Field(_, _, _, selections) => FreeUnderLess(doc, selections, more, less);
    case Inline(_, body) => FreeUnderLess(doc, body, more, less);
    case Spread(name) =>
      if name in doc.fragments {
        FreeUnderLess(doc, doc.fragments[name].body, more + {name}, less + {name});
      }
  }

  /** The measurement of a fragment written out. */
  function FragmentCost(doc: Doc, name: Name): Measurement
    requires name in doc.fragments
  {
    PlainAll(doc.schema, Inlined(doc, doc.fragments[name].body, {}), Some(doc.fragments[name].condition))
  }

  ghost predicate MemoIsExact(doc: Doc, memo: map<Name, Measurement>) {
    forall n :: n in memo ==> n in doc.fragments && memo[n] == FragmentCost(doc, n)
  }

  lemma {:induction false} WalkAllIsExact(doc: Doc, sels: seq<Selection>, parent: Option<Name>, memo: map<Name, Measurement>, expanding: set<Name>)
    requires Acyclic(doc) && MemoIsExact(doc, memo) && ExpandsFreely(doc, sels, expanding)
    ensures var w := WalkAll(doc, sels, parent, memo, expanding);
            MemoIsExact(doc, w.memo) && w.m == PlainAll(doc.schema, Inlined(doc, sels, {}), parent)
    decreases doc.fragments.Keys - expanding, SizeAll(sels), 1
  {
    if sels != [] {
      WalkNodeIsExact(doc, sels[0], parent, memo, expanding);
      WalkAllIsExact(doc, sels[1..], parent, WalkNode(doc, sels[0], parent, memo, expanding).memo, expanding);
      var rest := Inlined(doc, sels[1..], {});
      assert ([InlinedNode(doc, sels[0], {})] + rest)[1..] == rest;
    }
  }

  lemma {:induction false} WalkNodeIsExact(doc: Doc, node: Selection, parent: Option<Name>, memo: map<Name, Measurement>, expanding: set<Name>)
    requires Acyclic(doc) && MemoIsExact(doc, memo) && NodeExpandsFreely(doc, node, expanding)
    ensures var w := WalkNode(doc, node, parent, memo, expanding);
            MemoIsExact(doc, w.memo) && w.m == PlainNode(doc.schema, InlinedNode(doc, node, {}), parent)
    decreases doc.fragments.Keys - expanding, Size(node), 0
  {
    match node
    case Leaf(_, _) =>
    case Field(name, _, _, selections) =>
      WalkAllIsExact(doc, selections, FieldType(FieldDefinition(doc.schema, parent, name)), memo, expanding);
    case Inline(condition, body) =>
      WalkAllIsExact(doc, body, ConditionType(condition, parent), memo, expanding);
    case Spread(name) =>
      WalkSpreadIsExact(doc, name, memo, expanding);
  }

  lemma {:induction false} WalkSpreadIsExact(doc: Doc, name: Name, memo: map<Name, Measurement>, expanding: set<Name>)
    requires Acyclic(doc) && MemoIsExact(doc, memo) && NodeExpandsFreely(doc, Spread(name), expanding)
    ensures var w := WalkSpread(doc, name, memo, expanding);
            MemoIsExact(doc, w.memo) && w.m == PlainNode(doc.schema, InlinedNode(doc, Spread(name), {}), None)
    decreases doc.fragments.Keys - expanding, 0, 0
  {
    if name in doc.fragments {
      var fragment := doc.fragments[name];
      FreeUnderLess(doc, fragment.body, {name}, {});
      assert {} + {name} == {name};
      if name !in memo {
        WalkAllIsExact(doc, fragment.body, Some(fragment.condition), memo, expanding + {name});
      }
    }
  }

  lemma {:induction false} AcyclicIsFree(doc: Doc, sels: seq<Selection>)
    requires Acyclic(doc)
    ensures ExpandsFreely(doc, sels, {})
    decreases SizeAll(sels), 1
  {
    if sels != [] {
      AcyclicNodeIsFree(doc, sels[0]);
      AcyclicIsFree(doc, sels[1..]);
    }
  }

  lemma {:induction false} AcyclicNodeIsFree(doc: Doc, node: Selection)
    requires Acyclic(doc)
    ensures NodeExpandsFreely(doc, node, {})
    decreases Size(node), 0
  {
    match node
    case Leaf(_, _) =>
    case Field(_, _, _, selections) => AcyclicIsFree(doc, selections);
    case Inline(_, body) => AcyclicIsFree(doc, body);
    case Spread(name) => assert {} + {name} == {name};
  }

  /** What an operation costs with its fragments written out. */
  function OperationCost(doc: Doc, def: Definition): Measurement
    requires def.OperationDefinition?
  {
    PlainAll(doc.schema, Inlined(doc, def.selections, {}), RootType(doc.schema, def.kind))
  }

  function OperationCosts(doc: Doc, defs: seq<Definition>): seq<Measurement> {
    if defs == [] then []
    else
      var before := OperationCosts(doc, defs[..|defs| - 1]);
      if defs[|defs| - 1].OperationDefinition? then before + [OperationCost(doc, defs[|defs| - 1])] else before
  }

  /** On every document whose fragments are acyclic the shared memo changes no
      answer: each operation measures as the document written out. */
  lemma {:induction false} AuditIsExact(doc: Doc, defs: seq<Definition>)
    requires Acyclic(doc)
    ensures AuditOf(doc, defs).measures == OperationCosts(doc, defs)
    ensures MemoIsExact(doc, AuditOf(doc, defs).memo)
  {
    if defs != [] {
      var before := defs[..|defs| - 1];
      AuditIsExact(doc, before);
      match defs[|defs| - 1]
      case FragmentDefinition(_, _) =>
      case OperationDefinition(kind, selections) =>
        AcyclicIsFree(doc, selections);
        WalkAllIsExact(doc, selections, RootType(doc.schema, kind), AuditOf(doc, before).memo, {});
    }
  }

  /** `b` is `a` with any of its spreads, at any level, each replaced by an inline
      fragment on the same type condition, itself possibly so rewritten. */
  predicate Unfolds(doc: Doc, a: seq<Selection>, b: seq<Selection>)
    decreases SizeAll(b), 1
  {
    |a| == |b| && (b == [] || (NodeUnfolds(doc, a[0], b[0]) && Unfolds(doc, a[1..], b[1..])))
  }

  predicate NodeUnfolds(doc: Doc, a: Selection, b: Selection)
    decreases Size(b), 0
  {
    match b
    case Leaf(_, _) => a == b
    case Field(name, aliased, arguments, selections) =>
      a.Field? && a == b.(selections := a.selections) && Unfolds(doc, a.selections, selections)
    case Inline(condition, body) =>
      || (a.Inline? && a.condition == condition && Unfolds(doc, a.body, body))
      || (a.Spread? && a.fragment in doc.fragments && condition == Some(doc.fragments[a.fragment].condition)
          && Unfolds(doc, doc.fragments[a.fragment].body, body))
    case Spread(_) => a == b
  }

  lemma {:induction false} UnfoldingInlinesTheSame(doc: Doc, a: seq<Selection>, b: seq<Selection>)
    requires Acyclic(doc) && Unfolds(doc, a, b)
    ensures Inlined(doc, a, {}) == Inlined(doc, b, {})
    decreases SizeAll(b), 1
  {
    if b != [] {
      NodeUnfoldingInlinesTheSame(doc, a[0], b[0]);
      UnfoldingInlinesTheSame(doc, a[1..], b[1..]);
    }
  }

  lemma {:induction false} NodeUnfoldingInlinesTheSame(doc: Doc, a: Selection, b: Selection)
    requires Acyclic(doc) && NodeUnfolds(doc, a, b)
    ensures InlinedNode(doc, a, {}) == InlinedNode(doc, b, {})
    decreases Size(b), 0
  {
    match b
    case Leaf(_, _) =>
    case Field(_, _, _, selections) => UnfoldingInlinesTheSame(doc, a.selections, selections);
    case Inline(_, body) =>
      if a.Inline? {
        UnfoldingInlinesTheSame(doc, a.body, body);
      } else {
        UnfoldingInlinesTheSame(doc, doc.fragments[a.fragment].body, body);
        FreeUnderLess(doc, doc.fragments[a.fragment].body, {a.fragment}, {});
        assert {} + {a.fragment} == {a.fragment};
      }
    case Spread(_) =>
  }

  /** Moving selections out of a named fragment into inline ones, anywhere and
      from whatever the memo holds, changes none of the four numbers. */
  lemma SpreadsCostWhatInlineFragmentsCost(doc: Doc, a: seq<Selection>, b: seq<Selection>, parent: Option<Name>, memo: map<Name, Measurement>)
    requires Acyclic(doc) && Unfolds(doc, a, b) && MemoIsExact(doc, memo)
    ensures WalkAll(doc, a, parent, memo, {}).m == WalkAll(doc, b, parent, memo, {}).m
  {
    AcyclicIsFree(doc, a);
    AcyclicIsFree(doc, b);
    WalkAllIsExact(doc, a, parent, memo, {});
    WalkAllIsExact(doc, b, parent, memo, {});
    UnfoldingInlinesTheSame(doc, a, b);
  }

  lemma WalkStep(doc: Doc, sels: seq<Selection>, head: Selection, tail: seq<Selection>, parent: Option<Name>,
                 memo: map<Name, Measurement>, expanding: set<Name>)
    requires sels == [head] + tail
    ensures var first := WalkNode(doc, head, parent, memo, expanding);
            WalkAll(doc, sels, parent, memo, expanding) == Then(first, WalkAll(doc, tail, parent, first.memo, expanding))
  {
    assert sels[0] == head && sels[1..] == tail;
  }

  lemma {:induction false} WalkJoins(doc: Doc, a: seq<Selection>, b: seq<Selection>, parent: Option<Name>, memo: map<Name, Measurement>, expanding: set<Name>)
    ensures var first := WalkAll(doc, a, parent, memo, expanding);
            WalkAll(doc, a + b, parent, memo, expanding) == Then(first, WalkAll(doc, b, parent, first.memo, expanding))
    decreases |a|
  {
    if a == [] {
      var rest := WalkAll(doc, b, parent, memo, expanding);
      assert a + b == b && [] + rest.starts == rest.starts;
    } else {
      var head, tail := a[0], a[1..];
      var node := WalkNode(doc, head, parent, memo, expanding);
      assert a == [head] + tail && a + b == [head] + (tail + b);
      WalkStep(doc, a, head, tail, parent, memo, expanding);
      WalkStep(doc, a + b, head, tail + b, parent, memo, expanding);
      WalkJoins(doc, tail, b, parent, node.memo, expanding);
      var more := WalkAll(doc, tail, parent, node.memo, expanding);
      ThenThen(node, more, WalkAll(doc, b, parent, more.memo, expanding));
    }
  }

  lemma ThenNothing(w: Walked)
    ensures Then(w, Walked(NOTHING, w.memo, 0, [])) == w
  {
    assert w.starts + [] == w.starts;
  }

  lemma WrappedBody(doc: Doc, wrapped: seq<Selection>, condition: Option<Name>, body: seq<Selection>, parent: Option<Name>,
                    memo: map<Name, Measurement>, expanding: set<Name>)
    requires wrapped == [Inline(condition, body)] && ConditionType(condition, parent) == parent
    ensures var w, plain := WalkAll(doc, wrapped, parent, memo, expanding), WalkAll(doc, body, parent, memo, expanding);
            w.m == plain.m && w.memo == plain.memo && w.starts == plain.starts
  {
    var node := WalkNode(doc, wrapped[0], parent, memo, expanding);
    assert wrapped[1..] == [];
    ThenNothing(node);
  }

  /** Wrapping selections in an inline fragment of the type they are already on
      buys a client nothing: on every document, from whatever the memo holds, the
      four numbers, the memo and the fragments measured are the same. */
  lemma WrappingCostsNothing(doc: Doc, before: seq<Selection>, condition: Option<Name>, body: seq<Selection>, after: seq<Selection>,
                             parent: Option<Name>, memo: map<Name, Measurement>, expanding: set<Name>)
    requires ConditionType(condition, parent) == parent
    ensures var w := WalkAll(doc, before + ([Inline(condition, body)] + after), parent, memo, expanding);
            var plain := WalkAll(doc, before + (body + after), parent, memo, expanding);
            w.m == plain.m && w.memo == plain.memo && w.starts == plain.starts
  {
    var wrapped := [Inline(condition, body)];
    var first := WalkAll(doc, before, parent, memo, expanding);
    WalkJoins(doc, before, wrapped + after, parent, memo, expanding);
    WalkJoins(doc, before, body + after, parent, memo, expanding);
    WalkJoins(doc, wrapped, after, parent, first.memo, expanding);
    WalkJoins(doc, body, after, parent, first.memo, expanding);
    WrappedBody(doc, wrapped, condition, body, parent, first.memo, expanding);
  }

  /** So a named fragment on the type it is spread in costs what its selections
      cost written out in its place. */
  lemma SpreadCostsItsBody(doc: Doc, before: seq<Selection>, name: Name, after: seq<Selection>, memo: map<Name, Measurement>)
    requires Acyclic(doc) && MemoIsExact(doc, memo) && name in doc.fragments
    ensures var fragment := doc.fragments[name];
            WalkAll(doc, before + ([Spread(name)] + after), Some(fragment.condition), memo, {}).m
            == WalkAll(doc, before + (fragment.body + after), Some(fragment.condition), memo, {}).m
  {
    var fragment := doc.fragments[name];
    var a, b := before + ([Spread(name)] + after), before + ([Inline(Some(fragment.condition), fragment.body)] + after);
    UnfoldsItself(doc, before);
    UnfoldsItself(doc, after);
    UnfoldsItself(doc, fragment.body);
    UnfoldsOne(doc, [Spread(name)], [Inline(Some(fragment.condition), fragment.body)]);
    UnfoldsJoined(doc, [Spread(name)], [Inline(Some(fragment.condition), fragment.body)], after, after);
    UnfoldsJoined(doc, before, before, [Spread(name)] + after, [Inline(Some(fragment.condition), fragment.body)] + after);
    SpreadsCostWhatInlineFragmentsCost(doc, a, b, Some(fragment.condition), memo);
    WrappingCostsNothing(doc, before, Some(fragment.condition), fragment.body, after, Some(fragment.condition), memo, {});
  }

  lemma {:induction false} UnfoldsItself(doc: Doc, a: seq<Selection>)
    ensures Unfolds(doc, a, a)
    decreases SizeAll(a), 1
  {
    if a != [] {
      NodeUnfoldsItself(doc, a[0]);
      UnfoldsItself(doc, a[1..]);
    }
  }

  lemma {:induction false} NodeUnfoldsItself(doc: Doc, a: Selection)
    ensures NodeUnfolds(doc, a, a)
    decreases Size(a), 0
  {
    match a
    case Field(_, _, _, selections) => UnfoldsItself(doc, selections);
    case Inline(_, body) => UnfoldsItself(doc, body);
    case _ =>
  }

  lemma UnfoldsOne(doc: Doc, a: seq<Selection>, b: seq<Selection>)
    requires |a| == |b| == 1 && NodeUnfolds(doc, a[0], b[0])
    ensures Unfolds(doc, a, b)
  {
    assert a[1..] == [] && b[1..] == [];
  }

  lemma UnfoldsStep(doc: Doc, x: Selection, y: Selection, a: seq<Selection>, b: seq<Selection>)
    requires NodeUnfolds(doc, x, y) && Unfolds(doc, a, b)
    ensures Unfolds(doc, [x] + a, [y] + b)
  {
    assert ([x] + a)[1..] == a && ([y] + b)[1..] == b;
  }

  lemma {:induction false} UnfoldsJoined(doc: Doc, a: seq<Selection>, b: seq<Selection>, c: seq<Selection>, d: seq<Selection>)
    requires Unfolds(doc, a, b) && Unfolds(doc, c, d)
    ensures Unfolds(doc, a + c, b + d)
    decreases |a|
  {
    if a == [] {
      assert a + c == c && b + d == d;
    } else {
      UnfoldsJoined(doc, a[1..], b[1..], c, d);
      UnfoldsStep(doc, a[0], b[0], a[1..] + c, b[1..] + d);
      assert a + c == [a[0]] + (a[1..] + c) && b + d == [b[0]] + (b[1..] + d);
    }
  }

  // ---------------------------------------------------------- what it charges

  /** Each leaf charged the product of the page sizes of the fields around it. */
  function LeafCharges(schema: Schema, sels: seq<Selection>, parent: Option<Name>, weight: nat): nat
    decreases SizeAll(sels), 1
  {
    if sels == [] then 0
    else LeafCharge(schema, sels[0], parent, weight) + LeafCharges(schema, sels[1..], parent, weight)
  }

  function LeafCharge(schema: Schema, node: Selection, parent: Option<Name>, weight: nat): nat
    decreases Size(node), 0
  {
    match node
    case Leaf(name, _) => if IsIntrospection(name) then 0 else weight
    case Field(name, _, arguments, selections) =>
      if IsIntrospection(name) then 0
      else
        var def := FieldDefinition(schema, parent, name);
        LeafCharges(schema, selections, FieldType(def), weight * PageSize(arguments, def))
    case Inline(condition, body) => LeafCharges(schema, body, ConditionType(condition, parent), weight)
    case Spread(_) => 0
  }

  lemma {:induction false} ComplexityIsLeafCharges(schema: Schema, sels: seq<Selection>, parent: Option<Name>, weight: nat)
    ensures LeafCharges(schema, sels, parent, weight) == weight * PlainAll(schema, sels, parent).complexity
    decreases SizeAll(sels), 1
  {
    if sels != [] {
      NodeComplexityIsLeafCharges(schema, sels[0], parent, weight);
      ComplexityIsLeafCharges(schema, sels[1..], parent, weight);
      Distribute(weight, PlainNode(schema, sels[0], parent).complexity, PlainAll(schema, sels[1..], parent).complexity);
    }
  }

  lemma {:induction false} NodeComplexityIsLeafCharges(schema: Schema, node: Selection, parent: Option<Name>, weight: nat)
    ensures LeafCharge(schema, node, parent, weight) == weight * PlainNode(schema, node, parent).complexity
    decreases Size(node), 0
  {
    match node
    case Leaf(_, _) =>
    case Field(name, _, arguments, selections) =>
      if !IsIntrospection(name) {
        var def := FieldDefinition(schema, parent, name);
        var page := PageSize(arguments, def);
        ComplexityIsLeafCharges(schema, selections, FieldType(def), weight * page);
        Regroup(weight, page, PlainAll(schema, selections, FieldType(def)).complexity);
      }
    case Inline(condition, body) => ComplexityIsLeafCharges(schema, body, ConditionType(condition, parent), weight);
    case Spread(_) =>
  }

  lemma Distribute(w: nat, a: nat, b: nat)
    ensures w * (a + b) == w * a + w * b
  {}

  lemma Regroup(w: nat, p: nat, c: nat)
    ensures (w * p) * c == w * (p * c)
  {}

  // ---------------------------------------------------------- why it memoises

  /** Nodes the same walk visits when it remembers nothing. */
  function NaiveVisits(doc: Doc, sels: seq<Selection>, expanding: set<Name>): nat
    decreases doc.fragments.Keys - expanding, SizeAll(sels), 1
  {
    if sels == [] then 0 else NaiveNode(doc, sels[0], expanding) + NaiveVisits(doc, sels[1..], expanding)
  }

  function NaiveNode(doc: Doc, node: Selection, expanding: set<Name>): nat
    decreases doc.fragments.Keys - expanding, Size(node), 0
  {
    match node
    case Leaf(_, _) => 1
    case Field(name, _, _, selections) => if IsIntrospection(name) then 1 else 1 + NaiveVisits(doc, selections, expanding)
    case Inline(_, body) => 1 + NaiveVisits(doc, body, expanding)
    case Spread(name) =>
      if name in expanding || name !in doc.fragments then 1
      else 1 + NaiveVisits(doc, doc.fragments[name].body, expanding + {name})
  }

  function Pow2(n: nat): nat { if n == 0 then 1 else 2 * Pow2(n - 1) }

  /** The i-th fragment's name. */
  function Link(i: nat): Name { seq(i + 1, _ => 'f') }

  /** Fragments that each spread the next one twice, `n` of them over a last. */
  function Links(n: nat): seq<Definition> {
    if n == 0 then [FragmentDefinition(Link(0), Fragment("T", [Leaf("id", false)]))]
    else Links(n - 1) + [FragmentDefinition(Link(n), Fragment("T", [Spread(Link(n - 1)), Spread(Link(n - 1))]))]
  }

  function Doubling(n: nat): seq<Definition> {
    Links(n) + [OperationDefinition(Query, [Spread(Link(n))])]
  }

  lemma {:induction false} LinksDefine(n: nat, i: nat)
    requires i <= n
    ensures Link(i) in FragmentsOf(Links(n))
    ensures i > 0 ==> FragmentsOf(Links(n))[Link(i)].body == [Spread(Link(i - 1)), Spread(Link(i - 1))]
    ensures i == 0 ==> FragmentsOf(Links(n))[Link(i)].body == [Leaf("id", false)]
  {
    assert |Link(i)| == i + 1 && |Link(n)| == n + 1;
    if n > 0 {
      var last := Links(n)[|Links(n)| - 1];
      assert Links(n)[..|Links(n)| - 1] == Links(n - 1) && last.name == Link(n);
      if i < n { LinksDefine(n - 1, i); }
    } else {
      assert Links(0)[..0] == [];
    }
  }

  lemma {:induction false} LinksAreFew(n: nat)
    ensures NodeCount(Links(n)) == 2 * n + 1
  {
    if n > 0 {
      LinksAreFew(n - 1);
      assert Links(n)[..|Links(n)| - 1] == Links(n - 1);
      assert SizeAll([Spread(Link(n - 1)), Spread(Link(n - 1))]) == 2;
    } else {
      assert Links(0)[..0] == [];
      assert SizeAll([Leaf("id", false)]) == 1;
    }
  }

  lemma {:induction false} NaiveDoubles(doc: Doc, n: nat, i: nat, expanding: set<Name>)
    requires doc.fragments == FragmentsOf(Links(n)) && i <= n
    requires forall k: nat :: k <= i ==> Link(k) !in expanding
    ensures NaiveNode(doc, Spread(Link(i)), expanding) >= Pow2(i)
    decreases i
  {
    LinksDefine(n, i);
    if i > 0 {
      var within := expanding + {Link(i)};
      forall k: nat | k <= i - 1 ensures Link(k) !in within { assert |Link(k)| != |Link(i)|; }
      NaiveDoubles(doc, n, i - 1, within);
      var body := [Spread(Link(i - 1)), Spread(Link(i - 1))];
      var tail := [Spread(Link(i - 1))];
      assert body[1..] == tail && tail[1..] == [];
      assert NaiveVisits(doc, tail, within) == NaiveNode(doc, tail[0], within);
      assert NaiveVisits(doc, body, within) == 2 * NaiveNode(doc, Spread(Link(i - 1)), within);
    }
  }

  /** The doubling document costs a walk without a memo 2^n visits, and this one
      at most the 2n + 2 nodes it is written in. */
  lemma MemoPaysForItself(schema: Schema, n: nat)
    ensures var defs := Doubling(n);
            var doc := Doc(schema, FragmentsOf(defs));
            && NaiveVisits(doc, [Spread(Link(n))], {}) >= Pow2(n)
            && AuditOf(doc, defs).visits <= 2 * n + 2
  {
    var defs := Doubling(n);
    var doc := Doc(schema, FragmentsOf(defs));
    assert defs[..|defs| - 1] == Links(n);
    NaiveDoubles(doc, n, n, {});
    assert [Spread(Link(n))][1..] == [];
    LinksAreFew(n);
    assert SizeAll([Spread(Link(n))]) == 1;
    AuditIsLinear(schema, defs);
  }

  // ----------------------------------------------------------------- the rule

  datatype BudgetError = TooDeep(n: nat) | TooManyAliases(n: nat) | TooManySelections(n: nat) | TooComplex(n: nat)

  /** Every budget one operation broke, not just the first. */
  function Report(m: Measurement): seq<BudgetError> {
    (if m.depth > MAX_DEPTH then [TooDeep(m.depth)] else [])
    + (if m.aliases > MAX_ALIASES then [TooManyAliases(m.aliases)] else [])
    + (if m.selections > MAX_SELECTIONS then [TooManySelections(m.selections)] else [])
    + (if m.complexity > MAX_COMPLEXITY then [TooComplex(m.complexity)] else [])
  }

  function Reports(measures: seq<Measurement>): seq<BudgetError> {
    if measures == [] then [] else Reports(measures[..|measures| - 1]) + Report(measures[|measures| - 1])
  }

  predicate WithinBudgets(m: Measurement) {
    m.depth <= MAX_DEPTH && m.aliases <= MAX_ALIASES && m.selections <= MAX_SELECTIONS && m.complexity <= MAX_COMPLEXITY
  }

  lemma {:induction false} SilentIffWithinBudgets(measures: seq<Measurement>)
    ensures Reports(measures) == [] <==> forall m :: m in measures ==> WithinBudgets(m)
  {
    if measures != [] {
      var before, last := measures[..|measures| - 1], measures[|measures| - 1];
      SilentIffWithinBudgets(before);
      assert measures == before + [last];
      assert Report(last) == [] <==> WithinBudgets(last);
    }
  }

  /** The rule's constructor: one walk object over all the operations. An acyclic
      document passes exactly when every operation, written out, is in budget. */
  method CheckDocument(schema: Schema, defs: seq<Definition>) returns (errors: seq<BudgetError>, ghost visits: nat, ghost starts: seq<Name>)
    ensures errors == Reports(AuditOf(Doc(schema, FragmentsOf(defs)), defs).measures)
    ensures visits <= NodeCount(defs) && Distinct(starts)
    ensures Acyclic(Doc(schema, FragmentsOf(defs))) ==>
            (errors == [] <==> forall m :: m in OperationCosts(Doc(schema, FragmentsOf(defs)), defs) ==> WithinBudgets(m))
  {
    var doc := Doc(schema, FragmentsOf(defs));
    var walk := new Walk(doc);
    errors := [];
    var i := 0;
    while i < |defs|
      invariant 0 <= i <= |defs|
      invariant walk.measured == AuditOf(doc, defs[..i]).memo
      invariant walk.visits == AuditOf(doc, defs[..i]).visits && walk.starts == AuditOf(doc, defs[..i]).starts
      invariant errors == Reports(AuditOf(doc, defs[..i]).measures)
    {
      assert defs[..i + 1][..i] == defs[..i];
      match defs[i] {
        case FragmentDefinition(_, _) =>
        case OperationDefinition(kind, selections) =>
          ghost var before := AuditOf(doc, defs[..i]).measures;
          var m := walk.Measure(selections, RootType(schema, kind), {});
          assert (before + [m])[..|before|] == before;
          errors := errors + Report(m);
      }
      i := i + 1;
    }
    assert defs[..i] == defs;
    visits, starts := walk.visits, walk.starts;
    AuditIsLinear(schema, defs);
    SilentIffWithinBudgets(AuditOf(doc, defs).measures);
    if Acyclic(doc) { AuditIsExact(doc, defs); }
  }
}
