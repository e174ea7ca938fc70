/**
 The contract of `Template::variables`: rendering with values cut down to the reported
 needs writes the same text, or declines for the same reason, as rendering with the full
 values.
 */
module LiquidusSoundness {
  import opened Common
  import opened LiquidusSyntax
  import opened LiquidusGrammar
  import opened LiquidusDemand
  import opened LiquidusMerge
  import opened LiquidusRender

  /** `compile`: parse, then merge what was recorded. */
  function Compile(source: string, lookup: string -> Option<string>): Res<Template> {
    var p :- ParseTemplate(source, lookup);
    Ok(Template(p.nodes, Merge(p.needs)))
  }

  // ---- what an embedder may leave out ----

  /** A loop item may lose the fields nobody reads. */
  predicate CutItem(v: LValue, c: LValue, fields: seq<string>) {
    if v.Map? then c.Map? && forall f | f in fields :: c.FieldOrNil(f) == v.FieldOrNil(f) else c == v
  }

  /** An array may lose everything behind the reported prefix. */
  predicate CutValue(v: LValue, c: LValue, n: VarNeed) {
    if v.Array? then
      && c.Array?
      && |c.items| <= |v.items|
      && (if n.slice.None? then |c.items| == |v.items| else Min(n.slice.value, |v.items|) <= |c.items|)
      && forall i | 0 <= i < |c.items| :: CutItem(v.items[i], c.items[i], n.fields)
    else c == v
  }

  /** The size of the value at `path` as `values` shows it: by a companion, or by the value itself. */
  function ShownSize(values: Values, path: string): Res<LValue>
    requires path in values
  {
    if SizeKey(path) in values && values[SizeKey(path)].Int? then Ok(values[SizeKey(path)]) else SizeOf(values[path])
  }

  predicate PathCut(n: VarNeed, full: Values, cut: Values) {
    && (n.path in full <==> n.path in cut)
    && (n.path in full ==>
          && CutValue(full[n.path], cut[n.path], n)
          && (n.needSize ==> ShownSize(cut, n.path) == ShownSize(full, n.path)))
  }

  predicate CutTo(needs: seq<VarNeed>, full: Values, cut: Values) {
    forall i | 0 <= i < |needs| :: PathCut(needs[i], full, cut)
  }

  // ---- the uses the analysis does not record ----

  predicate BareItem(e: Expr) {
    e.Var? && e.ref.Loop? && e.ref.field.None?
  }

  predicate ExprAvoidsItemSize(e: Expr) {
    BareItem(e) ==> !e.ref.loopSize
  }

  /** Nowhere is the size of a bare loop item read. */
  predicate NoItemSize(nodes: seq<Node>) {
    nodes == [] ||
    (&& NoItemSize(nodes[1..])
     && match nodes[0]
        case Text(_) => true
        case Output(e, fs) => ExprAvoidsItemSize(e) && (BareItem(e) && fs != [] ==> fs[0].name != "size")
        case If(Truthy(e), body) => ExprAvoidsItemSize(e) && NoItemSize(body)
        case If(Compare(l, _, r), body) => ExprAvoidsItemSize(l) && ExprAvoidsItemSize(r) && NoItemSize(body)
        case For(_, _, _, body) => NoItemSize(body))
  }

  // ---- values that behave alike ----

  predicate Alike(a: LValue, b: LValue) {
    || a == b
    || (a.Array? && b.Array? && |a.items| == |b.items|)
    || (a.Map? && b.Map?)
  }

  function Write(ft: FilterTable, fs: seq<FilterCall>, v: LValue): Res<string> {
    var w :- ApplyFilters(ft, fs, v);
    WriteValue(w)
  }

  lemma AlikeWrite(ft: FilterTable, fs: seq<FilterCall>, a: LValue, b: LValue)
    requires Alike(a, b)
    requires a.Map? && a != b && fs != [] ==> fs[0].name != "size"
    ensures Write(ft, fs, a) == Write(ft, fs, b)
  {
    if a != b && fs != [] {
      assert ApplyFilter(ft, fs[0], a) == ApplyFilter(ft, fs[0], b);
    }
  }

  /** A use that is served is served by one listed need, which is the whole demand on its path. */
  lemma Witness(needs: seq<VarNeed>, u: Use) returns (i: nat)
    requires DistinctPaths(needs) && Served(needs, u)
    ensures i < |needs| && needs[i].path == u.path && DemandOf(needs, u.path) == Some(OfNeed(needs[i]))
  {
    NoDemand(needs, u.path);
    i :| i < |needs| && needs[i].path == u.path;
    NeedIsDemand(needs, i);
  }

  /** Both frame stacks bind the same loops, to items cut to the fields of their collection's need. */
  predicate FramesMatch(needs: seq<VarNeed>, loops: seq<Binding>, ff: seq<Frame>, fc: seq<Frame>) {
    && |loops| == |ff| == |fc|
    && forall i | 0 <= i < |loops| ::
         && ff[i].variable == fc[i].variable == loops[i].variable
         && ItemMatch(needs, loops[i].collection, ff[i].item, fc[i].item)
  }

  predicate ItemMatch(needs: seq<VarNeed>, collection: string, v: LValue, c: LValue) {
    forall j | 0 <= j < |needs| :: needs[j].path == collection ==> CutItem(v, c, needs[j].fields)
  }

  lemma {:induction false} FramesAgree(needs: seq<VarNeed>, loops: seq<Binding>, ff: seq<Frame>, fc: seq<Frame>, name: string)
    requires FramesMatch(needs, loops, ff, fc) && InnermostBinding(loops, name).Some?
    ensures InnermostFrame(ff, name).Some? && InnermostFrame(fc, name).Some?
    ensures ItemMatch(needs, InnermostBinding(loops, name).value, InnermostFrame(ff, name).value, InnermostFrame(fc, name).value)
  {
    if Last(loops).variable != name {
      assert forall i | 0 <= i < |loops| - 1 :: Front(loops)[i] == loops[i] && Front(ff)[i] == ff[i] && Front(fc)[i] == fc[i];
      FramesAgree(needs, Front(loops), Front(ff), Front(fc), name);
    }
  }

  predicate SameKind<T(==)>(a: Res<T>, b: Res<T>) {
    a.Ok? == b.Ok? && (a.Err? ==> a == b)
  }

  lemma EvalAlike(needs: seq<VarNeed>, loops: seq<Binding>, e: Expr, full: Values, cut: Values, ff: seq<Frame>, fc: seq<Frame>)
    requires DistinctPaths(needs) && CutTo(needs, full, cut) && FramesMatch(needs, loops, ff, fc)
    requires forall b | b in loops :: DemandOf(needs, b.collection).Some?
    requires ExprCovered(needs, loops, e) && ExprAvoidsItemSize(e)
    ensures var a, b := Eval(full, ff, e), Eval(cut, fc, e);
            SameKind(a, b) && (a.Ok? ==> Alike(a.value, b.value) && (a.value.Map? && a != b ==> BareItem(e)))
  {
    match e
    case Var(Supplied(p, size)) =>
      var i := Witness(needs, if size then SizeUse(p) else ValueUse(p));
      assert PathCut(needs[i], full, cut);
    case Var(Loop(v, field, size)) =>
      FramesAgree(needs, loops, ff, fc, v);
      var c := InnermostBinding(loops, v).value;
      if field.Some? {
        var i := Witness(needs, FieldUse(c, field.value));
        assert CutItem(InnermostFrame(ff, v).value, InnermostFrame(fc, v).value, needs[i].fields);
      } else {
        InnermostIn(loops, v);
        NoDemand(needs, c);
        var i :| 0 <= i < |needs| && needs[i].path == c;
        assert CutItem(InnermostFrame(ff, v).value, InnermostFrame(fc, v).value, needs[i].fields);
      }
    case _ =>
  }

  lemma CondAlike(needs: seq<VarNeed>, loops: seq<Binding>, c: Cond, full: Values, cut: Values, ff: seq<Frame>, fc: seq<Frame>)
    requires DistinctPaths(needs) && CutTo(needs, full, cut) && FramesMatch(needs, loops, ff, fc)
    requires forall b | b in loops :: DemandOf(needs, b.collection).Some?
    requires CondCovered(needs, loops, c)
    requires match c case Truthy(e) => ExprAvoidsItemSize(e) case Compare(l, _, r) => ExprAvoidsItemSize(l) && ExprAvoidsItemSize(r)
    ensures EvalCond(full, ff, c) == EvalCond(cut, fc, c)
  {
    hide DistinctPaths, CutTo, FramesMatch, DemandOf, ExprCovered, Eval;
    match c
    case Truthy(e) =>
      EvalAlike(needs, loops, e, full, cut, ff, fc);
    case Compare(l, op, r) =>
      EvalAlike(needs, loops, l, full, cut, ff, fc);
      EvalAlike(needs, loops, r, full, cut, ff, fc);
  }

  lemma LoopItemsMatch(needs: seq<VarNeed>, collection: string, limit: Option<nat>, full: Values, cut: Values)
    requires DistinctPaths(needs) && CutTo(needs, full, cut) && Served(needs, LoopUse(collection, limit))
    ensures var a, b := LoopItems(full, collection, limit), LoopItems(cut, collection, limit);
            && SameKind(a, b)
            && (a.Ok? ==>
                  && |a.value| == |b.value|
                  && forall i | 0 <= i < |a.value| :: ItemMatch(needs, collection, a.value[i], b.value[i]))
    ensures DemandOf(needs, collection).Some?
  {
    var w := Witness(needs, LoopUse(collection, limit));
    assert PathCut(needs[w], full, cut);
    var a, b := LoopItems(full, collection, limit), LoopItems(cut, collection, limit);
    if a.Ok? && full[collection].Array? {
      forall i | 0 <= i < |a.value| ensures ItemMatch(needs, collection, a.value[i], b.value[i]) {
        assert a.value[i] == full[collection].items[i] && b.value[i] == cut[collection].items[i];
      }
    }
  }

  lemma OutputAlike(ft: FilterTable, needs: seq<VarNeed>, loops: seq<Binding>, e: Expr, fs: seq<FilterCall>,
                    full: Values, cut: Values, ff: seq<Frame>, fc: seq<Frame>)
    requires DistinctPaths(needs) && CutTo(needs, full, cut) && FramesMatch(needs, loops, ff, fc)
    requires forall b | b in loops :: DemandOf(needs, b.collection).Some?
    requires ExprCovered(needs, loops, e) && ExprAvoidsItemSize(e) && (BareItem(e) && fs != [] ==> fs[0].name != "size")
    ensures RenderNode(ft, full, Output(e, fs), ff) == RenderNode(ft, cut, Output(e, fs), fc)
  {
    hide Eval, DistinctPaths, CutTo, FramesMatch, DemandOf, ExprCovered, ApplyFilters, WriteValue, Alike;
    EvalAlike(needs, loops, e, full, cut, ff, fc);
    var a, b := Eval(full, ff, e), Eval(cut, fc, e);
    if a.Ok? {
      AlikeWrite(ft, fs, a.value, b.value);
      assert RenderNode(ft, full, Output(e, fs), ff) == Write(ft, fs, a.value);
      assert RenderNode(ft, cut, Output(e, fs), fc) == Write(ft, fs, b.value);
    }
  }

  lemma IfAlike(ft: FilterTable, c: Cond, body: seq<Node>, full: Values, cut: Values, ff: seq<Frame>, fc: seq<Frame>)
    requires EvalCond(full, ff, c) == EvalCond(cut, fc, c)
    requires RenderNodes(ft, full, body, ff) == RenderNodes(ft, cut, body, fc)
    ensures RenderNode(ft, full, If(c, body), ff) == RenderNode(ft, cut, If(c, body), fc)
  {
    hide EvalCond, RenderNodes;
  }

  lemma ForAlike(ft: FilterTable, v: string, collection: string, limit: Option<nat>, body: seq<Node>,
                 full: Values, cut: Values, ff: seq<Frame>, fc: seq<Frame>)
    requires var a, b := LoopItems(full, collection, limit), LoopItems(cut, collection, limit);
             && SameKind(a, b)
             && (a.Ok? ==> RenderItems(ft, full, v, a.value, body, ff) == RenderItems(ft, cut, v, b.value, body, fc))
    ensures RenderNode(ft, full, For(v, collection, limit, body), ff) == RenderNode(ft, cut, For(v, collection, limit, body), fc)
  {
    hide LoopItems, RenderItems;
  }

  lemma FirstThenRest(ft: FilterTable, nodes: seq<Node>, full: Values, cut: Values, ff: seq<Frame>, fc: seq<Frame>)
    requires nodes != [] && RenderNode(ft, full, nodes[0], ff) == RenderNode(ft, cut, nodes[0], fc)
    requires RenderNodes(ft, full, nodes[1..], ff) == RenderNodes(ft, cut, nodes[1..], fc)
    ensures RenderNodes(ft, full, nodes, ff) == RenderNodes(ft, cut, nodes, fc)
  {
    hide RenderNode;
  }

  lemma {:induction false} RenderAlike(ft: FilterTable, needs: seq<VarNeed>, loops: seq<Binding>, nodes: seq<Node>,
                                       full: Values, cut: Values, ff: seq<Frame>, fc: seq<Frame>)
    requires DistinctPaths(needs) && CutTo(needs, full, cut) && FramesMatch(needs, loops, ff, fc)
    requires forall b | b in loops :: DemandOf(needs, b.collection).Some?
    requires NodesCovered(needs, loops, nodes) && NoItemSize(nodes)
    ensures RenderNodes(ft, full, nodes, ff) == RenderNodes(ft, cut, nodes, fc)
    decreases nodes, 0
  {
    hide DistinctPaths, CutTo, FramesMatch, DemandOf, ExprCovered, CondCovered, Served, EvalCond, RenderItems, LoopItems, ItemMatch;
    if nodes == [] {
    } else {
      RenderAlike(ft, needs, loops, nodes[1..], full, cut, ff, fc);
      match nodes[0]
      case Text(_) =>
      case Output(e, fs) => OutputAlike(ft, needs, loops, e, fs, full, cut, ff, fc);
      case If(c, body) =>
        CondAlike(needs, loops, c, full, cut, ff, fc);
        RenderAlike(ft, needs, loops, body, full, cut, ff, fc);
        IfAlike(ft, c, body, full, cut, ff, fc);
      case For(v, collection, limit, body) =>
        LoopItemsMatch(needs, collection, limit, full, cut);
        var a, b := LoopItems(full, collection, limit), LoopItems(cut, collection, limit);
        if a.Ok? {
          ItemsAlike(ft, needs, loops, Binding(v, collection), a.value, b.value, body, full, cut, ff, fc);
        }
        ForAlike(ft, v, collection, limit, body, full, cut, ff, fc);
    }
  }

  lemma {:induction false} ItemsAlike(ft: FilterTable, needs: seq<VarNeed>, loops: seq<Binding>, here: Binding,
                                      xs: seq<LValue>, ys: seq<LValue>, body: seq<Node>,
                                      full: Values, cut: Values, ff: seq<Frame>, fc: seq<Frame>)
    requires DistinctPaths(needs) && CutTo(needs, full, cut) && FramesMatch(needs, loops, ff, fc)
    requires forall b | b in loops + [here] :: DemandOf(needs, b.collection).Some?
    requires NodesCovered(needs, loops + [here], body) && NoItemSize(body)
    requires |xs| == |ys| && forall i | 0 <= i < |xs| :: ItemMatch(needs, here.collection, xs[i], ys[i])
    ensures RenderItems(ft, full, here.variable, xs, body, ff) == RenderItems(ft, cut, here.variable, ys, body, fc)
    decreases body, 1 + |xs|
  {
    if xs == [] {
    } else {
      RenderAlike(ft, needs, loops + [here], body, full, cut, ff + [Frame(here.variable, xs[0])], fc + [Frame(here.variable, ys[0])]);
      ItemsAlike(ft, needs, loops, here, xs[1..], ys[1..], body, full, cut, ff, fc);
    }
  }

  /** Merging the recorded needs loses no use. */
  lemma MergeCovers(needs: seq<VarNeed>, nodes: seq<Node>)
    requires NodesCovered(needs, [], nodes)
    ensures NodesCovered(Merge(needs), [], nodes) && DistinctPaths(Merge(needs))
  {
    forall p ensures DemandLe(DemandOf(needs, p), DemandOf(Merge(needs), p)) {
      MergeExact(needs, p);
    }
    MergeExact(needs, "");
    NodesGrow(needs, Merge(needs), [], nodes);
  }

  /** What `compile` reports covers everything the compiled nodes read. */
  lemma CompileCovers(source: string, lookup: string -> Option<string>)
    requires Compile(source, lookup).Ok?
    requires ConsistentLoops([], Compile(source, lookup).value.nodes)
    ensures var t := Compile(source, lookup).value;
            NodesCovered(t.needs, [], t.nodes) && SortedPaths(t.needs) && DistinctPaths(t.needs)
  {
    var toks := Lex(source).value;
    ParseNodesCovers(TopScope(lookup), toks, None, []);
    var p := ParseTemplate(source, lookup).value;
    MergeCovers(p.needs, p.nodes);
    MergeExact(p.needs, "");
  }

  /** The reported needs are sufficient for every template whose uses they cover, harmless shadowing included. */
  lemma CoveredSufficient(source: string, lookup: string -> Option<string>, ft: FilterTable, full: Values, cut: Values)
    requires Compile(source, lookup).Ok?
    requires NodesCovered(Compile(source, lookup).value.needs, [], Compile(source, lookup).value.nodes)
    requires NoItemSize(Compile(source, lookup).value.nodes)
    requires CutTo(Compile(source, lookup).value.needs, full, cut)
    ensures var t := Compile(source, lookup).value;
            Render(ft, t, cut) == Render(ft, t, full)
  {
    var t := Compile(source, lookup).value;
    MergeExact(ParseTemplate(source, lookup).value.needs, "");
    RenderAlike(ft, t.needs, [], t.nodes, full, cut, [], []);
  }

  /** The reported needs are sufficient. */
  lemma NeedsSufficient(source: string, lookup: string -> Option<string>, ft: FilterTable, full: Values, cut: Values)
    requires Compile(source, lookup).Ok?
    requires ConsistentLoops([], Compile(source, lookup).value.nodes) && NoItemSize(Compile(source, lookup).value.nodes)
    requires CutTo(Compile(source, lookup).value.needs, full, cut)
    ensures var t := Compile(source, lookup).value;
            Render(ft, t, cut) == Render(ft, t, full)
  {
    CompileCovers(source, lookup);
    CoveredSufficient(source, lookup, ft, full, cut);
  }
}
