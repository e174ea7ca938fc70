/**
 What a list of recorded needs asks of each path, and the proof that the parser records
 enough: every use in a parsed template is served by the needs list the parse ends with.
 */
module LiquidusDemand {
  import opened Common
  import opened LiquidusText
  import opened LiquidusSyntax
  import opened LiquidusGrammar

  /** The combined requirement on one path: prefix length (None = all), whether its size is read, item fields. */
  datatype Demand = Demand(slice: Option<nat>, size: bool, fields: set<string>)

  function Widest(a: Option<nat>, b: Option<nat>): Option<nat> {
    match (a, b)
    case (Some(x), Some(y)) => Some(Max(x, y))
    case _ => None
  }

  function OfNeed(n: VarNeed): Demand {
    Demand(n.slice, n.needSize, set f | f in n.fields)
  }

  function JoinDemand(a: Option<Demand>, b: Demand): Demand {
    match a
    case None => b
    case Some(d) => Demand(Widest(d.slice, b.slice), d.size || b.size, d.fields + b.fields)
  }

  function DemandOf(needs: seq<VarNeed>, path: string): Option<Demand> {
    if needs == [] then None
    else
      var d := DemandOf(Front(needs), path);
      if Last(needs).path == path then Some(JoinDemand(d, OfNeed(Last(needs)))) else d
  }

  /** The joint demand on a path: its whole collection when one need wants that, else the longest prefix; every size and field. */
  ghost predicate Joint(needs: seq<VarNeed>, path: string, d: Demand) {
    && (d.slice.None? <==> exists n | n in needs :: n.path == path && n.slice.None?)
    && (d.slice.Some? ==>
          && (exists n | n in needs :: n.path == path && n.slice == d.slice)
          && forall n | n in needs && n.path == path && n.slice.Some? :: n.slice.value <= d.slice.value)
    && (d.size <==> exists n | n in needs :: n.path == path && n.needSize)
    && (forall f :: f in d.fields <==> exists n | n in needs :: n.path == path && f in n.fields)
  }

  lemma {:induction false} DemandIsJoint(needs: seq<VarNeed>, path: string)
    ensures DemandOf(needs, path).None? <==> forall n | n in needs :: n.path != path
    ensures DemandOf(needs, path).Some? ==> Joint(needs, path, DemandOf(needs, path).value)
  {
    if needs == [] {
    } else {
      DemandIsJoint(Front(needs), path);
      OneMoreNeed(Front(needs), Last(needs), path);
      assert needs == Front(needs) + [Last(needs)];
    }
  }

  lemma OneMoreNeed(needs: seq<VarNeed>, n: VarNeed, path: string)
    requires DemandOf(needs, path).None? <==> forall m | m in needs :: m.path != path
    requires DemandOf(needs, path).Some? ==> Joint(needs, path, DemandOf(needs, path).value)
    ensures n.path == path ==> Joint(needs + [n], path, JoinDemand(DemandOf(needs, path), OfNeed(n)))
    ensures n.path != path && DemandOf(needs, path).Some? ==> Joint(needs + [n], path, DemandOf(needs, path).value)
  {
    hide DemandOf;
    var all := needs + [n];
    assert forall m :: m in all <==> m in needs || m == n;
  }

  /** `b` asks for at least as much as `a`. */
  predicate DemandLe(a: Option<Demand>, b: Option<Demand>) {
    a.Some? ==>
      && b.Some?
      && (b.value.slice.Some? ==> a.value.slice.Some? && a.value.slice.value <= b.value.slice.value)
      && (a.value.size ==> b.value.size)
      && a.value.fields <= b.value.fields
  }

  ghost predicate Grows(a: seq<VarNeed>, b: seq<VarNeed>) {
    forall p :: DemandLe(DemandOf(a, p), DemandOf(b, p))
  }

  /** One way a template can read a path. */
  datatype Use =
    | ValueUse(path: string)
    | SizeUse(path: string)
    | LoopUse(path: string, limit: Option<nat>)
    | FieldUse(path: string, field: string)

  predicate Served(needs: seq<VarNeed>, u: Use) {
    var d := DemandOf(needs, u.path);
    && d.Some?
    && match u
       case ValueUse(_) => d.value.slice.None?
       case SizeUse(_) => d.value.size
       case LoopUse(_, limit) =>
         d.value.slice.None? || (limit.Some? && limit.value <= d.value.slice.value)
       case FieldUse(_, f) => f in d.value.fields
  }

  /** The renderer looks a loop variable up from the innermost loop outwards. */
  function InnermostBinding(loops: seq<Binding>, name: string): Option<string> {
    if loops == [] then None
    else if Last(loops).variable == name then Some(Last(loops).collection)
    else InnermostBinding(Front(loops), name)
  }

  predicate ExprCovered(needs: seq<VarNeed>, loops: seq<Binding>, e: Expr) {
    match e
    case Var(Supplied(p, size)) => Served(needs, if size then SizeUse(p) else ValueUse(p))
    case Var(Loop(v, field, _)) =>
      var c := InnermostBinding(loops, v);
      c.Some? && (field.Some? ==> Served(needs, FieldUse(c.value, field.value)))
    case _ => true
  }

  predicate CondCovered(needs: seq<VarNeed>, loops: seq<Binding>, c: Cond) {
    match c
    case Truthy(e) => ExprCovered(needs, loops, e)
    case Compare(l, _, r) => ExprCovered(needs, loops, l) && ExprCovered(needs, loops, r)
  }

  /** Every use in `nodes`, below the loops `loops`, is served by `needs`. */
  predicate NodesCovered(needs: seq<VarNeed>, loops: seq<Binding>, nodes: seq<Node>)
    decreases nodes
  {
    nodes == [] ||
    (&& NodesCovered(needs, loops, nodes[1..])
     && match nodes[0]
        case Text(_) => true
        case Output(e, _) => ExprCovered(needs, loops, e)
        case If(c, body) => CondCovered(needs, loops, c) && NodesCovered(needs, loops, body)
        case For(v, c, limit, body) =>
          Served(needs, LoopUse(c, limit)) && NodesCovered(needs, loops + [Binding(v, c)], body))
  }

  /** A loop variable that shadows another one iterates over the same collection. */
  predicate Agree(loops: seq<Binding>) {
    forall i, j | 0 <= i < |loops| && 0 <= j < |loops| ::
      loops[i].variable == loops[j].variable ==> loops[i].collection == loops[j].collection
  }

  predicate ConsistentLoops(loops: seq<Binding>, nodes: seq<Node>)
    decreases nodes
  {
    nodes == [] ||
    (&& ConsistentLoops(loops, nodes[1..])
     && match nodes[0]
        case Text(_) => true
        case Output(_, _) => true
        case If(_, body) => ConsistentLoops(loops, body)
        case For(v, c, _, body) =>
          Agree(loops + [Binding(v, c)]) && ConsistentLoops(loops + [Binding(v, c)], body))
  }

  /** Every collection in scope has been recorded. */
  predicate ScopeRecorded(loops: seq<Binding>, needs: seq<VarNeed>) {
    forall i | 0 <= i < |loops| :: DemandOf(needs, loops[i].collection).Some?
  }

  // ---- growth ----

  lemma GrowsTransitive(a: seq<VarNeed>, b: seq<VarNeed>, c: seq<VarNeed>)
    requires Grows(a, b) && Grows(b, c)
    ensures Grows(a, c)
  {
    forall p ensures DemandLe(DemandOf(a, p), DemandOf(c, p)) {
      assert DemandLe(DemandOf(a, p), DemandOf(b, p)) && DemandLe(DemandOf(b, p), DemandOf(c, p));
    }
  }

  lemma AppendGrows(needs: seq<VarNeed>, n: VarNeed)
    ensures Grows(needs, needs + [n])
    ensures DemandOf(needs + [n], n.path) == Some(JoinDemand(DemandOf(needs, n.path), OfNeed(n)))
  {
    assert Front(needs + [n]) == needs;
  }

  lemma {:induction false} DemandKnown(needs: seq<VarNeed>, path: string)
    ensures DemandOf(needs, path).Some? <==> LastNeed(needs, path).Some?
  {
    if needs == [] {
    } else {
      DemandKnown(Front(needs), path);
    }
  }

  lemma {:induction false} AttachFieldDemand(needs: seq<VarNeed>, c: string, f: string, p: string)
    requires DemandOf(needs, c).Some?
    ensures var d := DemandOf(needs, p);
            DemandOf(AttachField(needs, c, f), p) == if p == c then Some(d.value.(fields := d.value.fields + {f})) else d
  {
    DemandKnown(needs, c);
    var i := LastNeed(needs, c).value;
    var attached := AttachField(needs, c, f);
    if Last(needs).path == c {
      assert i == |needs| - 1;
      assert Front(attached) == Front(needs);
      assert OfNeed(Last(attached)) == OfNeed(Last(needs)).(fields := OfNeed(Last(needs)).fields + {f});
      if p == c {
        assert JoinDemand(DemandOf(Front(needs), p), OfNeed(Last(attached))).fields
            == JoinDemand(DemandOf(Front(needs), p), OfNeed(Last(needs))).fields + {f};
      }
    } else {
      AttachFieldDemand(Front(needs), c, f, p);
      assert Front(attached) == AttachField(Front(needs), c, f) && Last(attached) == Last(needs);
      if p == c {
        assert Last(needs).path != p;
      }
    }
  }

  lemma AttachFieldGrows(needs: seq<VarNeed>, c: string, f: string)
    requires DemandOf(needs, c).Some?
    ensures Grows(needs, AttachField(needs, c, f))
    ensures Served(AttachField(needs, c, f), FieldUse(c, f))
  {
    forall p ensures DemandLe(DemandOf(needs, p), DemandOf(AttachField(needs, c, f), p)) {
      AttachFieldDemand(needs, c, f, p);
    }
    AttachFieldDemand(needs, c, f, c);
  }

  lemma ServedGrows(a: seq<VarNeed>, b: seq<VarNeed>, u: Use)
    requires Grows(a, b) && Served(a, u)
    ensures Served(b, u)
  {
    assert DemandLe(DemandOf(a, u.path), DemandOf(b, u.path));
  }

  lemma ExprGrows(a: seq<VarNeed>, b: seq<VarNeed>, loops: seq<Binding>, e: Expr)
    requires Grows(a, b) && ExprCovered(a, loops, e)
    ensures ExprCovered(b, loops, e)
  {
    match e
    case Var(Supplied(p, size)) => ServedGrows(a, b, if size then SizeUse(p) else ValueUse(p));
    case Var(Loop(v, field, _)) =>
      if field.Some? {
        ServedGrows(a, b, FieldUse(InnermostBinding(loops, v).value, field.value));
      }
    case _ =>
  }

  lemma CondGrows(a: seq<VarNeed>, b: seq<VarNeed>, loops: seq<Binding>, c: Cond)
    requires Grows(a, b) && CondCovered(a, loops, c)
    ensures CondCovered(b, loops, c)
  {
    match c
    case Truthy(e) => ExprGrows(a, b, loops, e);
    case Compare(l, _, r) => ExprGrows(a, b, loops, l); ExprGrows(a, b, loops, r);
  }

  lemma {:induction false} NodesGrow(a: seq<VarNeed>, b: seq<VarNeed>, loops: seq<Binding>, nodes: seq<Node>)
    requires Grows(a, b) && NodesCovered(a, loops, nodes)
    ensures NodesCovered(b, loops, nodes)
    decreases nodes
  {
    if nodes == [] {
    } else {
      NodesGrow(a, b, loops, nodes[1..]);
      match nodes[0]
      case Text(_) =>
      case Output(e, _) => ExprGrows(a, b, loops, e);
      case If(c, body) => CondGrows(a, b, loops, c); NodesGrow(a, b, loops, body);
      case For(v, c, limit, body) =>
        ServedGrows(a, b, LoopUse(c, limit));
        NodesGrow(a, b, loops + [Binding(v, c)], body);
    }
  }

  lemma {:induction false} CoveredConcat(needs: seq<VarNeed>, loops: seq<Binding>, xs: seq<Node>, ys: seq<Node>)
    ensures NodesCovered(needs, loops, xs + ys) <==> NodesCovered(needs, loops, xs) && NodesCovered(needs, loops, ys)
  {
    if xs == [] {
      assert xs + ys == ys;
    } else {
      assert (xs + ys)[1..] == xs[1..] + ys;
      CoveredConcat(needs, loops, xs[1..], ys);
    }
  }

  lemma {:induction false} ConsistentConcat(loops: seq<Binding>, xs: seq<Node>, ys: seq<Node>)
    ensures ConsistentLoops(loops, xs + ys) <==> ConsistentLoops(loops, xs) && ConsistentLoops(loops, ys)
  {
    if xs == [] {
      assert xs + ys == ys;
    } else {
      assert (xs + ys)[1..] == xs[1..] + ys;
      ConsistentConcat(loops, xs[1..], ys);
    }
  }

  lemma {:induction false} OutermostIn(loops: seq<Binding>, name: string)
    requires OutermostBinding(loops, name).Some?
    ensures exists i :: 0 <= i < |loops| && loops[i] == Binding(name, OutermostBinding(loops, name).value)
  {
    if loops[0].variable == name {
      assert loops[0] == Binding(name, OutermostBinding(loops, name).value);
    } else {
      OutermostIn(loops[1..], name);
      var i :| 0 <= i < |loops[1..]| && loops[1..][i] == Binding(name, OutermostBinding(loops, name).value);
      assert loops[i + 1] == loops[1..][i];
    }
  }

  lemma {:induction false} InnermostIn(loops: seq<Binding>, name: string)
    ensures InnermostBinding(loops, name).None? ==> forall i | 0 <= i < |loops| :: loops[i].variable != name
    ensures InnermostBinding(loops, name).Some? ==>
              exists i :: 0 <= i < |loops| && loops[i] == Binding(name, InnermostBinding(loops, name).value)
  {
    if loops == [] {
    } else {
      if Last(loops).variable == name {
        assert loops[|loops| - 1] == Binding(name, InnermostBinding(loops, name).value);
      } else {
        InnermostIn(Front(loops), name);
        if InnermostBinding(loops, name).Some? {
          var i :| 0 <= i < |Front(loops)| && Front(loops)[i] == Binding(name, InnermostBinding(loops, name).value);
          assert loops[i] == Front(loops)[i];
        } else {
          forall i | 0 <= i < |loops| ensures loops[i].variable != name {
            if i < |loops| - 1 { assert loops[i] == Front(loops)[i]; }
          }
        }
      }
    }
  }

  /** Parser and renderer resolve loop variables alike when shadowing loops agree on the collection. */
  lemma LookupsAgree(loops: seq<Binding>, name: string)
    requires Agree(loops)
    ensures OutermostBinding(loops, name) == InnermostBinding(loops, name)
  {
    InnermostIn(loops, name);
    if OutermostBinding(loops, name).Some? {
      OutermostIn(loops, name);
    }
  }

  // ---- what each parsing step records ----

  lemma ParseVarRecords(loops: seq<Binding>, needs: seq<VarNeed>, src: string)
    requires ScopeRecorded(loops, needs) && Agree(loops)
    requires ParseVar(loops, needs, src).Ok?
    ensures var (ref, needs1) := ParseVar(loops, needs, src).value;
            && Grows(needs, needs1)
            && ExprCovered(needs1, loops, Var(ref))
            && (ref.Supplied? ==> needs1 == needs + [VarNeed(ref.path, if ref.size then Some(0) else None, ref.size, [])])
  {
    hide Split, Join, IsIdent, Contains, CleanPaths;
    var (ref, needs1) := ParseVar(loops, needs, src).value;
    match ref
    case Supplied(path, size) =>
      AppendGrows(needs, VarNeed(path, if size then Some(0) else None, size, []));
    case Loop(v, field, _) =>
      LookupsAgree(loops, v);
      if field.Some? {
        OutermostIn(loops, v);
        AttachFieldGrows(needs, OutermostBinding(loops, v).value, field.value);
      } else {
        assert needs1 == needs;
      }
  }

  lemma ParseExprRecords(loops: seq<Binding>, needs: seq<VarNeed>, src: string)
    requires ScopeRecorded(loops, needs) && Agree(loops)
    requires ParseExpr(loops, needs, src).Ok?
    ensures var (e, needs1) := ParseExpr(loops, needs, src).value;
            && Grows(needs, needs1)
            && ExprCovered(needs1, loops, e)
            && (e.Var? && e.ref.Supplied? ==>
                  needs1 == needs + [VarNeed(e.ref.path, if e.ref.size then Some(0) else None, e.ref.size, [])])
  {
    hide ParseVar, ScopeRecorded, Agree, CleanPaths;
    var (e, needs1) := ParseExpr(loops, needs, src).value;
    if e.Var? {
      ParseVarRecords(loops, needs, src);
    } else {
      assert needs1 == needs;
    }
  }

  /** Growth keeps recorded collections recorded. */
  lemma RecordedGrows(loops: seq<Binding>, a: seq<VarNeed>, b: seq<VarNeed>)
    requires ScopeRecorded(loops, a) && Grows(a, b)
    ensures ScopeRecorded(loops, b)
  {
    forall i | 0 <= i < |loops| ensures DemandOf(b, loops[i].collection).Some? {
      assert DemandLe(DemandOf(a, loops[i].collection), DemandOf(b, loops[i].collection));
    }
  }

  /** Moving a leading `size` filter onto the reference leaves a need that serves it. */
  lemma RewriteRecords(loops: seq<Binding>, before: seq<VarNeed>, mid: seq<VarNeed>, e: Expr, filters: seq<FilterCall>)
    requires Grows(before, mid) && ExprCovered(mid, loops, e)
    requires e.Var? && e.ref.Supplied? ==>
               mid == before + [VarNeed(e.ref.path, if e.ref.size then Some(0) else None, e.ref.size, [])]
    ensures var (node, needs) := RewriteSize(e, filters, mid);
            Grows(before, needs) && node.Output? && ExprCovered(needs, loops, node.expr)
  {
    var (node, needs) := RewriteSize(e, filters, mid);
    if e.Var? && e.ref.Supplied? && node.expr != e {
      // The newest need is the one this very expression pushed.
      var p := e.ref.path;
      assert LastNeed(mid, p) == Some(|mid| - 1);
      assert needs == before + [VarNeed(p, Some(0), true, [])];
      AppendGrows(before, VarNeed(p, Some(0), true, []));
      assert Served(needs, SizeUse(p));
    }
  }

  lemma ParseOutputRecords(loops: seq<Binding>, needs: seq<VarNeed>, inner: string)
    requires ScopeRecorded(loops, needs) && Agree(loops)
    requires ParseOutput(loops, needs, inner).Ok?
    ensures var (node, needs1) := ParseOutput(loops, needs, inner).value;
            Grows(needs, needs1) && NodesCovered(needs1, loops, [node])
  {
    hide ParseExpr, ParseFilters, RewriteSize, Trim, SplitUnquoted, Grows, ExprCovered, ScopeRecorded, Agree, CleanPaths;
    var parts := SplitUnquoted(inner, '|');
    ParseExprRecords(loops, needs, Trim(parts[0]));
    var (e, mid) := ParseExpr(loops, needs, Trim(parts[0])).value;
    RewriteRecords(loops, needs, mid, e, ParseFilters(loops, mid, parts[1..]).value);
  }

  lemma {:induction false} ParseComparisonRecords(loops: seq<Binding>, needs: seq<VarNeed>, src: string, ops: seq<(string, CmpOp)>)
    requires ScopeRecorded(loops, needs) && Agree(loops)
    requires ParseComparison(loops, needs, src, ops).Ok?
    ensures var (c, needs1) := ParseComparison(loops, needs, src, ops).value;
            Grows(needs, needs1) && CondCovered(needs1, loops, c)
  {
    hide ParseExpr, Trim, Find, Grows, ExprCovered, ScopeRecorded, Agree, CleanPaths;
    if ops == [] {
      ParseExprRecords(loops, needs, Trim(src));
    } else {
      match Find(src, ops[0].0)
      case None => ParseComparisonRecords(loops, needs, src, ops[1..]);
      case Some(at) =>
        ParseExprRecords(loops, needs, Trim(src[..at]));
        var (lhs, needs1) := ParseExpr(loops, needs, Trim(src[..at])).value;
        RecordedGrows(loops, needs, needs1);
        ParseExprRecords(loops, needs1, Trim(src[at + |ops[0].0|..]));
        var (rhs, needs2) := ParseExpr(loops, needs1, Trim(src[at + |ops[0].0|..])).value;
        GrowsTransitive(needs, needs1, needs2);
        ExprGrows(needs1, needs2, loops, lhs);
    }
  }

  lemma ParseForHeadRecords(loops: seq<Binding>, needs: seq<VarNeed>, src: string)
    requires ScopeRecorded(loops, needs) && Agree(loops)
    requires ParseForHead(loops, needs, src).Ok?
    ensures var (head, needs1) := ParseForHead(loops, needs, src).value;
            Grows(needs, needs1) && Served(needs1, LoopUse(head.collection, head.limit))
  {
    hide ParseVar, Trim, ParseLimit, Find, Contains, IsIdent, CleanPaths;
    var rest := Trim(src[Find(src, " in ").value + 4..]);
    var (collSrc, limit) := ParseLimit(rest).value;
    ParseVarRecords(loops, needs, collSrc);
    var (ref, mid) := ParseVar(loops, needs, collSrc).value;
    assert LastNeed(mid, ref.path) == Some(|mid| - 1);
    assert PatchSlice(mid, ref.path, limit) == needs + [VarNeed(ref.path, limit, false, [])];
    AppendGrows(needs, VarNeed(ref.path, limit, false, []));
  }

  lemma NothingCovers(needs: seq<VarNeed>, loops: seq<Binding>)
    ensures Grows(needs, needs) && NodesCovered(needs, loops, [])
  {
  }

  lemma TextCovers(needs: seq<VarNeed>, loops: seq<Binding>, t: string)
    ensures NodesCovered(needs, loops, [Text(t)])
  {
  }

  /** The needs a parse ends with serve every use in the nodes it returns. */
  lemma {:induction false} ParseNodesCovers(sc: Scope, toks: seq<Tok>, stop: Option<string>, needs: seq<VarNeed>)
    requires ScopeRecorded(sc.loops, needs) && Agree(sc.loops)
    requires ParseNodes(sc, toks, stop, needs).Ok?
    requires ConsistentLoops(sc.loops, ParseNodes(sc, toks, stop, needs).value.nodes)
    ensures var p := ParseNodes(sc, toks, stop, needs).value;
            Grows(needs, p.needs) && NodesCovered(p.needs, sc.loops, p.nodes)
    decreases if sc.depth < MAX_INCLUDE_DEPTH then MAX_INCLUDE_DEPTH - sc.depth else 0, |toks|, 0
  {
    hide ParseOutput, ParseCond, ParseForHead, FirstWord, TagArg, Agree, IncludedTokens,
      Grows, NodesCovered, ExprCovered, ConsistentLoops, ScopeRecorded;
    NothingCovers(needs, sc.loops);
    if toks == [] {
    } else {
      match toks[0]
      case TextTok(t) =>
        TextCovers(needs, sc.loops, t);
        ThenRest(sc, toks[1..], stop, needs, needs, [Text(t)]);
      case OutputTok(inner) =>
        ParseOutputRecords(sc.loops, needs, inner);
        var (node, needs1) := ParseOutput(sc.loops, needs, inner).value;
        ThenRest(sc, toks[1..], stop, needs, needs1, [node]);
      case TagTok(inner) =>
        var word := FirstWord(inner);
        var arg := TagArg(inner, word);
        if stop == Some(word) {
        } else if word == "if" {
          var (cond, needs1) := ParseCond(sc.loops, needs, arg).value;
          var b := ParseNodes(sc, toks[1..], Some("endif"), needs1).value;
          ConsistentConcat(sc.loops, [If(cond, b.nodes)], ParseNodes(sc, b.rest, stop, b.needs).value.nodes);
          IfCovers(sc, toks[1..], arg, needs);
          ThenRest(sc, b.rest, stop, needs, b.needs, [If(cond, b.nodes)]);
        } else if word == "for" {
          var (head, needs1) := ParseForHead(sc.loops, needs, arg).value;
          var inside := sc.(loops := sc.loops + [Binding(head.variable, head.collection)]);
          var b := ParseNodes(inside, toks[1..], Some("endfor"), needs1).value;
          var loop := For(head.variable, head.collection, head.limit, b.nodes);
          ConsistentConcat(sc.loops, [loop], ParseNodes(sc, b.rest, stop, b.needs).value.nodes);
          ForCovers(sc, toks[1..], arg, needs);
          ThenRest(sc, b.rest, stop, needs, b.needs, [loop]);
        } else {
          var sub := IncludedTokens(sc, arg).value;
          var deeper := sc.(depth := sc.depth + 1);
          var b := ParseNodes(deeper, sub, None, needs).value;
          ConsistentConcat(sc.loops, b.nodes, ParseNodes(sc, toks[1..], stop, b.needs).value.nodes);
          ParseNodesCovers(deeper, sub, None, needs);
          ThenRest(sc, toks[1..], stop, needs, b.needs, b.nodes);
        }
    }
  }

  lemma {:induction false} IfCovers(sc: Scope, toks: seq<Tok>, arg: string, needs: seq<VarNeed>)
    requires ScopeRecorded(sc.loops, needs) && Agree(sc.loops)
    requires ParseCond(sc.loops, needs, arg).Ok?
    requires var (cond, needs1) := ParseCond(sc.loops, needs, arg).value;
             var b := ParseNodes(sc, toks, Some("endif"), needs1);
             b.Ok? && ConsistentLoops(sc.loops, [If(cond, b.value.nodes)])
    ensures var (cond, needs1) := ParseCond(sc.loops, needs, arg).value;
            var b := ParseNodes(sc, toks, Some("endif"), needs1).value;
            Grows(needs, b.needs) && NodesCovered(b.needs, sc.loops, [If(cond, b.nodes)])
    decreases if sc.depth < MAX_INCLUDE_DEPTH then MAX_INCLUDE_DEPTH - sc.depth else 0, |toks|, 1
  {
    hide ParseNodes, ParseComparison, Grows, ExprCovered, CondCovered, ScopeRecorded, Agree, CleanPaths;
    ParseComparisonRecords(sc.loops, needs, arg, OPERATORS);
    var (cond, needs1) := ParseCond(sc.loops, needs, arg).value;
    RecordedGrows(sc.loops, needs, needs1);
    ParseNodesCovers(sc, toks, Some("endif"), needs1);
    var b := ParseNodes(sc, toks, Some("endif"), needs1).value;
    CondGrows(needs1, b.needs, sc.loops, cond);
    GrowsTransitive(needs, needs1, b.needs);
  }

  lemma {:induction false} ForCovers(sc: Scope, toks: seq<Tok>, arg: string, needs: seq<VarNeed>)
    requires ScopeRecorded(sc.loops, needs) && Agree(sc.loops)
    requires ParseForHead(sc.loops, needs, arg).Ok?
    requires var (head, needs1) := ParseForHead(sc.loops, needs, arg).value;
             var inside := sc.(loops := sc.loops + [Binding(head.variable, head.collection)]);
             var b := ParseNodes(inside, toks, Some("endfor"), needs1);
             b.Ok? && ConsistentLoops(sc.loops, [For(head.variable, head.collection, head.limit, b.value.nodes)])
    ensures var (head, needs1) := ParseForHead(sc.loops, needs, arg).value;
            var inside := sc.(loops := sc.loops + [Binding(head.variable, head.collection)]);
            var b := ParseNodes(inside, toks, Some("endfor"), needs1).value;
            && Grows(needs, b.needs)
            && NodesCovered(b.needs, sc.loops, [For(head.variable, head.collection, head.limit, b.nodes)])
    decreases if sc.depth < MAX_INCLUDE_DEPTH then MAX_INCLUDE_DEPTH - sc.depth else 0, |toks|, 1
  {
    hide ParseNodes, ParseForHead, Grows, CleanPaths;
    ParseForHeadRecords(sc.loops, needs, arg);
    var (head, needs1) := ParseForHead(sc.loops, needs, arg).value;
    RecordedGrows(sc.loops, needs, needs1);
    var inside := sc.(loops := sc.loops + [Binding(head.variable, head.collection)]);
    ParseNodesCovers(inside, toks, Some("endfor"), needs1);
    var b := ParseNodes(inside, toks, Some("endfor"), needs1).value;
    ServedGrows(needs1, b.needs, LoopUse(head.collection, head.limit));
    GrowsTransitive(needs, needs1, b.needs);
  }

  /** One node, or one expanded include, followed by the rest of the block. */
  lemma {:induction false} ThenRest(sc: Scope, rest: seq<Tok>, stop: Option<string>, before: seq<VarNeed>, needs: seq<VarNeed>, nodes: seq<Node>)
    requires ScopeRecorded(sc.loops, before) && Agree(sc.loops)
    requires Grows(before, needs) && NodesCovered(needs, sc.loops, nodes)
    requires ParseNodes(sc, rest, stop, needs).Ok?
    requires ConsistentLoops(sc.loops, nodes + ParseNodes(sc, rest, stop, needs).value.nodes)
    ensures var p := ParseNodes(sc, rest, stop, needs).value;
            Grows(before, p.needs) && NodesCovered(p.needs, sc.loops, nodes + p.nodes)
    decreases if sc.depth < MAX_INCLUDE_DEPTH then MAX_INCLUDE_DEPTH - sc.depth else 0, |rest|, 1
  {
    hide ParseNodes, Grows, NodesCovered, ConsistentLoops, ScopeRecorded, Agree;
    var p := ParseNodes(sc, rest, stop, needs).value;
    RecordedGrows(sc.loops, before, needs);
    ConsistentConcat(sc.loops, nodes, p.nodes);
    ParseNodesCovers(sc, rest, stop, needs);
    GrowsTransitive(before, needs, p.needs);
    NodesGrow(needs, p.needs, sc.loops, nodes);
    CoveredConcat(p.needs, sc.loops, nodes, p.nodes);
  }
}
