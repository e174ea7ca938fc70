/**
 The subset, from the parser's side: whatever it accepts is made of the literals, references,
 filters, comparisons and loop heads that can be written out, and the needs it records are
 those of the nodes it returns. Together with LiquidusPrinting this says exactly which
 constructs compile.
 */
module LiquidusSubset {
  import opened Common
  import opened LiquidusText
  import opened LiquidusTextLaws
  import opened LiquidusSyntax
  import opened LiquidusGrammar
  import opened LiquidusLexing
  import opened LiquidusPrinting

  // ---- references and expressions ----

  /** A text is a reference exactly when it is one written out. */
  lemma RefExactly(loops: seq<Binding>, needs: seq<VarNeed>, src: string, ref: VarRef, needs1: seq<VarNeed>)
    ensures ParseVar(loops, needs, src) == Ok((ref, needs1)) <==>
            RefOk(loops, ref) && PrintRef(ref) == src && needs1 == RefNeeds(loops, needs, ref)
  {
    hide RefOk, PrintRef, RefNeeds, ParseVar;
    if RefOk(loops, ref) {
      RefReadBack(loops, needs, ref);
    }
    if ParseVar(loops, needs, src) == Ok((ref, needs1)) {
      RefAccepted(loops, needs, src);
    }
  }

  lemma RefAccepted(loops: seq<Binding>, needs: seq<VarNeed>, src: string)
    requires ParseVar(loops, needs, src).Ok?
    ensures var (ref, needs1) := ParseVar(loops, needs, src).value;
            RefOk(loops, ref) && PrintRef(ref) == src && needs1 == RefNeeds(loops, needs, ref)
  {
    hide Split, Join, Contains, AttachField, CleanPaths;
    var all := Split(src, '.');
    var (ref, needs1) := ParseVar(loops, needs, src).value;
    SplitJoin(src, '.');
    assert ['.'] == ".";
    assert forall i | 0 <= i < |all| :: Ident(all[i]);
    BoundIsOutermost(loops, all[0]);
    var size := Last(all) == "size";
    var segs := if size then Front(all) else all;
    assert size ==> segs + ["size"] == all;
    if ref.Supplied? {
      SplitOfJoin(segs, '.');
    } else {
      assert segs[0] == all[0];
    }
    assert Segments(ref) == all;
  }

  lemma ExprAccepted(loops: seq<Binding>, needs: seq<VarNeed>, src: string)
    requires ParseExpr(loops, needs, src).Ok?
    ensures var (e, needs1) := ParseExpr(loops, needs, src).value;
            ExprOk(loops, e) && needs1 == ExprNeeds(loops, needs, e)
  {
    hide ParseVar, RefOk, PrintRef, RefNeeds, ParseInteger, CleanPaths;
    var (e, needs1) := ParseExpr(loops, needs, src).value;
    match e
    case StrLit(t) =>
    case IntLit(n) =>
    case Var(ref) => RefAccepted(loops, needs, src);
  }

  /** The six keywords are no expressions. */
  lemma KeywordsDeclined(loops: seq<Binding>, needs: seq<VarNeed>, src: string)
    requires Keyword(src)
    ensures ParseExpr(loops, needs, src) == Err("keyword-literal")
  {
  }

  /** Filter arguments are literals. */
  lemma {:induction false} ArgsAccepted(loops: seq<Binding>, needs: seq<VarNeed>, parts: seq<string>)
    requires ParseArgs(loops, needs, parts).Ok?
    ensures LiteralsOk(ParseArgs(loops, needs, parts).value)
  {
    hide ParseExpr, Trim, ExprOk;
    if parts == [] {
    } else {
      ExprAccepted(loops, needs, Trim(parts[0]));
      LiteralEverywhere(loops, ParseExpr(loops, needs, Trim(parts[0])).value.0);
      ArgsAccepted(loops, needs, parts[1..]);
    }
  }

  lemma LiteralEverywhere(loops: seq<Binding>, e: Expr)
    requires !e.Var? && ExprOk(loops, e)
    ensures ExprOk([], e)
  {
  }

  lemma FilterAccepted(loops: seq<Binding>, needs: seq<VarNeed>, src: string)
    requires ParseFilter(loops, needs, src).Ok?
    ensures var f := ParseFilter(loops, needs, src).value; Supported(f.name) && LiteralsOk(f.args)
  {
    hide ParseArgs, Find, Trim, SplitUnquoted, ExprOk;
    var args := Find(src, ":");
    if args.Some? {
      ArgsAccepted(loops, needs, SplitUnquoted(src[args.value + 1..], ','));
    }
  }

  lemma {:induction false} FiltersAccepted(loops: seq<Binding>, needs: seq<VarNeed>, parts: seq<string>)
    requires ParseFilters(loops, needs, parts).Ok?
    ensures FiltersOk(ParseFilters(loops, needs, parts).value)
  {
    hide ParseFilter, Trim, LiteralsOk, Supported;
    if parts == [] {
    } else {
      FilterAccepted(loops, needs, Trim(parts[0]));
      FiltersAccepted(loops, needs, parts[1..]);
    }
  }

  // ---- outputs, conditions, loop heads ----

  /** An output as it was written, or with its leading `size` filter moved onto the reference. */
  predicate FromOutput(node: Node, e: Expr, fs: seq<FilterCall>) {
    if SizeFirst(e, fs) then node == Output(Var(Sized(e.ref)), fs[1..]) else node == Output(e, fs)
  }

  ghost predicate OutputIn(loops: seq<Binding>, node: Node) {
    exists e, fs :: ExprOk(loops, e) && FiltersOk(fs) && FromOutput(node, e, fs)
  }

  lemma OutputAccepted(loops: seq<Binding>, needs: seq<VarNeed>, inner: string)
    requires ParseOutput(loops, needs, inner).Ok?
    ensures var (node, needs1) := ParseOutput(loops, needs, inner).value;
            node.Output? && OutputIn(loops, node) && needs1 == ExprNeeds(loops, needs, node.expr)
  {
    hide ParseExpr, ParseFilters, SplitUnquoted, Trim, ExprOk, FiltersOk, CleanPaths;
    var parts := SplitUnquoted(inner, '|');
    ExprAccepted(loops, needs, Trim(parts[0]));
    var (e, needs1) := ParseExpr(loops, needs, Trim(parts[0])).value;
    FiltersAccepted(loops, needs1, parts[1..]);
    var fs := ParseFilters(loops, needs1, parts[1..]).value;
    var node := RewriteSize(e, fs, needs1).0;
    if SizeFirst(e, fs) {
      SizeShrinks(loops, needs, e.ref);
    }
    assert FromOutput(node, e, fs);
  }

  lemma SizeShrinks(loops: seq<Binding>, needs: seq<VarNeed>, ref: VarRef)
    ensures ref.Supplied? && !ref.size ==>
              ShrinkToSize(RefNeeds(loops, needs, ref), ref.path) == RefNeeds(loops, needs, Sized(ref))
    ensures ref.Loop? ==> RefNeeds(loops, needs, ref) == RefNeeds(loops, needs, Sized(ref))
  {
    if ref.Supplied? && !ref.size {
      var mid := needs + [VarNeed(ref.path, None, false, [])];
      assert LastNeed(mid, ref.path) == Some(|needs|);
      assert ShrinkToSize(mid, ref.path) == needs + [VarNeed(ref.path, Some(0), true, [])];
    }
  }

  predicate CondIn(loops: seq<Binding>, c: Cond) {
    match c
    case Truthy(e) => ExprOk(loops, e)
    case Compare(l, _, r) => ExprOk(loops, l) && ExprOk(loops, r)
  }

  lemma {:induction false} ComparisonAccepted(loops: seq<Binding>, needs: seq<VarNeed>, src: string, ops: seq<(string, CmpOp)>)
    requires ParseComparison(loops, needs, src, ops).Ok?
    ensures var (c, needs1) := ParseComparison(loops, needs, src, ops).value;
            CondIn(loops, c) && needs1 == CondNeeds(loops, needs, c)
  {
    hide ParseExpr, Find, Trim, ExprOk, CleanPaths, ExprNeeds;
    if ops == [] {
      ExprAccepted(loops, needs, Trim(src));
    } else {
      match Find(src, ops[0].0)
      case None => ComparisonAccepted(loops, needs, src, ops[1..]);
      case Some(at) =>
        ExprAccepted(loops, needs, Trim(src[..at]));
        ExprAccepted(loops, ParseExpr(loops, needs, Trim(src[..at])).value.1, Trim(src[at + |ops[0].0|..]));
    }
  }

  /** Compound conditions are declined. */
  lemma CompoundDeclined(loops: seq<Binding>, needs: seq<VarNeed>, a: string, b: string)
    ensures ParseCond(loops, needs, a + " and " + b).Err?
    ensures ParseCond(loops, needs, a + " or " + b).Err?
    ensures ParseCond(loops, needs, a + " contains " + b).Err?
  {
    hide ParseComparison, Find, CleanPaths;
    Holds(a, " and ", b);
    Holds(a, " or ", b);
    Holds(a, " contains ", b);
  }

  predicate OperatorIn(t: string, ops: seq<(string, CmpOp)>) {
    exists k :: 0 <= k < |ops| && Find("\"" + t + "\"", ops[k].0).Some?
  }

  predicate QuoteFree(ops: seq<(string, CmpOp)>) {
    forall k | 0 <= k < |ops| :: ops[k].0 != [] && '"' !in ops[k].0
  }

  /** A quote and what follows it up to the operator is no literal. */
  lemma HalfLiteral(loops: seq<Binding>, needs: seq<VarNeed>, t: string, at: nat)
    requires '"' !in t && 0 < at <= |t| + 1
    ensures ParseExpr(loops, needs, Trim(("\"" + t + "\"")[..at])).Err?
  {
    var src := "\"" + t + "\"";
    var lhs := src[..at];
    assert lhs == "\"" + t[..at - 1];
    hide ParseVar, CleanPaths;
    StaysQuoted(t[..at - 1]);
  }

  lemma {:induction false} StaysQuoted(t: string)
    requires '"' !in t
    ensures var r := Trim("\"" + t); r != [] && r[0] == '"' && (|r| > 1 ==> Last(r) != '"')
    decreases |t|
  {
    var s := "\"" + t;
    assert s[0] == '"' && TrimStart(s) == s;
    if t != [] && IsSpace(Last(t)) {
      StaysQuoted(Front(t));
      assert Front(s) == "\"" + Front(t) && Last(s) == Last(t);
      assert TrimStart(Front(s)) == Front(s);
    } else if t != [] {
      assert Last(s) == Last(t);
    }
  }

  /** Operators are looked for inside quotes too: a quoted text that holds one is no condition. */
  lemma {:induction false} QuotedOperatorFrom(loops: seq<Binding>, needs: seq<VarNeed>, t: string, ops: seq<(string, CmpOp)>)
    requires '"' !in t && QuoteFree(ops) && OperatorIn(t, ops)
    ensures ParseComparison(loops, needs, "\"" + t + "\"", ops).Err?
    decreases |ops|
  {
    hide ParseExpr, Trim, CleanPaths, Find;
    var src, op := "\"" + t + "\"", ops[0].0;
    match Find(src, op)
    case None =>
      var k :| 0 <= k < |ops| && Find(src, ops[k].0).Some?;
      assert ops[1..][k - 1] == ops[k];
      assert forall j | 0 <= j < |ops[1..]| :: ops[1..][j] == ops[j + 1];
      QuotedOperatorFrom(loops, needs, t, ops[1..]);
    case Some(at) =>
      FindIsFirst(src, op);
      assert src[at..at + |op|][0] == src[at] && src[at] in op && src[0] == '"';
      HalfLiteral(loops, needs, t, at);
  }

  /** So such a text is declined as a condition, although it is a literal anywhere else. */
  lemma QuotedOperatorDeclines(loops: seq<Binding>, needs: seq<VarNeed>, t: string)
    requires '"' !in t && ('<' in t || '>' in t || Contains(t, "==") || Contains(t, "!="))
    ensures ParseCond(loops, needs, "\"" + t + "\"").Err?
  {
    hide ParseComparison, CleanPaths, Find;
    var src := "\"" + t + "\"";
    assert QuoteFree(OPERATORS);
    assert OperatorIn(t, OPERATORS) by {
      if '<' in t {
        OneCharFound(src, '<');
        assert OPERATORS[5].0 == ['<'];
      } else if '>' in t {
        OneCharFound(src, '>');
        assert OPERATORS[4].0 == ['>'];
      } else if Contains(t, "==") {
        FoundInQuotes(t, "==");
        assert OPERATORS[2].0 == "==";
      } else {
        FoundInQuotes(t, "!=");
        assert OPERATORS[3].0 == "!=";
      }
    }
    QuotedOperatorFrom(loops, needs, t, OPERATORS);
  }

  lemma OneCharFound(s: string, c: char)
    requires c in s
    ensures Find(s, [c]).Some?
  {
    hide Find;
    FindIsFirst(s, [c]);
    var i :| 0 <= i < |s| && s[i] == c;
    assert OccursAt(s, [c], i);
  }

  lemma FoundInQuotes(t: string, op: string)
    requires Contains(t, op)
    ensures Find("\"" + t + "\"", op).Some?
  {
    hide Find;
    var s, at := "\"" + t + "\"", Find(t, op).value;
    FindIsFirst(t, op);
    FindIsFirst(s, op);
    assert s[at + 1..at + 1 + |op|] == t[at..at + |op|];
    assert OccursAt(s, op, at + 1);
  }

  lemma Holds(a: string, w: string, b: string)
    ensures Contains(a + w + b, w)
  {
    hide Find;
    FindIsFirst(a + w + b, w);
    assert OccursAt(a + w + b, w, |a|);
  }

  predicate HeadIn(loops: seq<Binding>, variable: string, collection: string, limit: Option<nat>) {
    && (forall i | 0 <= i < |variable| :: IdentChar(variable[i])) && RefOk(loops, Supplied(collection, false))
    && !Contains(collection, "reversed") && !Contains(collection, "offset")
    && (limit.Some? ==> limit.value <= 0xFFFF_FFFF_FFFF_FFFF)
  }

  lemma HeadAccepted(loops: seq<Binding>, needs: seq<VarNeed>, src: string)
    requires ParseForHead(loops, needs, src).Ok?
    ensures var (head, needs1) := ParseForHead(loops, needs, src).value;
            && HeadIn(loops, head.variable, head.collection, head.limit)
            && needs1 == needs + [VarNeed(head.collection, head.limit, false, [])]
  {
    hide Find, Trim, ParseVar, RefOk, CleanPaths, ParseInteger, PatchSlice;
    var inAt := Find(src, " in ").value;
    var (coll, limit) := ParseLimit(Trim(src[inAt + 4..])).value;
    RefAccepted(loops, needs, coll);
    var ref := ParseVar(loops, needs, coll).value.0;
    CollectionShape(loops, ref.path);
    NewestPatched(needs, ref.path, limit);
  }

  // ---- nodes ----

  /** Nodes of the subset, in the scope of these loops. */
  ghost predicate NodesIn(loops: seq<Binding>, nodes: seq<Node>)
    decreases nodes
  {
    forall i | 0 <= i < |nodes| :: NodeIn(loops, nodes[i])
  }

  ghost predicate NodeIn(loops: seq<Binding>, node: Node)
    decreases node
  {
    match node
    case Text(_) => true
    case Output(_, _) => OutputIn(loops, node)
    case If(c, body) => CondIn(loops, c) && NodesIn(loops, body)
    case For(v, collection, limit, body) =>
      HeadIn(loops, v, collection, limit) && NodesIn(loops + [Binding(v, collection)], body)
  }

  lemma FirstThenRest(loops: seq<Binding>, needs: seq<VarNeed>, nodes: seq<Node>)
    requires nodes != []
    ensures NodesNeeds(loops, needs, nodes) == NodesNeeds(loops, NodesNeeds(loops, needs, [nodes[0]]), nodes[1..])
  {
    hide ExprNeeds, CondNeeds;
    OneNode(loops, needs, nodes[0]);
  }

  lemma {:induction false} NodesNeedsConcat(loops: seq<Binding>, needs: seq<VarNeed>, a: seq<Node>, b: seq<Node>)
    ensures NodesNeeds(loops, needs, a + b) == NodesNeeds(loops, NodesNeeds(loops, needs, a), b)
    decreases |a|
  {
    if a == [] {
      assert a + b == b;
    } else {
      assert (a + b)[0] == a[0] && (a + b)[1..] == a[1..] + b;
      hide NodesNeeds;
      FirstThenRest(loops, needs, a);
      FirstThenRest(loops, needs, a + b);
      NodesNeedsConcat(loops, NodesNeeds(loops, needs, [a[0]]), a[1..], b);
    }
  }

  /** What a parse in this scope may return. */
  ghost predicate Accepts(loops: seq<Binding>, needs: seq<VarNeed>, r: Res<Parsed>) {
    r.Ok? ==> NodesIn(loops, r.value.nodes) && r.value.needs == NodesNeeds(loops, needs, r.value.nodes)
  }

  lemma AcceptsAhead(loops: seq<Binding>, needs: seq<VarNeed>, first: seq<Node>, r: Res<Parsed>)
    requires NodesIn(loops, first) && Accepts(loops, NodesNeeds(loops, needs, first), r)
    ensures Accepts(loops, needs, Prepend(first, r))
  {
    hide NodesNeeds, NodeIn;
    if r.Ok? {
      NodesNeedsConcat(loops, needs, first, r.value.nodes);
    }
  }

  lemma OneNode(loops: seq<Binding>, needs: seq<VarNeed>, node: Node)
    ensures NodeIn(loops, node) ==> NodesIn(loops, [node])
    ensures node.Text? ==> NodesNeeds(loops, needs, [node]) == needs
    ensures node.Output? ==> NodesNeeds(loops, needs, [node]) == ExprNeeds(loops, needs, node.expr)
    ensures node.If? ==> NodesNeeds(loops, needs, [node]) == NodesNeeds(loops, CondNeeds(loops, needs, node.cond), node.body)
    ensures node.For? ==>
              NodesNeeds(loops, needs, [node])
              == NodesNeeds(loops + [Binding(node.variable, node.collection)], needs + [VarNeed(node.collection, node.limit, false, [])], node.body)
  {
    hide ExprNeeds, CondNeeds, NodeIn;
    assert [node][1..] == [];
  }

  lemma NothingParsed(loops: seq<Binding>, rest: seq<Tok>, needs: seq<VarNeed>)
    ensures Accepts(loops, needs, Ok(Parsed([], rest, needs)))
  {
  }

  lemma Declined(loops: seq<Binding>, needs: seq<VarNeed>, r: Res<Parsed>)
    requires r.Err?
    ensures Accepts(loops, needs, r)
  {
  }

  lemma TextAhead(loops: seq<Binding>, needs: seq<VarNeed>, t: string, r: Res<Parsed>)
    requires Accepts(loops, needs, r)
    ensures Accepts(loops, needs, Prepend([Text(t)], r))
  {
    hide Accepts, NodesIn, NodesNeeds;
    OneNode(loops, needs, Text(t));
    AcceptsAhead(loops, needs, [Text(t)], r);
  }

  lemma OutputAhead(loops: seq<Binding>, needs: seq<VarNeed>, inner: string, r: Res<Parsed>)
    requires ParseOutput(loops, needs, inner).Ok? && Accepts(loops, ParseOutput(loops, needs, inner).value.1, r)
    ensures Accepts(loops, needs, Prepend([ParseOutput(loops, needs, inner).value.0], r))
  {
    hide Accepts, NodesIn, NodesNeeds, ParseOutput, OutputIn, ExprNeeds;
    var node := ParseOutput(loops, needs, inner).value.0;
    OutputAccepted(loops, needs, inner);
    OneNode(loops, needs, node);
    AcceptsAhead(loops, needs, [node], r);
  }

  lemma CondAccepted(loops: seq<Binding>, needs: seq<VarNeed>, src: string)
    requires ParseCond(loops, needs, src).Ok?
    ensures var (c, needs1) := ParseCond(loops, needs, src).value;
            CondIn(loops, c) && needs1 == CondNeeds(loops, needs, c)
  {
    hide ParseComparison, Contains, CondIn, CondNeeds, CleanPaths;
    ComparisonAccepted(loops, needs, src, OPERATORS);
  }

  lemma IfAhead(loops: seq<Binding>, needs: seq<VarNeed>, src: string, b: Res<Parsed>, r: Res<Parsed>)
    requires ParseCond(loops, needs, src).Ok? && b.Ok?
    requires Accepts(loops, ParseCond(loops, needs, src).value.1, b) && Accepts(loops, b.value.needs, r)
    ensures Accepts(loops, needs, Prepend([If(ParseCond(loops, needs, src).value.0, b.value.nodes)], r))
  {
    hide NodesIn, NodesNeeds, ParseCond, CondIn, CondNeeds, Prepend;
    var node := If(ParseCond(loops, needs, src).value.0, b.value.nodes);
    CondAccepted(loops, needs, src);
    OneNode(loops, needs, node);
    AcceptsAhead(loops, needs, [node], r);
  }

  lemma ForAhead(loops: seq<Binding>, needs: seq<VarNeed>, src: string, b: Res<Parsed>, r: Res<Parsed>)
    requires ParseForHead(loops, needs, src).Ok? && b.Ok?
    requires var (head, needs1) := ParseForHead(loops, needs, src).value;
             Accepts(loops + [Binding(head.variable, head.collection)], needs1, b)
    requires Accepts(loops, b.value.needs, r)
    ensures var head := ParseForHead(loops, needs, src).value.0;
            Accepts(loops, needs, Prepend([For(head.variable, head.collection, head.limit, b.value.nodes)], r))
  {
    hide NodesIn, NodesNeeds, ParseForHead, HeadIn, Prepend;
    var head := ParseForHead(loops, needs, src).value.0;
    var node := For(head.variable, head.collection, head.limit, b.value.nodes);
    HeadAccepted(loops, needs, src);
    OneNode(loops, needs, node);
    AcceptsAhead(loops, needs, [node], r);
  }

  /** Included nodes stand where their tag stood, in the same scope. */
  lemma IncludeAhead(loops: seq<Binding>, needs: seq<VarNeed>, b: Res<Parsed>, r: Res<Parsed>)
    requires b.Ok? && Accepts(loops, needs, b) && Accepts(loops, b.value.needs, r)
    ensures Accepts(loops, needs, Prepend(b.value.nodes, r))
  {
    hide NodesIn, NodesNeeds, Prepend;
    AcceptsAhead(loops, needs, b.value.nodes, r);
  }

  /** Whatever is accepted lies in the subset, and what is recorded is a function of the nodes, includes or not. */
  lemma {:induction false} OnlyTheSubset(sc: Scope, toks: seq<Tok>, stop: Option<string>, needs: seq<VarNeed>)
    ensures Accepts(sc.loops, needs, ParseNodes(sc, toks, stop, needs))
    decreases if sc.depth < MAX_INCLUDE_DEPTH then MAX_INCLUDE_DEPTH - sc.depth else 0, |toks|
  {
    hide Accepts, ParseOutput, ParseCond, ParseForHead, FirstWord, TagArg, IncludedTokens, Prepend;
    var r := ParseNodes(sc, toks, stop, needs);
    if r.Err? {
      Declined(sc.loops, needs, r);
    } else if toks == [] {
      NothingParsed(sc.loops, [], needs);
    } else {
      match toks[0]
      case TextTok(t) =>
        OnlyTheSubset(sc, toks[1..], stop, needs);
        TextAhead(sc.loops, needs, t, ParseNodes(sc, toks[1..], stop, needs));
      case OutputTok(inner) =>
        var needs1 := ParseOutput(sc.loops, needs, inner).value.1;
        OnlyTheSubset(sc, toks[1..], stop, needs1);
        OutputAhead(sc.loops, needs, inner, ParseNodes(sc, toks[1..], stop, needs1));
      case TagTok(inner) =>
        var word := FirstWord(inner);
        var arg := TagArg(inner, word);
        if stop == Some(word) {
          NothingParsed(sc.loops, toks[1..], needs);
        } else if word == "if" {
          var needs1 := ParseCond(sc.loops, needs, arg).value.1;
          var b := ParseNodes(sc, toks[1..], Some("endif"), needs1);
          OnlyTheSubset(sc, toks[1..], Some("endif"), needs1);
          OnlyTheSubset(sc, b.value.rest, stop, b.value.needs);
          IfAhead(sc.loops, needs, arg, b, ParseNodes(sc, b.value.rest, stop, b.value.needs));
        } else if word == "for" {
          var (head, needs1) := ParseForHead(sc.loops, needs, arg).value;
          var inside := sc.(loops := sc.loops + [Binding(head.variable, head.collection)]);
          var b := ParseNodes(inside, toks[1..], Some("endfor"), needs1);
          OnlyTheSubset(inside, toks[1..], Some("endfor"), needs1);
          OnlyTheSubset(sc, b.value.rest, stop, b.value.needs);
          ForAhead(sc.loops, needs, arg, b, ParseNodes(sc, b.value.rest, stop, b.value.needs));
        } else {
          var sub := IncludedTokens(sc, arg).value;
          var b := ParseNodes(sc.(depth := sc.depth + 1), sub, None, needs);
          OnlyTheSubset(sc.(depth := sc.depth + 1), sub, None, needs);
          OnlyTheSubset(sc, toks[1..], stop, b.value.needs);
          IncludeAhead(sc.loops, needs, b, ParseNodes(sc, toks[1..], stop, b.value.needs));
        }
    }
  }

  /** A template that parses has nodes of the subset, and its recorded needs are those of its nodes. */
  lemma TemplatesOfTheSubset(source: string, lookup: string -> Option<string>)
    requires ParseTemplate(source, lookup).Ok?
    ensures var p := ParseTemplate(source, lookup).value;
            NodesIn([], p.nodes) && p.needs == NodesNeeds([], [], p.nodes)
  {
    hide ParseNodes, Lex, NodesIn, NodesNeeds;
    OnlyTheSubset(TopScope(lookup), Lex(source).value, None, []);
  }

  /** Tags other than `if`, `for` and `include` decline, also an end tag nobody waits for. */
  lemma OtherTagsDeclined(sc: Scope, inner: string, rest: seq<Tok>, stop: Option<string>, needs: seq<VarNeed>)
    requires FirstWord(inner) != "if" && FirstWord(inner) != "for" && FirstWord(inner) != "include" && stop != Some(FirstWord(inner))
    ensures ParseNodes(sc, [TagTok(inner)] + rest, stop, needs) == Err("unsupported-tag")
  {
    hide FirstWord;
  }

  /** A block that is not closed declines. */
  lemma {:induction false} UnclosedDeclined(sc: Scope, stop: string, needs: seq<VarNeed>, texts: seq<string>)
    ensures ParseNodes(sc, Texts(texts), Some(stop), needs) == Err("unclosed-block-tag")
    decreases |texts|
  {
    if texts != [] {
      UnclosedDeclined(sc, stop, needs, texts[1..]);
    }
  }

  function Texts(texts: seq<string>): seq<Tok> {
    if texts == [] then [] else [TextTok(texts[0])] + Texts(texts[1..])
  }

  /** An include with parameters, of a variable, of nothing, or of a file that is not there declines. */
  lemma IncludeDeclined(sc: Scope, arg: string, rest: seq<Tok>, stop: Option<string>, needs: seq<VarNeed>)
    requires arg != [] && Tight(arg) && stop != Some("include")
    requires '=' in arg || '{' in arg || sc.lookup(arg) == None
    ensures ParseNodes(sc, [TagTok("include " + arg)] + rest, stop, needs).Err?
  {
    hide FirstWord, TagArg, Tight, Lex;
    assert "include" + " " == "include ";
    WordAndArg("include", arg);
  }

  // ---- how deep includes go ----

  /** A tag that includes a file, in its braces. */
  function IncludeSource(name: string): string {
    Slot(true, " " + ("include " + name) + " ")
  }

  /** Each file includes the next one, and the last is this text. */
  predicate Links(lookup: string -> Option<string>, names: seq<string>, text: string) {
    && names != [] && (forall i | 0 <= i < |names| :: Ident(names[i]))
    && (forall i | 0 <= i < |names| - 1 :: lookup(names[i]) == Some(IncludeSource(names[i + 1])))
    && lookup(Last(names)) == Some(text)
  }

  lemma OneSlot(inner: string)
    requires InnerOk(true, inner)
    ensures Lex(Slot(true, inner)) == Ok([TagTok(Trim(inner))])
  {
    hide Lex, Trim, InnerOk, Slot;
    var toks := [TagTok(inner)];
    assert toks[1..] == [] && WellShown(toks);
    assert ShownAll(toks) == Slot(true, inner) + [] == Slot(true, inner);
    LexShown(toks);
    assert TrimmedAll(toks) == [TagTok(Trim(inner))] + [] == [TagTok(Trim(inner))];
  }

  lemma IncludeLexes(name: string)
    requires Ident(name)
    ensures Lex(IncludeSource(name)) == Ok([TagTok("include " + name)])
  {
    hide Lex, Trim, InnerOk, Slot;
    var word := "include " + name;
    var inner := " " + word + " ";
    assert Tight(word) && '%' !in inner && Closer(true)[0] == '%';
    PlainInner(true, inner);
    OneSlot(inner);
    hide Tight;
    TrimPadded(" ", word, " ");
  }

  lemma IncludeWords(name: string)
    requires Ident(name)
    ensures FirstWord("include " + name) == "include" && TagArg("include " + name, "include") == name
    ensures name != [] && '=' !in name && '{' !in name
  {
    hide FirstWord, TagArg;
    assert "include" + " " == "include ";
    WordAndArg("include", name);
  }

  /** A chain of includes goes through when it is no longer than eight, counted from the outermost file. */
  lemma {:induction false} ChainFrom(sc: Scope, names: seq<string>, text: string, needs: seq<VarNeed>)
    requires Links(sc.lookup, names, text) && TextOk(text, false)
    ensures ParseNodes(sc, [TagTok("include " + names[0])], None, needs)
         == if sc.depth + |names| <= 8 then Ok(Parsed([Text(text)], [], needs)) else Err("include-depth")
    decreases |names|
  {
    hide FirstWord, TagArg, Lex, TextOk, Ident, IncludeSource;
    var name := names[0];
    var tag := TagTok("include " + name);
    var deeper := sc.(depth := sc.depth + 1);
    assert [tag][1..] == [] && [Text(text)] + [] == [Text(text)];
    IncludeWords(name);
    if sc.depth < 8 {
      if |names| == 1 {
        LexText(text);
        assert [TextTok(text)][1..] == [];
        assert ParseNodes(deeper, [], None, needs) == Ok(Parsed([], [], needs));
      } else {
        IncludeLexes(names[1]);
        assert Last(names[1..]) == Last(names);
        ChainFrom(deeper, names[1..], text, needs);
      }
    }
  }

  lemma IncludeChain(lookup: string -> Option<string>, names: seq<string>, text: string)
    requires Links(lookup, names, text) && TextOk(text, false)
    ensures ParseTemplate(IncludeSource(names[0]), lookup)
         == if |names| <= 8 then Ok(Parsed([Text(text)], [], [])) else Err("include-depth")
  {
    hide TextOk, Ident, IncludeSource, Lex, ParseNodes;
    assert Ident(names[0]);
    IncludeLexes(names[0]);
    ChainFrom(TopScope(lookup), names, text, []);
  }
}
