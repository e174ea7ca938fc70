/**
 The parser as it runs: one context whose needs, loop variables and include depth are
 pushed, patched and popped in place, and a token cursor that only moves forward.
 */
module LiquidusParser {
  import opened Common
  import opened LiquidusText
  import opened LiquidusSyntax
  import G = LiquidusGrammar
  import M = LiquidusMerge
  import S = LiquidusSoundness

  /** The lexer's loop over the remaining text. */
  method Lex(source: string) returns (r: Res<seq<G.Tok>>)
    ensures r == G.Lex(source)
  {
    var items, rest := [], source;
    assert G.Lex(source).Ok? ==> [] + G.Lex(source).value == G.Lex(source).value;
    while rest != []
      invariant match G.Lex(rest)
                case Ok(more) => G.Lex(source) == Ok(items + more)
                case Err(e) => G.Lex(source) == Err(e)
      decreases |rest|
    {
      var next :- G.LexSegment(rest);
      var (segment, after) := next;
      ghost var more := G.Lex(after);
      assert more.Ok? ==> items + (segment + more.value) == (items + segment) + more.value;
      items, rest := items + segment, after;
    }
    assert items + [] == items;
    r := Ok(items);
  }

  class Toks {
    const items: seq<G.Tok>
    var pos: nat

    constructor (items: seq<G.Tok>)
      ensures this.items == items && pos == 0
    {
      this.items := items;
      pos := 0;
    }
  }

  class Ctx {
    const lookup: string -> Option<string>
    var needs: seq<VarNeed>
    var loopVars: seq<G.Binding>
    var depth: nat

    constructor (lookup: string -> Option<string>)
      ensures this.lookup == lookup && needs == [] && loopVars == [] && depth == 0
    {
      this.lookup := lookup;
      needs, loopVars, depth := [], [], 0;
    }

    ghost function ScopeNow(): G.Scope
      reads this
    {
      G.Scope(lookup, loopVars, depth)
    }

    /** Search from the newest need backwards. */
    method NewestNeed(path: string) returns (r: Option<nat>)
      ensures r == G.LastNeed(needs, path)
    {
      var i: nat := |needs|;
      assert needs[..|needs|] == needs;
      while i > 0
        invariant i <= |needs|
        invariant G.LastNeed(needs, path) == G.LastNeed(needs[..i], path)
      {
        assert Front(needs[..i]) == needs[..i - 1];
        i := i - 1;
        if needs[i].path == path {
          return Some(i);
        }
      }
      r := None;
    }

    /** Record a field read of the items of `collection` on its newest need. */
    method AddField(collection: string, field: string)
      modifies this`needs
      ensures needs == G.AttachField(old(needs), collection, field)
    {
      var at := NewestNeed(collection);
      if at.Some? && field !in needs[at.value].fields {
        needs := needs[at.value := needs[at.value].(fields := needs[at.value].fields + [field])];
      }
    }

    method ParseVar(src: string) returns (r: Res<VarRef>)
      modifies this`needs
      ensures match G.ParseVar(loopVars, old(needs), src)
              case Ok((ref, after)) => r == Ok(ref) && needs == after
              case Err(e) => r == Err(e)
    {
      hide G.AttachField, G.CleanPaths, G.IsIdent, Split, Join, Contains;
      if Contains(src, "[") {
        return Err("index-access");
      }
      var segs := Split(src, '.');
      if exists i | 0 <= i < |segs| :: segs[i] == [] || !G.IsIdent(segs[i]) {
        return Err("bad-variable-path");
      }
      var size := Last(segs) == "size";
      if size {
        segs := Front(segs);
      }
      if segs == [] {
        return Err("bad-variable-path");
      }
      if segs[0] == "forloop" {
        return Err("forloop-variable");
      }
      match G.OutermostBinding(loopVars, segs[0])
      case Some(collection) =>
        if |segs| > 2 {
          return Err("deep-loop-field");
        }
        if |segs| == 2 {
          AddField(collection, segs[1]);
          return Ok(Loop(segs[0], Some(segs[1]), size));
        }
        return Ok(Loop(segs[0], None, size));
      case None =>
        var path := Join(segs, ".");
        needs := needs + [VarNeed(path, if size then Some(0) else None, size, [])];
        return Ok(Supplied(path, size));
    }

    method ParseExpr(src: string) returns (r: Res<Expr>)
      modifies this`needs
      ensures match G.ParseExpr(loopVars, old(needs), src)
              case Ok((e, after)) => r == Ok(e) && needs == after
              case Err(e) => r == Err(e)
    {
      if src == [] {
        return Err("empty-expr");
      }
      if src[0] == '"' || src[0] == '\'' {
        var lit :- G.ParseStringLiteral(src);
        return Ok(lit);
      }
      if IsDigit(src[0]) || (src[0] == '-' && |src| > 1) {
        var lit :- G.ParseIntLiteral(src);
        return Ok(lit);
      }
      if G.IsKeywordLiteral(src) {
        return Err("keyword-literal");
      }
      var ref :- ParseVar(src);
      r := Ok(Var(ref));
    }

    method ParseOutput(inner: string) returns (r: Res<Node>)
      modifies this`needs
      ensures match G.ParseOutput(loopVars, old(needs), inner)
              case Ok((node, after)) => r == Ok(node) && needs == after
              case Err(e) => r == Err(e)
    {
      var parts := SplitOutsideQuotes(inner, '|');
      var e :- ParseExpr(Trim(parts[0]));
      var filters :- G.ParseFilters(loopVars, needs, parts[1..]);
      if filters != [] && filters[0].name == "size" && filters[0].args == [] && e.Var? {
        match e.ref
        case Supplied(path, false) =>
          var at := NewestNeed(path);
          if at.Some? {
            needs := needs[at.value := needs[at.value].(needSize := true, slice := Some(0))];
          }
          return Ok(Output(Var(Supplied(path, true)), filters[1..]));
        case Loop(v, f, false) =>
          return Ok(Output(Var(Loop(v, f, true)), filters[1..]));
        case _ =>
      }
      r := Ok(Output(e, filters));
    }

    /** Try the operators in order; the first one found splits the condition. */
    method ParseCond(src: string) returns (r: Res<Cond>)
      modifies this`needs
      ensures match G.ParseCond(loopVars, old(needs), src)
              case Ok((c, after)) => r == Ok(c) && needs == after
              case Err(e) => r == Err(e)
    {
      if Contains(src, " and ") || Contains(src, " or ") || Contains(src, " contains ") {
        return Err("compound-condition");
      }
      var ops := G.OPERATORS;
      while ops != []
        invariant needs == old(needs)
        invariant G.ParseCond(loopVars, needs, src) == G.ParseComparison(loopVars, needs, src, ops)
        decreases |ops|
      {
        var found := Find(src, ops[0].0);
        if found.Some? {
          var lhs :- ParseExpr(Trim(src[..found.value]));
          var rhs :- ParseExpr(Trim(src[found.value + |ops[0].0|..]));
          return Ok(Compare(lhs, ops[0].1, rhs));
        }
        ops := ops[1..];
      }
      var e :- ParseExpr(Trim(src));
      r := Ok(Truthy(e));
    }

    /** A loop reads a prefix of its collection: set the slice of the newest need. */
    method SetSlice(path: string, limit: Option<nat>)
      modifies this`needs
      ensures needs == G.PatchSlice(old(needs), path, limit)
    {
      var at := NewestNeed(path);
      if at.Some? {
        needs := needs[at.value := needs[at.value].(slice := limit)];
      }
    }

    method ParseForHead(src: string) returns (r: Res<G.ForHead>)
      modifies this`needs
      ensures match G.ParseForHead(loopVars, old(needs), src)
              case Ok((head, after)) => r == Ok(head) && needs == after
              case Err(e) => r == Err(e)
    {
      hide G.ParseVar, G.PatchSlice, G.ParseLimit, G.CleanPaths, G.IsIdent, Find, Trim, Contains;
      var inAt := Find(src, " in ");
      if inAt.None? {
        return Err("for-shape");
      }
      var variable := Trim(src[..inAt.value]);
      if !G.IsIdent(variable) {
        return Err("for-shape");
      }
      var tail :- G.ParseLimit(Trim(src[inAt.value + 4..]));
      var (collSrc, limit) := tail;
      if Contains(collSrc, "reversed") || Contains(collSrc, "offset") || Contains(collSrc, "(") {
        return Err("for-modifiers");
      }
      var ref :- ParseVar(collSrc);
      if !(ref.Supplied? && !ref.size) {
        return Err("for-collection-shape");
      }
      SetSlice(ref.path, limit);
      r := Ok(G.ForHead(variable, ref.path, limit));
    }

    /** Parse until `stop` or the end; the cursor ends where the specification's rest begins. */
    method ParseNodes(toks: Toks, stop: Option<string>) returns (r: Res<seq<Node>>)
      requires toks.pos <= |toks.items|
      modifies this, toks
      ensures old(toks.pos) <= toks.pos <= |toks.items|
      ensures loopVars == old(loopVars) && depth == old(depth)
      ensures match G.ParseNodes(old(ScopeNow()), toks.items[old(toks.pos)..], stop, old(needs))
              case Ok(p) => r == Ok(p.nodes) && toks.items[toks.pos..] == p.rest && needs == p.needs
              case Err(e) => r == Err(e)
      decreases if depth < G.MAX_INCLUDE_DEPTH then G.MAX_INCLUDE_DEPTH - depth else 0, |toks.items| - toks.pos, 0
    {
      hide G.ParseNodes, G.ParseOutput, FirstWord;
      ghost var sc := ScopeNow();
      ghost var spec := G.ParseNodes(sc, toks.items[toks.pos..], stop, needs);
      ghost var start := toks.pos;
      var out := [];
      G.PrependNothing(spec);
      while toks.pos < |toks.items|
        invariant start <= toks.pos <= |toks.items|
        invariant loopVars == old(loopVars) && depth == old(depth)
        invariant G.Prepend(out, G.ParseNodes(sc, toks.items[toks.pos..], stop, needs)) == spec
        decreases |toks.items| - toks.pos
      {
        ghost var todo := toks.items[toks.pos..];
        ghost var recorded := needs;
        var tok := toks.items[toks.pos];
        toks.pos := toks.pos + 1;
        assert todo[0] == tok && todo[1..] == toks.items[toks.pos..];
        match tok
        case TextTok(t) =>
          TextStep(sc, todo, stop, needs, out);
          out := out + [Text(t)];
        case OutputTok(inner) =>
          OutputStep(sc, todo, stop, recorded, out);
          var node :- ParseOutput(inner);
          out := out + [node];
        case TagTok(inner) =>
          var word := FirstWord(inner);
          if stop == Some(word) {
            StopStep(sc, todo, stop, needs, out);
            return Ok(out);
          }
          var nodes :- ParseTag(toks, stop, inner, word);
          G.PrependTwice(out, nodes, G.ParseNodes(sc, toks.items[toks.pos..], stop, needs));
          out := out + nodes;
      }
      EndStep(sc, toks.items[toks.pos..], stop, needs, out);
      if stop.Some? {
        return Err("unclosed-block-tag");
      }
      r := Ok(out);
    }

    /** One tag other than the stop tag, with its block or its include. */
    method ParseTag(toks: Toks, ghost stop: Option<string>, inner: string, word: string) returns (r: Res<seq<Node>>)
      requires 0 < toks.pos <= |toks.items| && toks.items[toks.pos - 1] == G.TagTok(inner)
      requires word == FirstWord(inner) && stop != Some(word)
      modifies this, toks
      ensures old(toks.pos) <= toks.pos <= |toks.items|
      ensures loopVars == old(loopVars) && depth == old(depth)
      ensures var spec := G.ParseNodes(old(ScopeNow()), toks.items[old(toks.pos) - 1..], stop, old(needs));
              match r
              case Ok(nodes) => spec == G.Prepend(nodes, G.ParseNodes(old(ScopeNow()), toks.items[toks.pos..], stop, needs))
              case Err(e) => spec == Err(e)
      decreases if depth < G.MAX_INCLUDE_DEPTH then G.MAX_INCLUDE_DEPTH - depth else 0, |toks.items| - toks.pos, 2
    {
      hide G.ParseOutput, G.ParseCond, G.ParseForHead, G.TagArg, G.IncludedTokens, FirstWord;
      ghost var todo := toks.items[toks.pos - 1..];
      assert todo[0] == G.TagTok(inner) && todo[1..] == toks.items[toks.pos..];
      var arg := G.TagArg(inner, word);
      if word == "if" {
        var cond :- ParseCond(arg);
        var body :- ParseNodes(toks, Some("endif"));
        r := Ok([If(cond, body)]);
      } else if word == "for" {
        r := ParseFor(toks, arg);
      } else if word == "include" {
        r := ParseInclude(arg);
      } else {
        r := Err("unsupported-tag");
      }
    }

    /** The loop variable is pushed for the body only, and popped also when the body declines. */
    method ParseFor(toks: Toks, arg: string) returns (r: Res<seq<Node>>)
      requires toks.pos <= |toks.items|
      modifies this, toks
      ensures old(toks.pos) <= toks.pos <= |toks.items|
      ensures loopVars == old(loopVars) && depth == old(depth)
      ensures match G.ParseForHead(old(loopVars), old(needs), arg)
              case Err(e) => r == Err(e)
              case Ok((head, needs1)) =>
                var inside := G.Scope(lookup, old(loopVars) + [G.Binding(head.variable, head.collection)], old(depth));
                match G.ParseNodes(inside, toks.items[old(toks.pos)..], Some("endfor"), needs1)
                case Err(e) => r == Err(e)
                case Ok(b) =>
                  && r == Ok([For(head.variable, head.collection, head.limit, b.nodes)])
                  && needs == b.needs && toks.items[toks.pos..] == b.rest
      decreases if depth < G.MAX_INCLUDE_DEPTH then G.MAX_INCLUDE_DEPTH - depth else 0, |toks.items| - toks.pos, 1
    {
      hide G.ParseForHead, G.ParseNodes;
      var head :- ParseForHead(arg);
      loopVars := loopVars + [G.Binding(head.variable, head.collection)];
      var body := ParseNodes(toks, Some("endfor"));
      loopVars := Front(loopVars);
      assert loopVars == old(loopVars);
      if body.Err? {
        return Err(body.error);
      }
      r := Ok([For(head.variable, head.collection, head.limit, body.value)]);
    }

    /** The included text is lexed and parsed with its own cursor, one level deeper. */
    method ParseInclude(arg: string) returns (r: Res<seq<Node>>)
      modifies this
      ensures loopVars == old(loopVars) && depth == old(depth)
      ensures match G.IncludedTokens(old(ScopeNow()), arg)
              case Err(e) => r == Err(e)
              case Ok(sub) =>
                match G.ParseNodes(old(ScopeNow()).(depth := old(depth) + 1), sub, None, old(needs))
                case Err(e) => r == Err(e)
                case Ok(b) =>
                  if b.rest != [] then r == Err("unbalanced-block-tags") else r == Ok(b.nodes) && needs == b.needs
      decreases if depth < G.MAX_INCLUDE_DEPTH then G.MAX_INCLUDE_DEPTH - depth else 0, 0, 0
    {
      hide G.ParseNodes;
      if arg == [] || '=' in arg || '{' in arg {
        return Err("include-params");
      }
      if depth >= G.MAX_INCLUDE_DEPTH {
        return Err("include-depth");
      }
      var found := lookup(arg);
      if found.None? {
        return Err("include-unresolved");
      }
      var items :- Lex(found.value);
      var sub := new Toks(items);
      assert sub.items[0..] == items;
      depth := depth + 1;
      var nodes := ParseNodes(sub, None);
      depth := depth - 1;
      if nodes.Err? {
        return nodes;
      }
      if sub.pos < |sub.items| {
        return Err("unbalanced-block-tags");
      }
      r := nodes;
    }
  }

  // The specification's first token, with what is already parsed in front.

  lemma TextStep(sc: G.Scope, toks: seq<G.Tok>, stop: Option<string>, needs: seq<VarNeed>, out: seq<Node>)
    requires toks != [] && toks[0].TextTok?
    ensures G.Prepend(out, G.ParseNodes(sc, toks, stop, needs))
         == G.Prepend(out + [Text(toks[0].text)], G.ParseNodes(sc, toks[1..], stop, needs))
  {
    G.PrependTwice(out, [Text(toks[0].text)], G.ParseNodes(sc, toks[1..], stop, needs));
  }

  lemma OutputStep(sc: G.Scope, toks: seq<G.Tok>, stop: Option<string>, needs: seq<VarNeed>, out: seq<Node>)
    requires toks != [] && toks[0].OutputTok?
    ensures var all := G.Prepend(out, G.ParseNodes(sc, toks, stop, needs));
            match G.ParseOutput(sc.loops, needs, toks[0].inner)
            case Err(e) => all == Err(e)
            case Ok(p) => all == G.Prepend(out + [p.0], G.ParseNodes(sc, toks[1..], stop, p.1))
  {
    hide G.ParseOutput;
    var first := G.ParseOutput(sc.loops, needs, toks[0].inner);
    if first.Ok? {
      G.PrependTwice(out, [first.value.0], G.ParseNodes(sc, toks[1..], stop, first.value.1));
    }
  }

  lemma StopStep(sc: G.Scope, toks: seq<G.Tok>, stop: Option<string>, needs: seq<VarNeed>, out: seq<Node>)
    requires toks != [] && toks[0].TagTok? && stop == Some(FirstWord(toks[0].inner))
    ensures G.Prepend(out, G.ParseNodes(sc, toks, stop, needs)) == Ok(G.Parsed(out, toks[1..], needs))
  {
    hide FirstWord;
    assert out + [] == out;
  }

  lemma EndStep(sc: G.Scope, toks: seq<G.Tok>, stop: Option<string>, needs: seq<VarNeed>, out: seq<Node>)
    requires toks == []
    ensures G.Prepend(out, G.ParseNodes(sc, toks, stop, needs))
         == if stop.Some? then Err("unclosed-block-tag") else Ok(G.Parsed(out, [], needs))
  {
    assert out + [] == out;
  }

  /** `compile`, end to end. */
  method Compile(source: string, lookup: string -> Option<string>) returns (r: Res<Template>)
    ensures r == S.Compile(source, lookup)
  {
    var items :- Lex(source);
    var ctx := new Ctx(lookup);
    var toks := new Toks(items);
    assert toks.items[0..] == items;
    var nodes :- ctx.ParseNodes(toks, None);
    if toks.pos < |toks.items| {
      return Err("unbalanced-block-tags");
    }
    var needs := M.MergeNeeds(ctx.needs);
    r := Ok(Template(nodes, needs));
  }
}
