/**
 What the liquidus parser computes, as functions of the token list: the nodes and the
 list of recorded needs, or the reason for declining. The loops that compute it are in
 LiquidusParser.
 */
module LiquidusGrammar {
  import opened Common
  import opened LiquidusText
  import opened LiquidusSyntax

  datatype Tok =
    | TextTok(text: string)
    | OutputTok(inner: string)
    | TagTok(inner: string)

  // ---- lexing into segments ----

  /** The next opener in `rest`: its offset and whether it opens a tag; `{%` wins a tie. */
  function NextOpener(rest: string): (r: Option<(nat, bool)>)
    ensures r.Some? ==> r.value.0 + 2 <= |rest|
  {
    match (Find(rest, "{{"), Find(rest, "{%"))
    case (None, None) => None
    case (Some(o), None) => Some((o, false))
    case (None, Some(t)) => Some((t, true))
    case (Some(o), Some(t)) => if o < t then Some((o, false)) else Some((t, true))
  }

  /** One segment: the tokens it contributes and the text after it. */
  function LexSegment(rest: string): (r: Res<(seq<Tok>, string)>)
    requires rest != []
    ensures r.Ok? ==> |r.value.1| < |rest|
  {
    match NextOpener(rest)
    case None => Ok(([TextTok(rest)], []))
    case Some((at, isTag)) =>
      var lead := if at > 0 then [TextTok(rest[..at])] else [];
      var body := rest[at + 2..];
      match Find(body, if isTag then "%}" else "}}")
      case None => Err("unterminated-tag")
      case Some(close) =>
        var inner := body[..close];
        if inner != [] && (inner[0] == '-' || Last(inner) == '-') then Err("whitespace-control")
        else Ok((lead + [if isTag then TagTok(Trim(inner)) else OutputTok(Trim(inner))], body[close + 2..]))
  }

  function Lex(source: string): Res<seq<Tok>>
    decreases |source|
  {
    if source == [] then Ok([])
    else
      var (items, rest) :- LexSegment(source);
      var more :- Lex(rest);
      Ok(items + more)
  }

  // ---- expressions ----

  datatype Binding = Binding(variable: string, collection: string)

  /** What stays fixed while one block is parsed: the includes, the loop variables in scope, the include depth. */
  datatype Scope = Scope(lookup: string -> Option<string>, loops: seq<Binding>, depth: nat)

  const MAX_INCLUDE_DEPTH: nat := 8

  predicate IsIdent(s: string) {
    forall i | 0 <= i < |s| ::
      IsDigit(s[i]) || 'a' <= s[i] <= 'z' || 'A' <= s[i] <= 'Z' || s[i] == '_' || s[i] == '-'
  }

  /** The parser looks a loop variable up from the outermost loop inwards. */
  function OutermostBinding(loops: seq<Binding>, name: string): (r: Option<string>)
    ensures r.None? <==> forall b | b in loops :: b.variable != name
  {
    if loops == [] then None
    else if loops[0].variable == name then Some(loops[0].collection)
    else OutermostBinding(loops[1..], name)
  }

  /** Index of the most recently recorded need for `path`. */
  function LastNeed(needs: seq<VarNeed>, path: string): (r: Option<nat>)
    ensures r.Some? ==> r.value < |needs| && needs[r.value].path == path
    ensures r.None? ==> forall n | n in needs :: n.path != path
  {
    if needs == [] then None
    else if Last(needs).path == path then Some(|needs| - 1)
    else LastNeed(Front(needs), path)
  }

  /** Record that items of `collection` are read at `field`. */
  function AttachField(needs: seq<VarNeed>, collection: string, field: string): seq<VarNeed> {
    match LastNeed(needs, collection)
    case None => needs
    case Some(i) =>
      if field in needs[i].fields then needs
      else needs[i := needs[i].(fields := needs[i].fields + [field])]
  }

  /** No path contains the separator of the `path#size` companions. */
  predicate CleanPaths(needs: seq<VarNeed>) {
    forall i | 0 <= i < |needs| :: '#' !in needs[i].path
  }

  lemma {:induction false} JoinClean(segs: seq<string>)
    requires forall i | 0 <= i < |segs| :: IsIdent(segs[i])
    ensures '#' !in Join(segs, ".")
  {
    if segs == [] {
    } else {
      assert IsIdent(segs[0]);
      assert '#' !in segs[0];
      JoinClean(segs[1..]);
    }
  }

  function ParseVar(loops: seq<Binding>, needs: seq<VarNeed>, src: string): (r: Res<(VarRef, seq<VarNeed>)>)
    ensures r.Ok? && CleanPaths(needs) ==> CleanPaths(r.value.1)
  {
    if Contains(src, "[") then Err("index-access")
    else
      var all := Split(src, '.');
      if exists i | 0 <= i < |all| :: all[i] == [] || !IsIdent(all[i]) then Err("bad-variable-path")
      else
        var size := Last(all) == "size";
        var segs := if size then Front(all) else all;
        if segs == [] then Err("bad-variable-path")
        else if segs[0] == "forloop" then Err("forloop-variable")
        else
          match OutermostBinding(loops, segs[0])
          case Some(collection) =>
            if |segs| > 2 then Err("deep-loop-field")
            else if |segs| == 2 then
              Ok((Loop(segs[0], Some(segs[1]), size), AttachField(needs, collection, segs[1])))
            else Ok((Loop(segs[0], None, size), needs))
          case None =>
            var path := Join(segs, ".");
            JoinClean(segs);
            Ok((Supplied(path, size), needs + [VarNeed(path, if size then Some(0) else None, size, [])]))
  }

  predicate IsKeywordLiteral(src: string) {
    src == "true" || src == "false" || src == "nil" || src == "null" || src == "empty" || src == "blank"
  }

  function ParseStringLiteral(src: string): Res<Expr>
    requires src != []
  {
    if |src| < 2 || Last(src) != src[0] then Err("unterminated-string-literal")
    else
      var inner := src[1..|src| - 1];
      if src[0] in inner || '\\' in inner then Err("string-literal-escape")
      else Ok(StrLit(inner))
  }

  function ParseIntLiteral(src: string): Res<Expr> {
    if '.' in src then Err("float-literal")
    else match ParseInteger(src, I64_MIN, I64_MAX)
      case Some(n) => Ok(IntLit(n))
      case None => Err("bad-int-literal")
  }

  function ParseExpr(loops: seq<Binding>, needs: seq<VarNeed>, src: string): (r: Res<(Expr, seq<VarNeed>)>)
    ensures r.Ok? && !r.value.0.Var? ==> r.value.1 == needs
    ensures r.Ok? && CleanPaths(needs) ==> CleanPaths(r.value.1)
  {
    if src == [] then Err("empty-expr")
    else if src[0] == '"' || src[0] == '\'' then
      var lit :- ParseStringLiteral(src);
      Ok((lit, needs))
    else if IsDigit(src[0]) || (src[0] == '-' && |src| > 1) then
      var lit :- ParseIntLiteral(src);
      Ok((lit, needs))
    else if IsKeywordLiteral(src) then Err("keyword-literal")
    else
      var (ref, needs1) :- ParseVar(loops, needs, src);
      Ok((Var(ref), needs1))
  }

  // ---- outputs and filters ----

  const FILTER_NAMES: set<string> := {
    "date", "date_to_xmlschema", "slugify", "upcase", "downcase", "truncate", "relative_url",
    "escape", "number_of_words", "size", "strip", "append", "prepend"
  }

  /** Filter arguments must be literals, so parsing them records nothing. */
  function ParseArgs(loops: seq<Binding>, needs: seq<VarNeed>, parts: seq<string>): Res<seq<Expr>> {
    if parts == [] then Ok([])
    else
      var (e, _) :- ParseExpr(loops, needs, Trim(parts[0]));
      if e.Var? then Err("filter-var-arg")
      else
        var rest :- ParseArgs(loops, needs, parts[1..]);
        Ok([e] + rest)
  }

  function ParseFilter(loops: seq<Binding>, needs: seq<VarNeed>, src: string): Res<FilterCall> {
    var (head, argsSrc) := match Find(src, ":")
      case Some(c) => (src[..c], Some(src[c + 1..]))
      case None => (src, None);
    var name := Trim(head);
    if name !in FILTER_NAMES then Err("unsupported-filter")
    else
      match argsSrc
      case None => Ok(FilterCall(name, []))
      case Some(a) =>
        var args :- ParseArgs(loops, needs, SplitUnquoted(a, ','));
        Ok(FilterCall(name, args))
  }

  function ParseFilters(loops: seq<Binding>, needs: seq<VarNeed>, parts: seq<string>): Res<seq<FilterCall>> {
    if parts == [] then Ok([])
    else
      var f :- ParseFilter(loops, needs, Trim(parts[0]));
      var rest :- ParseFilters(loops, needs, parts[1..]);
      Ok([f] + rest)
  }

  /** Shrink the newest need for `path` to "its size only". */
  function ShrinkToSize(needs: seq<VarNeed>, path: string): seq<VarNeed> {
    match LastNeed(needs, path)
    case None => needs
    case Some(i) => needs[i := needs[i].(needSize := true, slice := Some(0))]
  }

  /** `x | size` reads `x.size`: the leading filter moves onto the variable reference. */
  function RewriteSize(e: Expr, filters: seq<FilterCall>, needs: seq<VarNeed>): (Node, seq<VarNeed>) {
    if filters != [] && filters[0].name == "size" && filters[0].args == [] && e.Var? then
      match e.ref
      case Supplied(path, false) =>
        (Output(Var(Supplied(path, true)), filters[1..]), ShrinkToSize(needs, path))
      case Loop(v, f, false) =>
        (Output(Var(Loop(v, f, true)), filters[1..]), needs)
      case _ => (Output(e, filters), needs)
    else (Output(e, filters), needs)
  }

  function ParseOutput(loops: seq<Binding>, needs: seq<VarNeed>, inner: string): (r: Res<(Node, seq<VarNeed>)>)
    ensures r.Ok? && CleanPaths(needs) ==> CleanPaths(r.value.1)
  {
    var parts := SplitUnquoted(inner, '|');
    var (e, needs1) :- ParseExpr(loops, needs, Trim(parts[0]));
    var filters :- ParseFilters(loops, needs1, parts[1..]);
    Ok(RewriteSize(e, filters, needs1))
  }

  // ---- conditions and loop heads ----

  const OPERATORS: seq<(string, CmpOp)> :=
    [(">=", Ge), ("<=", Le), ("==", Eq), ("!=", Ne), (">", Gt), ("<", Lt)]

  function ParseComparison(loops: seq<Binding>, needs: seq<VarNeed>, src: string, ops: seq<(string, CmpOp)>)
    : (r: Res<(Cond, seq<VarNeed>)>)
    ensures r.Ok? && CleanPaths(needs) ==> CleanPaths(r.value.1)
  {
    if ops == [] then
      var (e, needs1) :- ParseExpr(loops, needs, Trim(src));
      Ok((Truthy(e), needs1))
    else
      match Find(src, ops[0].0)
      case None => ParseComparison(loops, needs, src, ops[1..])
      case Some(at) =>
        var (lhs, needs1) :- ParseExpr(loops, needs, Trim(src[..at]));
        var (rhs, needs2) :- ParseExpr(loops, needs1, Trim(src[at + |ops[0].0|..]));
        Ok((Compare(lhs, ops[0].1, rhs), needs2))
  }

  function ParseCond(loops: seq<Binding>, needs: seq<VarNeed>, src: string): (r: Res<(Cond, seq<VarNeed>)>)
    ensures r.Ok? && CleanPaths(needs) ==> CleanPaths(r.value.1)
  {
    if Contains(src, " and ") || Contains(src, " or ") || Contains(src, " contains ") then
      Err("compound-condition")
    else ParseComparison(loops, needs, src, OPERATORS)
  }

  datatype ForHead = ForHead(variable: string, collection: string, limit: Option<nat>)

  /** Patch the newest need for `path` with the loop's limit. */
  function PatchSlice(needs: seq<VarNeed>, path: string, limit: Option<nat>): seq<VarNeed> {
    match LastNeed(needs, path)
    case None => needs
    case Some(i) => needs[i := needs[i].(slice := limit)]
  }

  function ParseLimit(rest: string): Res<(string, Option<nat>)> {
    match Find(rest, "limit:")
    case None => Ok((rest, None))
    case Some(at) =>
      match ParseInteger(Trim(rest[at + 6..]), 0, USIZE_MAX)
      case None => Err("for-limit-shape")
      case Some(n) => Ok((Trim(rest[..at]), Some(n)))
  }

  function ParseForHead(loops: seq<Binding>, needs: seq<VarNeed>, src: string): (r: Res<(ForHead, seq<VarNeed>)>)
    ensures r.Ok? && CleanPaths(needs) ==> CleanPaths(r.value.1)
  {
    match Find(src, " in ")
    case None => Err("for-shape")
    case Some(inAt) =>
      var variable := Trim(src[..inAt]);
      if !IsIdent(variable) then Err("for-shape")
      else
        var (collSrc, limit) :- ParseLimit(Trim(src[inAt + 4..]));
        if Contains(collSrc, "reversed") || Contains(collSrc, "offset") || Contains(collSrc, "(") then
          Err("for-modifiers")
        else
          var (ref, needs1) :- ParseVar(loops, needs, collSrc);
          if ref.Supplied? && !ref.size then
            Ok((ForHead(variable, ref.path, limit), PatchSlice(needs1, ref.path, limit)))
          else Err("for-collection-shape")
  }

  // ---- nodes ----

  /** The outcome of parsing one block: its nodes, the tokens after its end tag, and all needs so far. */
  datatype Parsed = Parsed(nodes: seq<Node>, rest: seq<Tok>, needs: seq<VarNeed>)

  function Prepend(nodes: seq<Node>, r: Res<Parsed>): Res<Parsed> {
    match r
    case Ok(p) => Ok(p.(nodes := nodes + p.nodes))
    case Err(_) => r
  }

  lemma PrependNothing(r: Res<Parsed>)
    ensures Prepend([], r) == r
  {
    if r.Ok? {
      assert [] + r.value.nodes == r.value.nodes;
    }
  }

  lemma PrependTwice(xs: seq<Node>, ys: seq<Node>, r: Res<Parsed>)
    ensures Prepend(xs, Prepend(ys, r)) == Prepend(xs + ys, r)
  {
    if r.Ok? {
      assert xs + (ys + r.value.nodes) == (xs + ys) + r.value.nodes;
    }
  }

  /** The stop tags the parser ever waits for. */
  predicate BlockEnd(stop: Option<string>) {
    stop == None || stop == Some("endif") || stop == Some("endfor")
  }

  /** The argument of a tag, after its first word. */
  function TagArg(inner: string, word: string): string {
    if |word| <= |inner| then Trim(inner[|word|..]) else []
  }

  function ParseNodes(sc: Scope, toks: seq<Tok>, stop: Option<string>, needs: seq<VarNeed>): (r: Res<Parsed>)
    ensures r.Ok? ==> |r.value.rest| <= |toks|
    decreases if sc.depth < MAX_INCLUDE_DEPTH then MAX_INCLUDE_DEPTH - sc.depth else 0, |toks|
  {
    if toks == [] then
      if stop.Some? then Err("unclosed-block-tag") else Ok(Parsed([], [], needs))
    else
      match toks[0]
      case TextTok(t) => Prepend([Text(t)], ParseNodes(sc, toks[1..], stop, needs))
      case OutputTok(inner) =>
        var (node, needs1) :- ParseOutput(sc.loops, needs, inner);
        Prepend([node], ParseNodes(sc, toks[1..], stop, needs1))
      case TagTok(inner) =>
        var word := FirstWord(inner);
        if stop == Some(word) then Ok(Parsed([], toks[1..], needs))
        else if word == "if" then
          var (cond, needs1) :- ParseCond(sc.loops, needs, TagArg(inner, word));
          var b :- ParseNodes(sc, toks[1..], Some("endif"), needs1);
          Prepend([If(cond, b.nodes)], ParseNodes(sc, b.rest, stop, b.needs))
        else if word == "for" then
          var (head, needs1) :- ParseForHead(sc.loops, needs, TagArg(inner, word));
          var inside := sc.(loops := sc.loops + [Binding(head.variable, head.collection)]);
          var b :- ParseNodes(inside, toks[1..], Some("endfor"), needs1);
          Prepend([For(head.variable, head.collection, head.limit, b.nodes)], ParseNodes(sc, b.rest, stop, b.needs))
        else if word == "include" then
          var sub :- IncludedTokens(sc, TagArg(inner, word));
          var b :- ParseNodes(sc.(depth := sc.depth + 1), sub, None, needs);
          if b.rest != [] then Err("unbalanced-block-tags")
          else Prepend(b.nodes, ParseNodes(sc, toks[1..], stop, b.needs))
        else Err("unsupported-tag")
  }

  /** The tokens an include contributes, subject to the parameter and depth checks. */
  function IncludedTokens(sc: Scope, arg: string): (r: Res<seq<Tok>>)
    ensures r.Ok? ==> sc.depth < MAX_INCLUDE_DEPTH
  {
    if arg == [] || '=' in arg || '{' in arg then Err("include-params")
    else if sc.depth >= MAX_INCLUDE_DEPTH then Err("include-depth")
    else
      match sc.lookup(arg)
      case None => Err("include-unresolved")
      case Some(body) => Lex(body)
  }

  lemma {:induction false} ParseNodesClean(sc: Scope, toks: seq<Tok>, stop: Option<string>, needs: seq<VarNeed>)
    requires CleanPaths(needs) && ParseNodes(sc, toks, stop, needs).Ok?
    ensures CleanPaths(ParseNodes(sc, toks, stop, needs).value.needs)
    decreases if sc.depth < MAX_INCLUDE_DEPTH then MAX_INCLUDE_DEPTH - sc.depth else 0, |toks|
  {
    hide ParseOutput, ParseCond, ParseForHead, FirstWord, TagArg, IncludedTokens, CleanPaths;
    if toks == [] {
    } else {
      match toks[0]
      case TextTok(_) => ParseNodesClean(sc, toks[1..], stop, needs);
      case OutputTok(inner) => ParseNodesClean(sc, toks[1..], stop, ParseOutput(sc.loops, needs, inner).value.1);
      case TagTok(inner) =>
        var word := FirstWord(inner);
        var arg := TagArg(inner, word);
        if stop == Some(word) {
        } else if word == "if" {
          var (_, needs1) := ParseCond(sc.loops, needs, arg).value;
          ParseNodesClean(sc, toks[1..], Some("endif"), needs1);
          var b := ParseNodes(sc, toks[1..], Some("endif"), needs1).value;
          ParseNodesClean(sc, b.rest, stop, b.needs);
        } else if word == "for" {
          var (head, needs1) := ParseForHead(sc.loops, needs, arg).value;
          var inside := sc.(loops := sc.loops + [Binding(head.variable, head.collection)]);
          ParseNodesClean(inside, toks[1..], Some("endfor"), needs1);
          var b := ParseNodes(inside, toks[1..], Some("endfor"), needs1).value;
          ParseNodesClean(sc, b.rest, stop, b.needs);
        } else {
          var sub := IncludedTokens(sc, arg).value;
          var deeper := sc.(depth := sc.depth + 1);
          ParseNodesClean(deeper, sub, None, needs);
          ParseNodesClean(sc, toks[1..], stop, ParseNodes(deeper, sub, None, needs).value.needs);
        }
    }
  }

  function TopScope(lookup: string -> Option<string>): Scope {
    Scope(lookup, [], 0)
  }

  function ParseTemplate(source: string, lookup: string -> Option<string>): Res<Parsed> {
    var toks :- Lex(source);
    var p :- ParseNodes(TopScope(lookup), toks, None, []);
    if p.rest != [] then Err("unbalanced-block-tags") else Ok(p)
  }
}
