/**
 Templates written out as source text. Parsing the text gives the nodes back, with the needs
 the nodes record, for every operator, literal, reference, filter and loop head.
 */
module LiquidusPrinting {
  import opened Common
  import opened LiquidusText
  import opened LiquidusTextLaws
  import opened LiquidusSyntax
  import opened LiquidusGrammar
  import opened LiquidusLexing

  // ---- references ----

  function Size(size: bool): seq<string> {
    if size then ["size"] else []
  }

  /** The dotted segments of a reference. */
  function Segments(ref: VarRef): (segs: seq<string>)
    ensures segs != []
  {
    match ref
    case Supplied(path, size) => Split(path, '.') + Size(size)
    case Loop(v, None, size) => [v] + Size(size)
    case Loop(v, Some(f), size) => [v, f] + Size(size)
  }

  function PrintRef(ref: VarRef): string {
    Join(Segments(ref), ".")
  }

  predicate IdentChar(c: char) {
    '0' <= c <= '9' || 'a' <= c <= 'z' || 'A' <= c <= 'Z' || c == '_' || c == '-'
  }

  predicate Ident(s: string) {
    s != [] && forall i | 0 <= i < |s| :: IdentChar(s[i])
  }

  predicate Bound(loops: seq<Binding>, name: string) {
    exists i | 0 <= i < |loops| :: loops[i].variable == name
  }

  /** A reference the grammar can express in this scope. */
  predicate RefOk(loops: seq<Binding>, ref: VarRef) {
    var segs := Segments(ref);
    && (forall i | 0 <= i < |segs| :: Ident(segs[i]))
    && segs[0] != "forloop"
    && (ref.Supplied? <==> !Bound(loops, segs[0]))
    && ((ref.Supplied? && !ref.size) || (ref.Loop? && !ref.loopSize) ==> Last(segs) != "size")
  }

  /** What reading the reference adds to the recorded needs. */
  function RefNeeds(loops: seq<Binding>, needs: seq<VarNeed>, ref: VarRef): seq<VarNeed> {
    match ref
    case Supplied(path, size) => needs + [VarNeed(path, if size then Some(0) else None, size, [])]
    case Loop(_, None, _) => needs
    case Loop(v, Some(f), _) =>
      match OutermostBinding(loops, v)
      case Some(collection) => AttachField(needs, collection, f)
      case None => needs
  }

  lemma {:induction false} BoundIsOutermost(loops: seq<Binding>, name: string)
    ensures Bound(loops, name) <==> OutermostBinding(loops, name).Some?
  {
    var r := OutermostBinding(loops, name);
    if r.Some? {
      assert !(forall b | b in loops :: b.variable != name);
    }
  }

  lemma {:induction false} JoinedChars(segs: seq<string>, c: char)
    requires c in Join(segs, ".")
    ensures c == '.' || exists i :: 0 <= i < |segs| && c in segs[i]
  {
    if segs == [] {
    } else if |segs| == 1 {
      assert c in segs[0];
    } else if c in segs[0] {
      assert c in segs[0];
    } else if c != '.' {
      assert c in Join(segs[1..], ".");
      JoinedChars(segs[1..], c);
      var i :| 0 <= i < |segs[1..]| && c in segs[1..][i];
      assert c in segs[i + 1];
    }
  }

  /** Characters of identifiers and dots. */
  predicate PathChar(c: char) {
    c == '.' || IdentChar(c)
  }

  lemma PathCharIs(c: char)
    requires PathChar(c)
    ensures c == '.' || c == '_' || c == '-' || IsDigit(c) || 'a' <= c <= 'z' || 'A' <= c <= 'Z'
    ensures !IsSpace(c)
  {
  }

  lemma RefChars(loops: seq<Binding>, ref: VarRef)
    requires RefOk(loops, ref)
    ensures var s := PrintRef(ref); s != [] && (forall i | 0 <= i < |s| :: PathChar(s[i])) && Tight(s)
  {
    var segs, s := Segments(ref), PrintRef(ref);
    forall i | 0 <= i < |s| ensures PathChar(s[i]) {
      JoinedChars(segs, s[i]);
      if s[i] != '.' {
        var k :| 0 <= k < |segs| && s[i] in segs[k];
        assert Ident(segs[k]);
      }
    }
    assert Ident(segs[0]);
    if |segs| > 1 {
      assert s == segs[0] + "." + Join(segs[1..], ".");
    }
    PathCharIs(s[0]);
    PathCharIs(Last(s));
  }

  lemma SupplySplits(path: string)
    ensures Join(Split(path, '.'), ".") == path
    ensures forall i | 0 <= i < |Split(path, '.')| :: '.' !in Split(path, '.')[i]
  {
    SplitJoin(path, '.');
    assert ['.'] == ".";
  }

  lemma RefSplits(loops: seq<Binding>, ref: VarRef)
    requires RefOk(loops, ref)
    ensures Split(PrintRef(ref), '.') == Segments(ref) && !Contains(PrintRef(ref), "[")
  {
    var segs := Segments(ref);
    forall i | 0 <= i < |segs| ensures '.' !in segs[i] {
      assert Ident(segs[i]);
    }
    assert ['.'] == ".";
    SplitOfJoin(segs, '.');
    RefChars(loops, ref);
    assert '[' in "[" && '[' !in PrintRef(ref);
    FindAbsent(PrintRef(ref), "[");
  }

  lemma RefReadBack(loops: seq<Binding>, needs: seq<VarNeed>, ref: VarRef)
    requires RefOk(loops, ref)
    ensures ParseVar(loops, needs, PrintRef(ref)) == Ok((ref, RefNeeds(loops, needs, ref)))
  {
    hide Split, Join, Contains, AttachField, OutermostBinding, CleanPaths;
    RefSplits(loops, ref);
    var segs := Segments(ref);
    assert forall i | 0 <= i < |segs| :: Ident(segs[i]);
    BoundIsOutermost(loops, segs[0]);
    match ref
    case Supplied(path, size) =>
      SupplySplits(path);
      if size {
        assert Front(segs) == Split(path, '.');
      } else {
        assert segs == Split(path, '.');
      }
    case Loop(v, f, size) =>
      if size {
        assert Front(segs) == Segments(Loop(v, f, false));
      }
  }

  // ---- expressions ----

  function QuoteFor(t: string): char {
    if '"' in t then '\'' else '"'
  }

  function PrintExpr(e: Expr): string {
    match e
    case StrLit(t) => [QuoteFor(t)] + t + [QuoteFor(t)]
    case IntLit(n) => IntToString(n)
    case Var(ref) => PrintRef(ref)
  }

  predicate Keyword(s: string) {
    s == "true" || s == "false" || s == "nil" || s == "null" || s == "empty" || s == "blank"
  }

  /** A literal or reference the grammar can express in this scope. */
  predicate ExprOk(loops: seq<Binding>, e: Expr) {
    match e
    case StrLit(t) => '\\' !in t && QuoteFor(t) !in t
    case IntLit(n) => -0x8000_0000_0000_0000 <= n <= 0x7FFF_FFFF_FFFF_FFFF
    case Var(ref) =>
      && RefOk(loops, ref) && !Keyword(PrintRef(ref))
      && PrintRef(ref) != [] && !('0' <= PrintRef(ref)[0] <= '9') && (PrintRef(ref)[0] == '-' ==> |PrintRef(ref)| == 1)
  }

  function ExprNeeds(loops: seq<Binding>, needs: seq<VarNeed>, e: Expr): seq<VarNeed> {
    if e.Var? then RefNeeds(loops, needs, e.ref) else needs
  }

  lemma IntChars(n: int)
    ensures var s := IntToString(n); s != [] && Tight(s) && forall i | 0 <= i < |s| :: IsDigit(s[i]) || s[i] == '-'
    ensures var s := IntToString(n); IsDigit(s[0]) || (s[0] == '-' && |s| > 1)
  {
    IntegerReadBack(n, n, n);
    var s := IntToString(n);
    if n < 0 {
      assert forall i | 1 <= i < |s| :: s[i] == s[1..][i - 1];
    }
  }

  lemma ExprReadBack(loops: seq<Binding>, needs: seq<VarNeed>, e: Expr)
    requires ExprOk(loops, e)
    ensures ParseExpr(loops, needs, PrintExpr(e)) == Ok((e, ExprNeeds(loops, needs, e)))
  {
    hide ParseVar, RefNeeds, PrintRef, IntToString, ParseInteger, RefOk, CleanPaths;
    var s := PrintExpr(e);
    match e
    case StrLit(t) =>
      assert Last(s) == s[0] && s[1..|s| - 1] == t;
    case IntLit(n) =>
      IntChars(n);
      assert '.' !in s;
      IntegerReadBack(n, I64_MIN, I64_MAX);
    case Var(ref) =>
      RefReadBack(loops, needs, ref);
      FirstIsPath(loops, ref);
  }

  lemma FirstIsPath(loops: seq<Binding>, ref: VarRef)
    requires RefOk(loops, ref)
    ensures var s := PrintRef(ref); s != [] && s[0] != '"' && s[0] != '\''
  {
    RefChars(loops, ref);
    PathCharIs(PrintRef(ref)[0]);
  }

  /** A printed expression has no outer spaces, and no separator outside quotes. */
  lemma ExprShape(loops: seq<Binding>, e: Expr, sep: char)
    requires ExprOk(loops, e) && (sep == '|' || sep == ',')
    ensures PrintExpr(e) != [] && Tight(PrintExpr(e)) && Shut(PrintExpr(e), sep)
  {
    hide PrintRef, IntToString, RefOk, Shut;
    var s := PrintExpr(e);
    match e
    case StrLit(t) => ShutQuoted(QuoteFor(t), t, sep);
    case IntLit(n) =>
      IntChars(n);
      ShutPlain(s, sep);
    case Var(ref) =>
      RefChars(loops, ref);
      forall i | 0 <= i < |s| ensures s[i] != sep && s[i] != '"' && s[i] != '\'' {
        PathCharIs(s[i]);
      }
      ShutPlain(s, sep);
  }

  // ---- filters ----

  function PrintArgs(args: seq<Expr>): string {
    if args == [] then []
    else if |args| == 1 then PrintExpr(args[0])
    else PrintExpr(args[0]) + ", " + PrintArgs(args[1..])
  }

  function PrintFilter(f: FilterCall): string {
    f.name + if f.args == [] then [] else ": " + PrintArgs(f.args)
  }

  /** Filters one after the other, each behind a pipe. */
  function PrintFilters(fs: seq<FilterCall>): string {
    if fs == [] then [] else " | " + PrintFilter(fs[0]) + PrintFilters(fs[1..])
  }

  predicate LiteralsOk(args: seq<Expr>) {
    forall i | 0 <= i < |args| :: !args[i].Var? && ExprOk([], args[i])
  }

  /** The thirteen filters. */
  predicate Supported(name: string) {
    || name == "date" || name == "date_to_xmlschema" || name == "slugify" || name == "upcase" || name == "downcase"
    || name == "truncate" || name == "relative_url" || name == "escape" || name == "number_of_words" || name == "size"
    || name == "strip" || name == "append" || name == "prepend"
  }

  predicate FiltersOk(fs: seq<FilterCall>) {
    forall i | 0 <= i < |fs| :: Supported(fs[i].name) && LiteralsOk(fs[i].args)
  }

  lemma LiteralAnywhere(loops: seq<Binding>, e: Expr)
    requires !e.Var? && ExprOk([], e)
    ensures ExprOk(loops, e)
  {
  }

  predicate Wordy(s: string) {
    s != [] && forall i | 0 <= i < |s| :: 'a' <= s[i] <= 'z' || s[i] == '_'
  }

  lemma NameIsPlain(name: string)
    requires Supported(name)
    ensures Wordy(name) && name in FILTER_NAMES
  {
  }

  lemma {:induction false} ArgsReadBack(loops: seq<Binding>, needs: seq<VarNeed>, args: seq<Expr>)
    requires args != [] && LiteralsOk(args)
    ensures ParseArgs(loops, needs, SplitUnquoted(" " + PrintArgs(args), ',')) == Ok(args)
    ensures Shut(PrintArgs(args), '|') && PrintArgs(args) != [] && Tight(PrintArgs(args))
    decreases |args|
  {
    hide PrintExpr, ParseExpr, SplitUnquoted, Trim, Shut, ExprOk, Tight;
    var e, s := args[0], PrintExpr(args[0]);
    LiteralAnywhere(loops, e);
    ExprShape(loops, e, ',');
    ExprShape(loops, e, '|');
    ExprReadBack(loops, needs, e);
    OneSpaceAhead(s, ',');
    if |args| == 1 {
      SplitShut(" " + s, ',', []);
      ArgsOne(loops, needs, " " + s, e);
      assert args == [e];
    } else {
      var rest := PrintArgs(args[1..]);
      ArgsReadBack(loops, needs, args[1..]);
      SplitShut(" " + s, ',', " " + rest);
      assert " " + PrintArgs(args) == " " + s + [','] + (" " + rest);
      ArgsMore(loops, needs, " " + s, e, SplitUnquoted(" " + rest, ','), args[1..]);
      assert args == [e] + args[1..];
      CommaShut();
      ShutConcat(s, ", ", '|');
      ShutConcat(s + ", ", rest, '|');
      TightEnds(s, ", ", rest);
    }
  }

  lemma TightEnds(a: string, b: string, c: string)
    requires a != [] && c != [] && Tight(a) && Tight(c)
    ensures Tight(a + b + c)
  {
    assert (a + b + c)[0] == a[0] && Last(a + b + c) == Last(c);
  }

  lemma CommaShut()
    ensures Shut(", ", '|')
  {
    ShutPlain(", ", '|');
  }

  lemma OneSpaceAhead(s: string, sep: char)
    requires Shut(s, sep) && Tight(s) && (sep == ',' || sep == '|')
    ensures Shut(" " + s, sep) && Trim(" " + s) == s
  {
    ShutPlain(" ", sep);
    ShutConcat(" ", s, sep);
    assert " " + s + "" == " " + s;
    TrimPadded(" ", s, "");
  }

  lemma ArgsOne(loops: seq<Binding>, needs: seq<VarNeed>, part: string, e: Expr)
    requires ParseExpr(loops, needs, Trim(part)) == Ok((e, needs)) && !e.Var?
    ensures ParseArgs(loops, needs, [part]) == Ok([e])
  {
    assert [part][1..] == [];
    assert ParseArgs(loops, needs, []) == Ok([]) && [e] + [] == [e];
  }

  lemma ArgsMore(loops: seq<Binding>, needs: seq<VarNeed>, part: string, e: Expr, parts: seq<string>, rest: seq<Expr>)
    requires ParseExpr(loops, needs, Trim(part)) == Ok((e, needs)) && !e.Var? && ParseArgs(loops, needs, parts) == Ok(rest)
    ensures ParseArgs(loops, needs, [part] + parts) == Ok([e] + rest)
  {
    assert ([part] + parts)[1..] == parts;
  }

  lemma FilterReadBack(loops: seq<Binding>, needs: seq<VarNeed>, f: FilterCall)
    requires Supported(f.name) && LiteralsOk(f.args)
    ensures ParseFilter(loops, needs, PrintFilter(f)) == Ok(f)
    ensures PrintFilter(f) != [] && Tight(PrintFilter(f)) && Shut(PrintFilter(f), '|')
  {
    hide PrintArgs, ParseArgs, SplitUnquoted, Trim, Find, Shut, LiteralsOk;
    NameIsPlain(f.name);
    ShutPlain(f.name, '|');
    TrimStays(f.name);
    if f.args == [] {
      assert ':' in ":" && f.name + [] == f.name;
      FindAbsent(f.name, ":");
    } else {
      ArgsReadBack(loops, needs, f.args);
      var args := PrintArgs(f.args);
      FindFirst(f.name, ":", " " + args);
      assert PrintFilter(f) == f.name + ":" + (" " + args);
      assert PrintFilter(f)[..|f.name|] == f.name && PrintFilter(f)[|f.name| + 1..] == " " + args;
      ColonShut();
      ShutConcat(f.name, ": ", '|');
      ShutConcat(f.name + ": ", args, '|');
      assert PrintFilter(f) == f.name + ": " + args;
      TightEnds(f.name, ": ", args);
    }
  }

  lemma ColonShut()
    ensures Shut(": ", '|')
  {
    ShutPlain(": ", '|');
  }

  /** Split at the pipes: the text before comes first, and the rest parses to the filters. */
  lemma {:induction false} FiltersReadBack(loops: seq<Binding>, needs: seq<VarNeed>, pad: string, s: string, fs: seq<FilterCall>)
    requires AllSpace(pad) && Tight(s) && Shut(pad + s, '|') && FiltersOk(fs)
    ensures var parts := SplitUnquoted(pad + s + PrintFilters(fs), '|');
            Trim(parts[0]) == s && ParseFilters(loops, needs, parts[1..]) == Ok(fs)
    decreases |fs|
  {
    hide PrintFilter, ParseFilter, SplitUnquoted, Trim, Shut, LiteralsOk;
    if fs == [] {
      assert pad + s + [] == pad + s && pad + s + "" == pad + s;
      SplitShut(pad + s, '|', []);
      TrimPadded(pad, s, "");
      assert [pad + s][1..] == [];
    } else {
      var f, more := PrintFilter(fs[0]), PrintFilters(fs[1..]);
      FilterReadBack(loops, needs, fs[0]);
      OneSpaceAhead(f, '|');
      FiltersReadBack(loops, needs, " ", f, fs[1..]);
      SpaceShut();
      ShutConcat(pad + s, " ", '|');
      SplitShut(pad + s + " ", '|', " " + f + more);
      PipeAhead(pad, s, f, more);
      TrimPadded(pad, s, " ");
      var parts := SplitUnquoted(" " + f + more, '|');
      FiltersMore(loops, needs, parts, fs[0], fs[1..]);
      assert ([pad + s + " "] + parts)[1..] == parts;
      assert fs == [fs[0]] + fs[1..];
    }
  }

  lemma PipeAhead(pad: string, s: string, f: string, more: string)
    ensures pad + s + (" | " + f + more) == pad + s + " " + ['|'] + (" " + f + more)
  {
    assert " | " == " " + ['|'] + " ";
  }

  lemma SpaceShut()
    ensures Shut(" ", '|')
  {
    ShutPlain(" ", '|');
  }

  lemma FiltersMore(loops: seq<Binding>, needs: seq<VarNeed>, parts: seq<string>, f: FilterCall, rest: seq<FilterCall>)
    requires parts != [] && ParseFilter(loops, needs, Trim(parts[0])) == Ok(f) && ParseFilters(loops, needs, parts[1..]) == Ok(rest)
    ensures ParseFilters(loops, needs, parts) == Ok([f] + rest)
  {
  }

  // ---- outputs ----

  function PrintOutput(e: Expr, fs: seq<FilterCall>): string {
    PrintExpr(e) + PrintFilters(fs)
  }

  /** A leading `size` filter on a reference is written as its `.size`. */
  predicate SizeFirst(e: Expr, fs: seq<FilterCall>) {
    && fs != [] && fs[0] == FilterCall("size", []) && e.Var?
    && (if e.ref.Supplied? then !e.ref.size else !e.ref.loopSize)
  }

  lemma OutputParses(loops: seq<Binding>, needs: seq<VarNeed>, e: Expr, fs: seq<FilterCall>)
    requires ExprOk(loops, e) && FiltersOk(fs)
    ensures ParseOutput(loops, needs, PrintOutput(e, fs)) == Ok(RewriteSize(e, fs, ExprNeeds(loops, needs, e)))
  {
    hide PrintExpr, PrintFilters, ParseExpr, ParseFilters, SplitUnquoted, Trim, Shut, RewriteSize, ExprOk, FiltersOk, CleanPaths;
    var s := PrintExpr(e);
    ExprShape(loops, e, '|');
    assert "" + s == s;
    FiltersReadBack(loops, ExprNeeds(loops, needs, e), "", s, fs);
    ExprReadBack(loops, needs, e);
  }

  lemma OutputReadBack(loops: seq<Binding>, needs: seq<VarNeed>, e: Expr, fs: seq<FilterCall>)
    requires ExprOk(loops, e) && FiltersOk(fs) && !SizeFirst(e, fs)
    ensures ParseOutput(loops, needs, PrintOutput(e, fs)) == Ok((Output(e, fs), ExprNeeds(loops, needs, e)))
  {
    hide ParseOutput, PrintOutput, ExprOk, FiltersOk, ExprNeeds;
    OutputParses(loops, needs, e, fs);
  }

  function Sized(ref: VarRef): VarRef {
    match ref
    case Supplied(path, _) => Supplied(path, true)
    case Loop(v, f, _) => Loop(v, f, true)
  }

  /** `x | size` and `x.size` are one output with one need. */
  lemma SizeFilterIsSize(loops: seq<Binding>, needs: seq<VarNeed>, ref: VarRef, fs: seq<FilterCall>)
    requires ExprOk(loops, Var(ref)) && FiltersOk(fs) && SizeFirst(Var(ref), [FilterCall("size", [])] + fs)
    ensures ParseOutput(loops, needs, PrintOutput(Var(ref), [FilterCall("size", [])] + fs))
         == Ok((Output(Var(Sized(ref)), fs), RefNeeds(loops, needs, Sized(ref))))
  {
    hide ParseOutput, PrintOutput, RefOk, PrintRef, LiteralsOk;
    var all := [FilterCall("size", [])] + fs;
    assert all[1..] == fs && FiltersOk(all) by {
      assert LiteralsOk([]) by { NoLiterals(); }
    }
    OutputParses(loops, needs, Var(ref), all);
    if ref.Supplied? {
      var mid := needs + [VarNeed(ref.path, None, false, [])];
      assert LastNeed(mid, ref.path) == Some(|needs|);
      assert ShrinkToSize(mid, ref.path) == needs + [VarNeed(ref.path, Some(0), true, [])];
    }
  }

  lemma NoLiterals()
    ensures LiteralsOk([])
  {
  }

  // ---- conditions ----

  function OpText(op: CmpOp): string {
    match op
    case Ge => ">="
    case Le => "<="
    case Eq => "=="
    case Ne => "!="
    case Gt => ">"
    case Lt => "<"
  }

  function PrintCond(c: Cond): string {
    match c
    case Truthy(e) => PrintExpr(e)
    case Compare(l, op, r) => PrintExpr(l) + " " + OpText(op) + " " + PrintExpr(r)
  }

  /** No character of an operator. */
  predicate OpFree(s: string) {
    '<' !in s && '>' !in s && '=' !in s && '!' !in s
  }

  predicate CondOk(loops: seq<Binding>, c: Cond) {
    && (match c
        case Truthy(e) => ExprOk(loops, e) && OpFree(PrintExpr(e))
        case Compare(l, _, r) => ExprOk(loops, l) && ExprOk(loops, r) && OpFree(PrintExpr(l)) && OpFree(PrintExpr(r)))
    && !Contains(PrintCond(c), " and ") && !Contains(PrintCond(c), " or ") && !Contains(PrintCond(c), " contains ")
  }

  function CondNeeds(loops: seq<Binding>, needs: seq<VarNeed>, c: Cond): seq<VarNeed> {
    match c
    case Truthy(e) => ExprNeeds(loops, needs, e)
    case Compare(l, _, r) => ExprNeeds(loops, ExprNeeds(loops, needs, l), r)
  }

  /** Position of an operator in the order the parser tries them. */
  function OpIndex(op: CmpOp): (k: nat)
    ensures k < |OPERATORS| && OPERATORS[k] == (OpText(op), op)
  {
    match op
    case Ge => 0
    case Le => 1
    case Eq => 2
    case Ne => 3
    case Gt => 4
    case Lt => 5
  }

  /** An operator tried earlier does not occur. */
  lemma EarlierAbsent(l: string, op: CmpOp, r: string, k: nat)
    requires OpFree(l) && OpFree(r) && k < OpIndex(op)
    ensures Find(l + " " + OpText(op) + " " + r, OPERATORS[k].0) == None
  {
    var s := l + " " + OpText(op) + " " + r;
    var earlier := OPERATORS[k].0;
    if k == 2 && op == Ne {
      forall i: nat ensures !OccursAt(s, "==", i) {
        if i + 2 <= |s| && s[i] == '=' {
          OneEquals(l, r, i);
          NotAt(s, "==", i, 1);
        } else if i + 2 <= |s| {
          NotAt(s, "==", i, 0);
        }
      }
      FindNowhere(s, "==");
    } else {
      assert earlier[0] !in s || earlier[1] !in s by { OpChars(l, op, r, earlier[0]); if |earlier| > 1 { OpChars(l, op, r, earlier[1]); } }
      FindAbsent(s, earlier);
    }
  }

  lemma OpChars(l: string, op: CmpOp, r: string, c: char)
    requires OpFree(l) && OpFree(r)
    ensures c in "<>=!" && c in l + " " + OpText(op) + " " + r ==> c in OpText(op)
  {
  }

  lemma OneEquals(l: string, r: string, i: nat)
    requires OpFree(l) && OpFree(r)
    requires var s := l + " " + "!=" + " " + r; i < |s| && s[i] == '='
    ensures var s := l + " " + "!=" + " " + r; i + 1 < |s| && s[i + 1] == ' '
  {
  }

  lemma {:induction false} ComparisonFrom(loops: seq<Binding>, needs: seq<VarNeed>, l: Expr, op: CmpOp, r: Expr, k: nat)
    requires k <= OpIndex(op) && CondOk(loops, Compare(l, op, r))
    ensures ParseComparison(loops, needs, PrintCond(Compare(l, op, r)), OPERATORS[k..])
         == Ok((Compare(l, op, r), CondNeeds(loops, needs, Compare(l, op, r))))
    decreases OpIndex(op) - k
  {
    hide PrintExpr, ParseExpr, Trim, Find, ExprOk, ExprNeeds, CleanPaths, Contains;
    var a, b, t := PrintExpr(l), PrintExpr(r), OpText(op);
    var s := a + " " + t + " " + b;
    assert OPERATORS[k..][0] == OPERATORS[k] && OPERATORS[k..][1..] == OPERATORS[k + 1..];
    if k < OpIndex(op) {
      EarlierAbsent(a, op, b, k);
      ComparisonFrom(loops, needs, l, op, r, k + 1);
    } else {
      OperatorFound(a, op, b);
      ExprShape(loops, l, '|');
      ExprShape(loops, r, '|');
      assert s[..|a| + 1] == "" + a + " " && s[|a| + 1 + |t|..] == " " + b + "";
      TrimPadded("", a, " ");
      TrimPadded(" ", b, "");
      ExprReadBack(loops, needs, l);
      ExprReadBack(loops, ExprNeeds(loops, needs, l), r);
    }
  }

  lemma OperatorFound(a: string, op: CmpOp, b: string)
    requires OpFree(a)
    ensures Find(a + " " + OpText(op) + " " + b, OpText(op)) == Some(|a| + 1)
  {
    var t := OpText(op);
    assert a + " " + t + " " + b == (a + " ") + t + (" " + b);
    FindFirst(a + " ", t, " " + b);
  }

  lemma {:induction false} TruthyFrom(loops: seq<Binding>, needs: seq<VarNeed>, e: Expr, k: nat)
    requires k <= |OPERATORS| && ExprOk(loops, e) && OpFree(PrintExpr(e))
    ensures ParseComparison(loops, needs, PrintExpr(e), OPERATORS[k..]) == Ok((Truthy(e), ExprNeeds(loops, needs, e)))
    decreases |OPERATORS| - k
  {
    hide PrintExpr, ParseExpr, Trim, Find, ExprOk, ExprNeeds, CleanPaths;
    if k == |OPERATORS| {
      ExprShape(loops, e, '|');
      TrimStays(PrintExpr(e));
      ExprReadBack(loops, needs, e);
    } else {
      assert OPERATORS[k..][0] == OPERATORS[k] && OPERATORS[k..][1..] == OPERATORS[k + 1..];
      OperatorAbsent(PrintExpr(e), k);
      TruthyFrom(loops, needs, e, k + 1);
    }
  }

  lemma OperatorAbsent(s: string, k: nat)
    requires k < |OPERATORS| && OpFree(s)
    ensures Find(s, OPERATORS[k].0) == None
  {
    assert OPERATORS[k].0[0] in OPERATORS[k].0;
    FindAbsent(s, OPERATORS[k].0);
  }

  lemma CondReadBack(loops: seq<Binding>, needs: seq<VarNeed>, c: Cond)
    requires CondOk(loops, c)
    ensures ParseCond(loops, needs, PrintCond(c)) == Ok((c, CondNeeds(loops, needs, c)))
    ensures PrintCond(c) != [] && Tight(PrintCond(c))
  {
    hide ParseComparison, PrintExpr, ExprOk, Contains, CleanPaths, ExprNeeds, Tight;
    assert OPERATORS[0..] == OPERATORS;
    match c
    case Truthy(e) =>
      TruthyFrom(loops, needs, e, 0);
      ExprShape(loops, e, '|');
    case Compare(l, op, r) =>
      ComparisonFrom(loops, needs, l, op, r, 0);
      ExprShape(loops, l, '|');
      ExprShape(loops, r, '|');
      assert PrintCond(c) == PrintExpr(l) + (" " + OpText(op) + " ") + PrintExpr(r);
      TightEnds(PrintExpr(l), " " + OpText(op) + " ", PrintExpr(r));
  }

  // ---- loop heads ----

  function PrintHead(variable: string, collection: string, limit: Option<nat>): string {
    variable + " in " + collection + if limit.Some? then " limit:" + NatToString(limit.value) else []
  }

  predicate HeadOk(loops: seq<Binding>, variable: string, collection: string, limit: Option<nat>) {
    && Ident(variable) && RefOk(loops, Supplied(collection, false))
    && !Contains(collection, "reversed") && !Contains(collection, "offset")
    && (limit.Some? ==> limit.value <= 0xFFFF_FFFF_FFFF_FFFF)
  }

  lemma CollectionShape(loops: seq<Binding>, collection: string)
    requires RefOk(loops, Supplied(collection, false))
    ensures PrintRef(Supplied(collection, false)) == collection
    ensures collection != [] && Tight(collection) && ':' !in collection && '(' !in collection
  {
    var ref := Supplied(collection, false);
    SupplySplits(collection);
    assert Segments(ref) == Split(collection, '.');
    RefChars(loops, ref);
    forall i | 0 <= i < |collection| ensures collection[i] != ':' && collection[i] != '(' {
      PathCharIs(collection[i]);
    }
  }

  /** The parts of a head with a limit. */
  lemma LimitParts(collection: string, digits: string)
    requires ':' !in collection
    ensures var rest := collection + (" limit:" + digits);
            && Find(rest, "limit:") == Some(|collection| + 1)
            && rest[..|collection| + 1] == "" + collection + " " && rest[|collection| + 1 + 6..] == digits
  {
    hide Find;
    var before, sub := collection + " ", "limit:";
    assert sub[5] == ':' && |sub| == 6 && " " + sub == " limit:";
    assert collection + (" limit:" + digits) == before + sub + digits;
    FindByChar(before, sub, digits, 5);
    Sections(before, sub, digits);
  }

  lemma LimitReadBack(collection: string, limit: Option<nat>)
    requires collection != [] && Tight(collection) && ':' !in collection && (limit.Some? ==> limit.value <= 0xFFFF_FFFF_FFFF_FFFF)
    ensures var rest := collection + if limit.Some? then " limit:" + NatToString(limit.value) else [];
            ParseLimit(rest) == Ok((collection, limit)) && Tight(rest) && rest != []
  {
    hide Trim, ParseInteger, Find, NatToString;
    match limit
    case None =>
      assert ':' in "limit:";
      assert collection + [] == collection;
      FindAbsent(collection, "limit:");
    case Some(n) =>
      var digits := NatToString(n);
      DigitsOfNat(n);
      LimitParts(collection, digits);
      TrimPadded("", collection, " ");
      TightEnds(collection, " limit:", digits);
      Regroup(collection, " limit:", digits);
      TrimStays(digits);
      IntegerReadBack(n, 0, USIZE_MAX);
      assert IntToString(n) == digits;
  }

  lemma IdentIsTight(s: string)
    requires Ident(s)
    ensures Tight(s) && ' ' !in s && IsIdent(s)
  {
  }

  /** The variable and what follows `in`. */
  lemma HeadSplits(variable: string, rest: string)
    requires Ident(variable) && rest != [] && Tight(rest)
    ensures var src := variable + " in " + rest;
            && Find(src, " in ") == Some(|variable|) && Trim(src[..|variable|]) == variable && Trim(src[|variable| + 4..]) == rest
            && Tight(src) && src != []
  {
    hide Trim, Find, Ident, Tight;
    var src := variable + " in " + rest;
    IdentIsTight(variable);
    NotEmpty(variable);
    FindFirst(variable, " in ", rest);
    assert src[..|variable|] == variable && src[|variable| + 4..] == rest;
    TrimStays(variable);
    TrimStays(rest);
    TightEnds(variable, " in ", rest);
  }

  lemma NotEmpty(s: string)
    requires Ident(s)
    ensures s != []
  {
  }

  lemma HeadReadBack(loops: seq<Binding>, needs: seq<VarNeed>, variable: string, collection: string, limit: Option<nat>)
    requires HeadOk(loops, variable, collection, limit)
    ensures ParseForHead(loops, needs, PrintHead(variable, collection, limit))
         == Ok((ForHead(variable, collection, limit), needs + [VarNeed(collection, limit, false, [])]))
    ensures Tight(PrintHead(variable, collection, limit)) && PrintHead(variable, collection, limit) != []
  {
    hide Trim, Find, ParseVar, ParseLimit, IsIdent, Ident, RefOk, CleanPaths, NatToString, Tight, PatchSlice;
    var rest := collection + if limit.Some? then " limit:" + NatToString(limit.value) else [];
    IdentIsTight(variable);
    CollectionShape(loops, collection);
    LimitReadBack(collection, limit);
    assert PrintHead(variable, collection, limit) == variable + " in " + rest;
    HeadSplits(variable, rest);
    assert '(' in "(";
    FindAbsent(collection, "(");
    RefReadBack(loops, needs, Supplied(collection, false));
    NewestPatched(needs, collection, limit);
  }

  lemma NewestPatched(needs: seq<VarNeed>, path: string, limit: Option<nat>)
    ensures PatchSlice(needs + [VarNeed(path, None, false, [])], path, limit) == needs + [VarNeed(path, limit, false, [])]
  {
    var mid := needs + [VarNeed(path, None, false, [])];
    assert LastNeed(mid, path) == Some(|needs|);
  }

  // ---- nodes ----

  /** The tokens a node tree is written as. */
  function TokensOf(nodes: seq<Node>): seq<Tok>
    decreases nodes
  {
    if nodes == [] then []
    else
      (match nodes[0]
       case Text(t) => [TextTok(t)]
       case Output(e, fs) => [OutputTok(PrintOutput(e, fs))]
       case If(c, body) => [TagTok("if " + PrintCond(c))] + (TokensOf(body) + [TagTok("endif")])
       case For(v, collection, limit, body) =>
         [TagTok("for " + PrintHead(v, collection, limit))] + (TokensOf(body) + [TagTok("endfor")]))
      + TokensOf(nodes[1..])
  }

  /** What parsing the nodes records: their reads in text order, attached fields included. */
  function NodesNeeds(loops: seq<Binding>, needs: seq<VarNeed>, nodes: seq<Node>): seq<VarNeed>
    decreases nodes
  {
    if nodes == [] then needs
    else
      var after := match nodes[0]
        case Text(_) => needs
        case Output(e, _) => ExprNeeds(loops, needs, e)
        case If(c, body) => NodesNeeds(loops, CondNeeds(loops, needs, c), body)
        case For(v, collection, limit, body) =>
          NodesNeeds(loops + [Binding(v, collection)], needs + [VarNeed(collection, limit, false, [])], body);
      NodesNeeds(loops, after, nodes[1..])
  }

  predicate NodesOk(loops: seq<Binding>, nodes: seq<Node>)
    decreases nodes
  {
    nodes == [] ||
    (&& NodesOk(loops, nodes[1..])
     && match nodes[0]
        case Text(_) => true
        case Output(e, fs) => ExprOk(loops, e) && FiltersOk(fs) && !SizeFirst(e, fs)
        case If(c, body) => CondOk(loops, c) && NodesOk(loops, body)
        case For(v, collection, limit, body) =>
          HeadOk(loops, v, collection, limit) && NodesOk(loops + [Binding(v, collection)], body))
  }

  /** A tag made of a word, one space and an argument. */
  lemma WordAndArg(w: string, arg: string)
    requires w != [] && (forall i | 0 <= i < |w| :: !IsSpace(w[i])) && arg != [] && Tight(arg)
    ensures var s := w + " " + arg;
            FirstWord(s) == w && TagArg(s, w) == arg && s != [] && Tight(s)
  {
    hide Trim;
    var s := w + " " + arg;
    assert s == w + (" " + arg) && s[0] == w[0] && Last(s) == Last(arg);
    LeadingWordOf(w, " " + arg);
    assert s[|w|..] == " " + arg + "";
    TrimPadded(" ", arg, "");
  }

  lemma WordAlone(w: string)
    requires w != [] && forall i | 0 <= i < |w| :: !IsSpace(w[i])
    ensures FirstWord(w) == w
  {
    LeadingWordOf(w, []);
    assert w + [] == w;
  }

  /** The words the parser compares with. */
  lemma Words()
    ensures FirstWord("endif") == "endif" && FirstWord("endfor") == "endfor"
    ensures forall i | 0 <= i < |"if"| :: !IsSpace("if"[i])
    ensures forall i | 0 <= i < |"for"| :: !IsSpace("for"[i])
  {
    hide FirstWord;
    WordAlone("endif");
    WordAlone("endfor");
  }

  /** A written block, then anything: its nodes in front of what follows, its needs recorded. */
  lemma {:induction false} NodesReadBack(sc: Scope, nodes: seq<Node>, after: seq<Tok>, stop: Option<string>, needs: seq<VarNeed>)
    requires NodesOk(sc.loops, nodes) && BlockEnd(stop)
    ensures ParseNodes(sc, TokensOf(nodes) + after, stop, needs)
         == Prepend(nodes, ParseNodes(sc, after, stop, NodesNeeds(sc.loops, needs, nodes)))
    decreases nodes
  {
    hide ParseNodes, Prepend, ExprOk, FiltersOk, CondOk, HeadOk, PrintOutput, PrintCond, PrintHead, ExprNeeds, CondNeeds;
    if nodes == [] {
      assert [] + after == after;
      PrependNothing(ParseNodes(sc, after, stop, needs));
    } else {
      var rest := TokensOf(nodes[1..]) + after;
      assert nodes == [nodes[0]] + nodes[1..];
      match nodes[0]
      case Text(t) =>
        NodesReadBack(sc, nodes[1..], after, stop, needs);
        TextNode(sc, t, rest, stop, needs);
        Regroup([TextTok(t)], TokensOf(nodes[1..]), after);
        PrependTwice([nodes[0]], nodes[1..], ParseNodes(sc, after, stop, NodesNeeds(sc.loops, needs, nodes)));
      case Output(e, fs) =>
        NodesReadBack(sc, nodes[1..], after, stop, ExprNeeds(sc.loops, needs, e));
        OutputNode(sc, e, fs, rest, stop, needs);
        Regroup([OutputTok(PrintOutput(e, fs))], TokensOf(nodes[1..]), after);
        PrependTwice([nodes[0]], nodes[1..], ParseNodes(sc, after, stop, NodesNeeds(sc.loops, needs, nodes)));
      case If(c, body) =>
        var needs1 := CondNeeds(sc.loops, needs, c);
        var needs2 := NodesNeeds(sc.loops, needs1, body);
        NodesReadBack(sc, body, [TagTok("endif")] + rest, Some("endif"), needs1);
        BlockEnds(sc, body, "endif", rest, needs2);
        NodesReadBack(sc, nodes[1..], after, stop, needs2);
        IfNode(sc, c, body, rest, stop, needs, needs2);
        BlockTokens(TagTok("if " + PrintCond(c)), TokensOf(body), TagTok("endif"), TokensOf(nodes[1..]), after);
        PrependTwice([nodes[0]], nodes[1..], ParseNodes(sc, after, stop, NodesNeeds(sc.loops, needs, nodes)));
      case For(v, collection, limit, body) =>
        var inside := sc.(loops := sc.loops + [Binding(v, collection)]);
        var needs1 := needs + [VarNeed(collection, limit, false, [])];
        var needs2 := NodesNeeds(inside.loops, needs1, body);
        NodesReadBack(inside, body, [TagTok("endfor")] + rest, Some("endfor"), needs1);
        BlockEnds(inside, body, "endfor", rest, needs2);
        NodesReadBack(sc, nodes[1..], after, stop, needs2);
        ForNode(sc, v, collection, limit, body, rest, stop, needs, needs2);
        BlockTokens(TagTok("for " + PrintHead(v, collection, limit)), TokensOf(body), TagTok("endfor"), TokensOf(nodes[1..]), after);
        PrependTwice([nodes[0]], nodes[1..], ParseNodes(sc, after, stop, NodesNeeds(sc.loops, needs, nodes)));
    }
  }

  lemma BlockTokens(first: Tok, body: seq<Tok>, last: Tok, rest: seq<Tok>, after: seq<Tok>)
    ensures [first] + (body + [last]) + rest + after == [first] + (body + ([last] + (rest + after)))
  {
  }

  lemma BlockEnds(sc: Scope, body: seq<Node>, end: string, rest: seq<Tok>, needs: seq<VarNeed>)
    requires end == "endif" || end == "endfor"
    ensures Prepend(body, ParseNodes(sc, [TagTok(end)] + rest, Some(end), needs)) == Ok(Parsed(body, rest, needs))
  {
    hide FirstWord, TagArg;
    Words();
    assert ([TagTok(end)] + rest)[1..] == rest && body + [] == body;
  }

  lemma TextNode(sc: Scope, t: string, rest: seq<Tok>, stop: Option<string>, needs: seq<VarNeed>)
    ensures ParseNodes(sc, [TextTok(t)] + rest, stop, needs) == Prepend([Text(t)], ParseNodes(sc, rest, stop, needs))
  {
    assert ([TextTok(t)] + rest)[1..] == rest;
  }

  lemma OutputNode(sc: Scope, e: Expr, fs: seq<FilterCall>, rest: seq<Tok>, stop: Option<string>, needs: seq<VarNeed>)
    requires ExprOk(sc.loops, e) && FiltersOk(fs) && !SizeFirst(e, fs)
    ensures ParseNodes(sc, [OutputTok(PrintOutput(e, fs))] + rest, stop, needs)
         == Prepend([Output(e, fs)], ParseNodes(sc, rest, stop, ExprNeeds(sc.loops, needs, e)))
  {
    hide ParseOutput, PrintOutput, ExprOk, FiltersOk, ExprNeeds, Prepend;
    OutputReadBack(sc.loops, needs, e, fs);
    assert ([OutputTok(PrintOutput(e, fs))] + rest)[1..] == rest;
  }

  lemma IfNode(sc: Scope, c: Cond, body: seq<Node>, rest: seq<Tok>, stop: Option<string>, needs: seq<VarNeed>, needs2: seq<VarNeed>)
    requires CondOk(sc.loops, c) && BlockEnd(stop)
    requires ParseNodes(sc, TokensOf(body) + ([TagTok("endif")] + rest), Some("endif"), CondNeeds(sc.loops, needs, c))
          == Ok(Parsed(body, rest, needs2))
    ensures ParseNodes(sc, [TagTok("if " + PrintCond(c))] + (TokensOf(body) + ([TagTok("endif")] + rest)), stop, needs)
         == Prepend([If(c, body)], ParseNodes(sc, rest, stop, needs2))
  {
    hide ParseCond, CondOk, PrintCond, CondNeeds, FirstWord, TagArg, TokensOf, Prepend;
    Words();
    CondReadBack(sc.loops, needs, c);
    assert "if" + " " == "if ";
    WordAndArg("if", PrintCond(c));
    var tail := TokensOf(body) + ([TagTok("endif")] + rest);
    var toks := [TagTok("if " + PrintCond(c))] + tail;
    assert toks[0] == TagTok("if " + PrintCond(c)) && toks[1..] == tail;
  }

  lemma ForNode(sc: Scope, v: string, collection: string, limit: Option<nat>, body: seq<Node>, rest: seq<Tok>, stop: Option<string>,
                needs: seq<VarNeed>, needs2: seq<VarNeed>)
    requires HeadOk(sc.loops, v, collection, limit) && BlockEnd(stop)
    requires ParseNodes(sc.(loops := sc.loops + [Binding(v, collection)]), TokensOf(body) + ([TagTok("endfor")] + rest), Some("endfor"),
                        needs + [VarNeed(collection, limit, false, [])]) == Ok(Parsed(body, rest, needs2))
    ensures ParseNodes(sc, [TagTok("for " + PrintHead(v, collection, limit))] + (TokensOf(body) + ([TagTok("endfor")] + rest)), stop, needs)
         == Prepend([For(v, collection, limit, body)], ParseNodes(sc, rest, stop, needs2))
  {
    hide ParseForHead, HeadOk, PrintHead, FirstWord, TagArg, TokensOf, Prepend;
    Words();
    HeadReadBack(sc.loops, needs, v, collection, limit);
    assert "for" + " " == "for ";
    WordAndArg("for", PrintHead(v, collection, limit));
    var tail := TokensOf(body) + ([TagTok("endfor")] + rest);
    var toks := [TagTok("for " + PrintHead(v, collection, limit))] + tail;
    assert toks[0] == TagTok("for " + PrintHead(v, collection, limit)) && toks[1..] == tail;
  }

  // ---- templates ----

  /** Inner texts with a space on either side, as templates are usually written. */
  function Pad(tok: Tok): Tok {
    match tok
    case TextTok(t) => TextTok(t)
    case OutputTok(inner) => OutputTok(" " + inner + " ")
    case TagTok(inner) => TagTok(" " + inner + " ")
  }

  function Padded(toks: seq<Tok>): seq<Tok> {
    if toks == [] then [] else [Pad(toks[0])] + Padded(toks[1..])
  }

  /** The source text of a node tree. */
  function Source(nodes: seq<Node>): string {
    ShownAll(Padded(TokensOf(nodes)))
  }

  predicate InnersTight(toks: seq<Tok>) {
    forall i | 0 <= i < |toks| && !toks[i].TextTok? :: Tight(toks[i].inner)
  }

  lemma {:induction false} PaddedTrims(toks: seq<Tok>)
    requires InnersTight(toks)
    ensures TrimmedAll(Padded(toks)) == toks
  {
    hide Trim;
    if toks == [] {
    } else {
      assert Padded(toks)[1..] == Padded(toks[1..]);
      if !toks[0].TextTok? {
        TrimPadded(" ", toks[0].inner, " ");
      }
      PaddedTrims(toks[1..]);
      assert [toks[0]] + toks[1..] == toks;
    }
  }

  lemma TightAround(first: Tok, body: seq<Tok>, last: Tok)
    requires InnersTight([first]) && InnersTight(body) && InnersTight([last])
    ensures InnersTight([first] + (body + [last]))
  {
    hide Tight;
    TightConcat(body, [last]);
    TightConcat([first], body + [last]);
  }

  lemma TightConcat(a: seq<Tok>, b: seq<Tok>)
    requires InnersTight(a) && InnersTight(b)
    ensures InnersTight(a + b)
  {
    hide Tight;
  }

  lemma OneTight(tok: Tok)
    requires tok.TextTok? || Tight(tok.inner)
    ensures InnersTight([tok])
  {
    hide Tight;
  }

  lemma CondTight(loops: seq<Binding>, c: Cond)
    requires CondOk(loops, c)
    ensures Tight("if " + PrintCond(c))
  {
    hide CondOk, PrintCond;
    CondReadBack(loops, [], c);
    StartsTight("if ", PrintCond(c));
  }

  lemma HeadTight(loops: seq<Binding>, v: string, collection: string, limit: Option<nat>)
    requires HeadOk(loops, v, collection, limit)
    ensures Tight("for " + PrintHead(v, collection, limit))
  {
    hide HeadOk, PrintHead;
    HeadReadBack(loops, [], v, collection, limit);
    StartsTight("for ", PrintHead(v, collection, limit));
  }

  lemma {:induction false} TokensTight(loops: seq<Binding>, nodes: seq<Node>)
    requires NodesOk(loops, nodes)
    ensures InnersTight(TokensOf(nodes))
    decreases nodes
  {
    if nodes == [] {
    } else {
      hide ExprOk, FiltersOk, CondOk, HeadOk, PrintOutput, PrintCond, PrintHead, Tight, InnersTight;
      TokensTight(loops, nodes[1..]);
      EndsTight();
      match nodes[0]
      case Text(t) =>
        OneTight(TextTok(t));
        TightConcat([TextTok(t)], TokensOf(nodes[1..]));
      case Output(e, fs) =>
        OutputTight(loops, e, fs);
        OneTight(OutputTok(PrintOutput(e, fs)));
        TightConcat([OutputTok(PrintOutput(e, fs))], TokensOf(nodes[1..]));
      case If(c, body) =>
        CondTight(loops, c);
        TokensTight(loops, body);
        OneTight(TagTok("if " + PrintCond(c)));
        OneTight(TagTok("endif"));
        TightAround(TagTok("if " + PrintCond(c)), TokensOf(body), TagTok("endif"));
        TightConcat([TagTok("if " + PrintCond(c))] + (TokensOf(body) + [TagTok("endif")]), TokensOf(nodes[1..]));
      case For(v, collection, limit, body) =>
        HeadTight(loops, v, collection, limit);
        TokensTight(loops + [Binding(v, collection)], body);
        OneTight(TagTok("for " + PrintHead(v, collection, limit)));
        OneTight(TagTok("endfor"));
        TightAround(TagTok("for " + PrintHead(v, collection, limit)), TokensOf(body), TagTok("endfor"));
        TightConcat([TagTok("for " + PrintHead(v, collection, limit))] + (TokensOf(body) + [TagTok("endfor")]), TokensOf(nodes[1..]));
    }
  }

  lemma EndsTight()
    ensures Tight("endif") && Tight("endfor")
  {
  }

  lemma StartsTight(w: string, arg: string)
    requires w != [] && !IsSpace(w[0]) && arg != [] && Tight(arg)
    ensures Tight(w + arg)
  {
    assert Last(w + arg) == Last(arg);
  }

  lemma OutputTight(loops: seq<Binding>, e: Expr, fs: seq<FilterCall>)
    requires ExprOk(loops, e) && FiltersOk(fs)
    ensures Tight(PrintOutput(e, fs))
  {
    hide Tight, PrintExpr, PrintFilters, ExprOk, FiltersOk;
    ExprShape(loops, e, '|');
    FiltersTight(PrintExpr(e), fs);
  }

  lemma {:induction false} FiltersTight(s: string, fs: seq<FilterCall>)
    requires s != [] && Tight(s) && FiltersOk(fs)
    ensures Tight(s + PrintFilters(fs))
    decreases |fs|
  {
    hide Tight, PrintFilter, LiteralsOk;
    if fs == [] {
      assert s + [] == s;
    } else {
      var f, more := PrintFilter(fs[0]), PrintFilters(fs[1..]);
      FilterReadBack([], [], fs[0]);
      TightEnds(s, " | ", f);
      FiltersTight(s + " | " + f, fs[1..]);
      hide *;
      Regroup(s, " | ", f + more);
      Regroup(s + " | ", f, more);
      Regroup(" | ", f, more);
    }
  }

  /** A template written out parses to its nodes and to the needs its nodes record, whatever includes there are. */
  lemma SourceReadBack(nodes: seq<Node>, lookup: string -> Option<string>)
    requires NodesOk([], nodes) && WellShown(Padded(TokensOf(nodes)))
    ensures ParseTemplate(Source(nodes), lookup) == Ok(Parsed(nodes, [], NodesNeeds([], [], nodes)))
  {
    hide NodesOk, WellShown, Padded, TokensOf, ShownAll, Lex, InnersTight, NodesNeeds;
    var toks := TokensOf(nodes);
    var sc := TopScope(lookup);
    TokensTight([], nodes);
    PaddedTrims(toks);
    LexShown(Padded(toks));
    NodesReadBack(sc, nodes, [], None, []);
    assert toks + [] == toks && nodes + [] == nodes;
    assert ParseNodes(sc, [], None, NodesNeeds([], [], nodes)) == Ok(Parsed([], [], NodesNeeds([], [], nodes)));
  }
}
