/** A rule block and the ops it compiles to have the same effect on the lexer. */
module CarmineIrSound {
  import opened Common
  import opened CarmineTokens
  import opened CarmineIr
  import opened CarmineTable
  import opened CarmineEngine
  import opened CarmineRuby
  import opened CarmineIrCompiler

  function FoldsOf(w: World): Folds {
    Folds(w.downcase, w.upcase)
  }

  /** What a group reference stands for; a mapped capture that did not take part raises. */
  function RefValue(w: World, g: GroupRef): Raises<Val> {
    match GroupAt(w.groups, g.index)
    case None => if g.fold.None? then Ok(VNil) else Err(())
    case Some(s) => Ok(VStr(if g.fold.None? then s else Mapping(w, g.fold.value)(s)))
  }

  /** The compiler's aliases describe the locals, and the parameter still holds the match. */
  ghost predicate Agree(w: World, param: Option<string>, al: Aliases, env: Locals) {
    && (param.Some? ==> param.value in env && env[param.value] == VMatch && param.value !in al)
    && forall name | name in al :: name in env && RefValue(w, al[name]) == Ok(env[name])
  }

  lemma {:induction false} RefIsValue(w: World, n: Node, param: Option<string>, al: Aliases, env: Locals, lx: Lx)
    requires Agree(w, param, al, env) && ResolveGroup(n, param, al).Ok?
    ensures Value(w, n, env, lx) == RefValue(w, ResolveGroup(n, param, al).value)
    decreases n
  {
    if n.CaseCall? {
      RefIsValue(w, n.recv, param, al, env, lx);
    }
  }

  function OfEval(v: EvalVal): Val {
    match v
    case ENil => VNil
    case EBool(b) => VBool(b)
    case EStr(s) => VStr(s)
  }

  lemma {:induction false} SetHoldsWords(words: Words, s: string)
    requires StringSet(words).Ok?
    ensures InWords(words, s) <==> s in StringSet(words).value
  {
    if words.WordUnion? {
      SetHoldsWords(words.left, s);
      SetHoldsWords(words.right, s);
    }
  }

  // ---- expressions ----

  lemma {:induction false} EvalConcat(a: seq<IrExpr>, b: seq<IrExpr>, groups: Groups)
    ensures EvalExprs(a + b, groups) == EvalExprs(a, groups) + EvalExprs(b, groups)
    decreases |a|
  {
    if a == [] {
      assert a + b == b;
    } else {
      assert (a + b)[0] == a[0] && (a + b)[1..] == a[1..] + b;
      EvalConcat(a[1..], b, groups);
    }
  }

  lemma {:induction false} TextConcat(a: seq<EvalVal>, b: seq<EvalVal>)
    ensures ConcatText(a + b) == ConcatText(a) + ConcatText(b)
    decreases |a|
  {
    hide PartText;
    if a == [] {
      assert a + b == b;
      assert ConcatText(a) + ConcatText(b) == ConcatText(b);
    } else {
      assert (a + b)[0] == a[0] && (a + b)[1..] == a[1..] + b;
      TextConcat(a[1..], b);
      Regroup(PartText(a[0]), ConcatText(a[1..]), ConcatText(b));
    }
  }

  lemma {:induction false} FlattenIsJoined(w: World, parts: seq<Node>, param: Option<string>, al: Aliases, env: Locals, lx: Lx)
    requires Agree(w, param, al, env) && Flatten(parts, param, al).Ok? && Joined(w, parts, env, lx).Ok?
    ensures ConcatText(EvalExprs(Flatten(parts, param, al).value, w.groups)) == Joined(w, parts, env, lx).value
    decreases parts
  {
    hide Agree, ResolveGroup;
    if parts == [] {
    } else {
      var rest := Flatten(parts[1..], param, al).value;
      FlattenIsJoined(w, parts[1..], param, al, env, lx);
      var first := FlattenOne(w, parts[0], param, al, env, lx);
      assert Flatten(parts, param, al).value == first + rest;
      EvalConcat(first, rest, w.groups);
      TextConcat(EvalExprs(first, w.groups), EvalExprs(rest, w.groups));
    }
  }

  lemma {:induction false} FlattenOne(w: World, part: Node, param: Option<string>, al: Aliases, env: Locals, lx: Lx) returns (first: seq<IrExpr>)
    requires Agree(w, param, al, env) && Flatten([part], param, al).Ok?
    requires Value(w, part, env, lx).Ok? && ToText(w, Value(w, part, env, lx).value).Ok?
    ensures first == match part
                     case StrLit(s) => [Lit(s)]
                     case Ev(inner) => [Group(GroupIndex(inner, param, al).value)]
                     case Interp(nested) => Flatten(nested, param, al).value
                     case _ => []
    ensures ConcatText(EvalExprs(first, w.groups)) == ToText(w, Value(w, part, env, lx).value).value
    decreases part
  {
    match part
    case StrLit(s) =>
      first := [Lit(s)];
    case Ev(inner) =>
      RefIsValue(w, inner, param, al, env, lx);
      first := [Group(GroupIndex(inner, param, al).value)];
    case Interp(nested) =>
      FlattenIsJoined(w, nested, param, al, env, lx);
      first := Flatten(nested, param, al).value;
    case _ =>
  }

  lemma ExprIsValue(w: World, n: Node, param: Option<string>, al: Aliases, env: Locals, lx: Lx)
    requires Agree(w, param, al, env) && CompileExpr(n, param, al).Ok? && Value(w, n, env, lx).Ok?
    ensures OfEval(EvalExpr(CompileExpr(n, param, al).value, w.groups)) == Value(w, n, env, lx).value
  {
    hide Agree, ResolveGroup, StringSet;
    if GroupIndex(n, param, al).Ok? {
      RefIsValue(w, n, param, al, env, lx);
    } else if n.Interp? {
      FlattenIsJoined(w, n.parts, param, al, env, lx);
    } else if n.Includes? {
      RefIsValue(w, n.arg, param, al, env, lx);
      var g := GroupAt(w.groups, GroupIndex(n.arg, param, al).value);
      if g.Some? {
        SetHoldsWords(n.words, g.value);
      }
    }
  }

  lemma {:induction false} ExprsAreValues(w: World, ns: seq<Node>, param: Option<string>, al: Aliases, env: Locals, lx: Lx)
    requires Agree(w, param, al, env) && CompileExprs(ns, param, al).Ok?
    requires Values(w, ns, env, lx).Ok? && StoredVals(Values(w, ns, env, lx).value).Ok?
    ensures ToIvars(EvalExprs(CompileExprs(ns, param, al).value, w.groups)) == StoredVals(Values(w, ns, env, lx).value).value
    decreases |ns|
  {
    hide Agree, CompileExpr, Value, EvalExpr;
    if ns == [] {
    } else {
      ExprIsValue(w, ns[0], param, al, env, lx);
      ExprsAreValues(w, ns[1..], param, al, env, lx);
    }
  }

  // ---- conditions ----

  lemma AmongIsMember(w: World, g: GroupRef, lits: seq<string>, ivars: Ivars, current: nat, depth: nat)
    requires RefValue(w, g).Ok?
    ensures var v := RefValue(w, g).value;
            EvalCond(AmongCond(FoldsOf(w), g, lits), w.groups, ivars, current, depth) == (v.VStr? && v.s in lits)
  {
  }

  /** If the condition compiles and its evaluation does not raise, the compiled one holds exactly when it is truthy. */
  ghost predicate CondAgrees(w: World, n: Node, param: Option<string>, al: Aliases, env: Locals, lx: Lx)
    requires lx.stack != []
  {
    var c, v := CompileCond(FoldsOf(w), n, param, al), Value(w, n, env, lx);
    c.Ok? && v.Ok? ==> EvalCond(c.value, w.groups, lx.ivars, Last(lx.stack), |lx.stack|) == Truthy(v.value)
  }

  lemma AndAgrees(w: World, a: Node, b: Node, param: Option<string>, al: Aliases, env: Locals, lx: Lx)
    requires lx.stack != [] && CondAgrees(w, a, param, al, env, lx) && CondAgrees(w, b, param, al, env, lx)
    ensures CondAgrees(w, AndNode(a, b), param, al, env, lx)
  {
  }

  lemma OrAgrees(w: World, a: Node, b: Node, param: Option<string>, al: Aliases, env: Locals, lx: Lx)
    requires lx.stack != [] && CondAgrees(w, a, param, al, env, lx) && CondAgrees(w, b, param, al, env, lx)
    ensures CondAgrees(w, OrNode(a, b), param, al, env, lx)
  {
  }

  lemma BangAgrees(w: World, a: Node, param: Option<string>, al: Aliases, env: Locals, lx: Lx)
    requires lx.stack != [] && CondAgrees(w, a, param, al, env, lx)
    ensures CondAgrees(w, Bang(a), param, al, env, lx)
  {
  }

  lemma IncludesAgrees(w: World, words: Words, arg: Node, param: Option<string>, al: Aliases, env: Locals, lx: Lx)
    requires lx.stack != [] && Agree(w, param, al, env)
    ensures CondAgrees(w, Includes(words, arg), param, al, env, lx)
  {
    hide Agree, StringSet, ResolveGroup, RefValue, AmongCond, EvalCond;
    var lits, ref := StringSet(words), ResolveGroup(arg, param, al);
    if lits.Ok? && ref.Ok? {
      RefIsValue(w, arg, param, al, env, lx);
      var r := RefValue(w, ref.value);
      if r.Ok? {
        AmongIsMember(w, ref.value, lits.value, lx.ivars, Last(lx.stack), |lx.stack|);
        if r.value.VStr? {
          SetHoldsWords(words, r.value.s);
        }
      }
    }
  }

  function EqCond(f: Folds, g: GroupRef, lit: string): IrCond {
    match g.fold
    case None => GroupEq(g.index, lit)
    case Some(fold) => GroupEqFold(g.index, MappingOf(f, fold), lit)
  }

  lemma EqHolds(w: World, g: GroupRef, lit: string, negated: bool, ivars: Ivars, current: nat, depth: nat)
    requires RefValue(w, g).Ok?
    ensures var eq := EqCond(FoldsOf(w), g, lit);
            EvalCond(if negated then Not(eq) else eq, w.groups, ivars, current, depth) == ((RefValue(w, g).value == VStr(lit)) != negated)
  {
  }

  lemma EqCompiles(f: Folds, left: Node, right: Node, negated: bool, param: Option<string>, al: Aliases)
    requires CompileCond(f, EqNode(left, right, negated), param, al).Ok?
    ensures right.StrLit? && ResolveGroup(left, param, al).Ok?
    ensures var eq := EqCond(f, ResolveGroup(left, param, al).value, right.s);
            CompileCond(f, EqNode(left, right, negated), param, al).value == if negated then Not(eq) else eq
  {
    hide ResolveGroup;
  }

  lemma EqValue(w: World, left: Node, right: Node, negated: bool, env: Locals, lx: Lx)
    requires right.StrLit? && Value(w, EqNode(left, right, negated), env, lx).Ok?
    ensures Value(w, left, env, lx).Ok?
    ensures Value(w, EqNode(left, right, negated), env, lx).value == VBool((Value(w, left, env, lx).value == VStr(right.s)) != negated)
  {
    assert Value(w, right, env, lx) == Ok(VStr(right.s));
  }

  lemma EqAgrees(w: World, left: Node, right: Node, negated: bool, param: Option<string>, al: Aliases, env: Locals, lx: Lx)
    requires lx.stack != [] && Agree(w, param, al, env)
    ensures CondAgrees(w, EqNode(left, right, negated), param, al, env, lx)
  {
    hide Agree, ResolveGroup, CompileCond, Value, EvalCond, EqCond, RefValue;
    var n := EqNode(left, right, negated);
    if CompileCond(FoldsOf(w), n, param, al).Ok? && Value(w, n, env, lx).Ok? {
      EqCompiles(FoldsOf(w), left, right, negated, param, al);
      EqValue(w, left, right, negated, env, lx);
      RefIsValue(w, left, param, al, env, lx);
      EqHolds(w, ResolveGroup(left, param, al).value, right.s, negated, lx.ivars, Last(lx.stack), |lx.stack|);
    }
  }

  lemma MatchCompiles(f: Folds, subject: Node, matches: string -> bool, param: Option<string>, al: Aliases)
    requires CompileCond(f, MatchNode(subject, matches), param, al).Ok?
    ensures ResolveGroup(subject, param, al).Ok? && ResolveGroup(subject, param, al).value.fold.None?
    ensures CompileCond(f, MatchNode(subject, matches), param, al).value == GroupMatch(ResolveGroup(subject, param, al).value.index, matches)
  {
    hide ResolveGroup;
  }

  lemma MatchValue(w: World, subject: Node, matches: string -> bool, env: Locals, lx: Lx)
    requires Value(w, MatchNode(subject, matches), env, lx).Ok?
    ensures Value(w, subject, env, lx).Ok?
    ensures var v := Value(w, subject, env, lx).value;
            Truthy(Value(w, MatchNode(subject, matches), env, lx).value) == (v.VStr? && matches(v.s))
  {
  }

  lemma MatchHolds(w: World, g: GroupRef, matches: string -> bool, ivars: Ivars, current: nat, depth: nat)
    requires g.fold.None? && RefValue(w, g).Ok?
    ensures var v := RefValue(w, g).value;
            EvalCond(GroupMatch(g.index, matches), w.groups, ivars, current, depth) == (v.VStr? && matches(v.s))
  {
  }

  lemma MatchAgrees(w: World, subject: Node, matches: string -> bool, param: Option<string>, al: Aliases, env: Locals, lx: Lx)
    requires lx.stack != [] && Agree(w, param, al, env)
    ensures CondAgrees(w, MatchNode(subject, matches), param, al, env, lx)
  {
    hide Agree, ResolveGroup, CompileCond, Value, EvalCond, RefValue;
    var n := MatchNode(subject, matches);
    if CompileCond(FoldsOf(w), n, param, al).Ok? && Value(w, n, env, lx).Ok? {
      MatchCompiles(FoldsOf(w), subject, matches, param, al);
      MatchValue(w, subject, matches, env, lx);
      RefIsValue(w, subject, param, al, env, lx);
      MatchHolds(w, ResolveGroup(subject, param, al).value, matches, lx.ivars, Last(lx.stack), |lx.stack|);
    }
  }

  /** A bare reference to a group asks whether the group took part. */
  lemma PresenceAgrees(w: World, n: Node, param: Option<string>, al: Aliases, env: Locals, lx: Lx)
    requires lx.stack != [] && Agree(w, param, al, env) && (n.Var? || n.At? || n.CaseCall?)
    ensures CondAgrees(w, n, param, al, env, lx)
  {
    hide Agree, ResolveGroup, Value;
    if ResolveGroup(n, param, al).Ok? {
      RefIsValue(w, n, param, al, env, lx);
    }
  }

  /** A bare `@name` is read alike but for a list that `start` made and nothing was appended to. */
  lemma IvarAgreesIff(w: World, name: string, param: Option<string>, al: Aliases, env: Locals, lx: Lx)
    requires lx.stack != []
    ensures CondAgrees(w, IVarNode(name), param, al, env, lx) <==> name in lx.ivars || name !in w.lists
  {
  }

  /** No bare `@name` in the condition is one of the lists that `start` makes. */
  predicate AvoidsLists(lists: set<string>, n: Node) {
    match n
    case AndNode(a, b) => AvoidsLists(lists, a) && AvoidsLists(lists, b)
    case OrNode(a, b) => AvoidsLists(lists, a) && AvoidsLists(lists, b)
    case Bang(a) => AvoidsLists(lists, a)
    case IVarNode(name) => name !in lists
    case _ => true
  }

  lemma LeafAgrees(w: World, n: Node, param: Option<string>, al: Aliases, env: Locals, lx: Lx)
    requires lx.stack != []
    requires n.StackSize? || n.StateIs? || n.StrLit? || n.BoolNode? || n.Interp? || n.Ev? || n.OtherNode?
    ensures CondAgrees(w, n, param, al, env, lx)
  {
    hide Joined;
  }

  lemma AvoidsListsParts(lists: set<string>, n: Node)
    requires AvoidsLists(lists, n)
    ensures match n
            case AndNode(a, b) => AvoidsLists(lists, a) && AvoidsLists(lists, b)
            case OrNode(a, b) => AvoidsLists(lists, a) && AvoidsLists(lists, b)
            case Bang(a) => AvoidsLists(lists, a)
            case IVarNode(name) => name !in lists
            case _ => true
  {
  }

  lemma {:induction false} CondIsTruth(w: World, n: Node, param: Option<string>, al: Aliases, env: Locals, lx: Lx)
    requires lx.stack != [] && Agree(w, param, al, env) && AvoidsLists(w.lists, n)
    ensures CondAgrees(w, n, param, al, env, lx)
    decreases n
  {
    AvoidsListsParts(w.lists, n);
    hide *;
    match n
    case AndNode(a, b) =>
      CondIsTruth(w, a, param, al, env, lx);
      CondIsTruth(w, b, param, al, env, lx);
      AndAgrees(w, a, b, param, al, env, lx);
    case OrNode(a, b) =>
      CondIsTruth(w, a, param, al, env, lx);
      CondIsTruth(w, b, param, al, env, lx);
      OrAgrees(w, a, b, param, al, env, lx);
    case Bang(a) =>
      CondIsTruth(w, a, param, al, env, lx);
      BangAgrees(w, a, param, al, env, lx);
    case Includes(words, arg) => IncludesAgrees(w, words, arg, param, al, env, lx);
    case EqNode(left, right, negated) => EqAgrees(w, left, right, negated, param, al, env, lx);
    case MatchNode(subject, matches) => MatchAgrees(w, subject, matches, param, al, env, lx);
    case Var(_) => PresenceAgrees(w, n, param, al, env, lx);
    case At(_, _) => PresenceAgrees(w, n, param, al, env, lx);
    case CaseCall(_, _) => PresenceAgrees(w, n, param, al, env, lx);
    case StackSize(_, _) => LeafAgrees(w, n, param, al, env, lx);
    case IVarNode(name) => IvarAgreesIff(w, name, param, al, env, lx);
    case StateIs(_) => LeafAgrees(w, n, param, al, env, lx);
    case StrLit(_) => LeafAgrees(w, n, param, al, env, lx);
    case BoolNode(_) => LeafAgrees(w, n, param, al, env, lx);
    case Interp(_) => LeafAgrees(w, n, param, al, env, lx);
    case Ev(_) => LeafAgrees(w, n, param, al, env, lx);
    case OtherNode => LeafAgrees(w, n, param, al, env, lx);
  }

  // ---- statements ----

  /** The ops end as the block did: in the same state or with the same error; they decline where a conditional met an empty stack. */
  predicate SameEffect(tr: Trace, r: Res<Lx>) {
    if tr.bare then r == Err(EmptyStack)
    else
      match tr.out
      case Ran(_, lx) => r == Ok(lx)
      case Failed(e) => r == Err(e)
      case Raised => true
  }

  predicate KeepsLocals(tr: Trace, env: Locals) {
    tr.out.Ran? ==> tr.out.env == env
  }

  lemma ArgIsText(w: World, arg: Option<Node>, param: Option<string>, al: Aliases, env: Locals, lx: Lx)
    requires Agree(w, param, al, env) && CompileArg(arg, param, al).Ok? && TextArg(w, arg, env, lx).Ok?
    ensures var e := CompileArg(arg, param, al).value;
            var v := EvalExpr(if e.Some? then e.value else Group(0), w.groups);
            match TextArg(w, arg, env, lx).value
            case Some(s) => v == EStr(s)
            case None => v == ENil
  {
    hide Agree, CompileExpr;
    if arg.Some? {
      ExprIsValue(w, arg.value, param, al, env, lx);
    }
  }

  /** The statement compiles to one op with its effect. */
  ghost predicate StmtAgrees(w: World, s: Stmt, param: Option<string>, al: Aliases, env: Locals, lx: Lx) {
    var op, tr := CompileStmt(FoldsOf(w), s, param, al), Exec(w, s, env, lx);
    op.Ok? ==> KeepsLocals(tr, env) && SameEffect(tr, RunOp(w.t, op.value, w.groups, lx, w.limit))
  }

  lemma AssignAgrees(w: World, name: string, n: Node, param: Option<string>, al: Aliases, env: Locals, lx: Lx)
    requires Agree(w, param, al, env)
    ensures StmtAgrees(w, IAssign(name, n), param, al, env, lx)
  {
    hide Agree, CompileExpr, Value, EvalExpr, Recurse, RunIr;
    if CompileExpr(n, param, al).Ok? && Value(w, n, env, lx).Ok? {
      ExprIsValue(w, n, param, al, env, lx);
    }
  }

  lemma AppendIsPush(w: World, ivars: Ivars, name: string, tuple: seq<IvarVal>)
    ensures Append(w, ivars, name, tuple).Ok? ==> Append(w, ivars, name, tuple).value == PushTuple(ivars, name, tuple)
  {
    assert [] + [tuple] == [tuple];
  }

  lemma ShovelAgrees(w: World, name: string, items: seq<Node>, param: Option<string>, al: Aliases, env: Locals, lx: Lx)
    requires Agree(w, param, al, env)
    ensures StmtAgrees(w, Shovel(name, items), param, al, env, lx)
  {
    hide Agree, CompileExprs, Values, EvalExprs, StoredVals, ToIvars, Append, PushTuple, Recurse, RunIr;
    var es, vs := CompileExprs(items, param, al), Values(w, items, env, lx);
    if es.Ok? && vs.Ok? && StoredVals(vs.value).Ok? {
      ExprsAreValues(w, items, param, al, env, lx);
      AppendIsPush(w, lx.ivars, name, StoredVals(vs.value).value);
    }
  }

  lemma TokenAgrees(w: World, tok: TokenId, text: Option<Node>, param: Option<string>, al: Aliases, env: Locals, lx: Lx)
    requires Agree(w, param, al, env)
    ensures StmtAgrees(w, TokenCall(tok, text), param, al, env, lx)
  {
    hide Agree, CompileExpr, TextArg, EmitTo, EvalExpr, Recurse, RunIr;
    if CompileArg(text, param, al).Ok? && TextArg(w, text, env, lx).Ok? {
      ArgIsText(w, text, param, al, env, lx);
      GroupZero(w.groups);
    }
  }

  lemma RecurseAgrees(w: World, text: Option<Node>, param: Option<string>, al: Aliases, env: Locals, lx: Lx)
    requires Agree(w, param, al, env)
    ensures StmtAgrees(w, RecurseCall(text), param, al, env, lx)
  {
    RecurseNil(w.t, lx, w.limit);
    hide Agree, CompileExpr, TextArg, Recurse, EvalExpr, RunIr, RunSimple;
    if CompileArg(text, param, al).Ok? && TextArg(w, text, env, lx).Ok? {
      ArgIsText(w, text, param, al, env, lx);
    }
  }

  lemma StackAgrees(w: World, s: Stmt, param: Option<string>, al: Aliases, env: Locals, lx: Lx)
    requires s.GroupsCall? || s.PushCall? || s.PopCall? || s.GotoCall? || s.Assign? || s.ExprStmt? || s.OtherStmt?
    ensures StmtAgrees(w, s, param, al, env, lx)
  {
    hide Value, EmitGroups, Recurse, RunIr;
  }

  lemma GroupZero(groups: Groups)
    ensures EvalExpr(Group(0), groups) == match GroupAt(groups, 0) { case Some(g) => EStr(g) case None => ENil }
  {
  }

  lemma RecurseNil(t: LexerTable, lx: Lx, limit: nat)
    ensures Recurse(t, ENil, lx, limit) == Ok(lx)
  {
  }

  // ---- diagnostics ----

  predicate AllValues(args: seq<Stmt>) {
    forall i | 0 <= i < |args| :: args[i].ExprStmt?
  }

  /**
   What the compiler does not look at makes no difference: diagnostics have no calls among
   their arguments and no branch for the other case, and no other conditional asks for a
   list that `start` makes.
   */
  predicate Benign(lists: set<string>, s: Stmt)
    decreases s
  {
    match s
    case Print(args) => AllValues(args)
    case IfStmt(_, pred, thenBody, elseBody) =>
      && (if DebugPrint(s) then elseBody == [] else AvoidsLists(lists, pred))
      && BenignAll(lists, thenBody) && BenignAll(lists, elseBody)
    case CaseStmt(_, whens) => BenignIn(lists, whens)
    case _ => true
  }

  predicate BenignIn(lists: set<string>, whens: Whens)
    decreases whens
  {
    match whens
    case When(_, body, rest) => BenignAll(lists, body) && BenignIn(lists, rest)
    case Else(body) => BenignAll(lists, body)
    case NoElse => true
  }

  predicate BenignAll(lists: set<string>, ss: seq<Stmt>)
    decreases ss
  {
    ss == [] || (Benign(lists, ss[0]) && BenignAll(lists, ss[1..]))
  }

  /** Nothing happened, unless an exception was raised. */
  predicate NoEffect(tr: Trace, env: Locals, lx: Lx) {
    !tr.bare && (tr.out == Ran(env, lx) || tr.out == Raised)
  }

  lemma {:induction false} ValuesDoNothing(w: World, args: seq<Stmt>, env: Locals, lx: Lx)
    requires AllValues(args)
    ensures NoEffect(ExecAll(w, args, env, lx), env, lx)
    decreases |args|
  {
    hide Value;
    if args == [] {
    } else {
      assert args[0].ExprStmt?;
      ValuesDoNothing(w, args[1..], env, lx);
    }
  }

  lemma {:induction false} PrintsDoNothing(w: World, ss: seq<Stmt>, env: Locals, lx: Lx)
    requires AllPrints(ss) && BenignAll(w.lists, ss)
    ensures NoEffect(ExecAll(w, ss, env, lx), env, lx)
    decreases |ss|
  {
    hide AllValues;
    if ss == [] {
    } else {
      assert ss[0].Print?;
      ValuesDoNothing(w, ss[0].args, env, lx);
      PrintsDoNothing(w, ss[1..], env, lx);
    }
  }

  lemma DiagnosticDoesNothing(w: World, s: Stmt, env: Locals, lx: Lx)
    requires DebugPrint(s) && Benign(w.lists, s)
    ensures NoEffect(Exec(w, s, env, lx), env, lx)
  {
    hide AllPrints, AllValues;
    if s.IfStmt? {
      PrintsDoNothing(w, s.thenBody, env, lx);
    } else {
      ValuesDoNothing(w, s.args, env, lx);
    }
  }

  // ---- the induction ----

  /** The statements compile to ops with their effect. */
  ghost predicate ListAgrees(w: World, ss: seq<Stmt>, param: Option<string>, al: Aliases, env: Locals, lx: Lx) {
    var ops, tr := CompileList(FoldsOf(w), ss, param, al), ExecAll(w, ss, env, lx);
    ops.Ok? ==> KeepsLocals(tr, env) && SameEffect(tr, RunIr(w.t, ops.value, w.groups, lx, w.limit))
  }

  /** The chain compiles to ops with the effect of the case on the value of `g`. */
  ghost predicate ChainAgrees(w: World, whens: Whens, g: GroupRef, param: Option<string>, al: Aliases, env: Locals, lx: Lx)
    requires RefValue(w, g).Ok?
  {
    var ops, tr := CompileChain(FoldsOf(w), whens, g, param, al), ExecWhens(w, whens, RefValue(w, g).value, env, lx);
    ops.Ok? ==> KeepsLocals(tr, env) && SameEffect(tr, RunIr(w.t, ops.value, w.groups, lx, w.limit))
  }

  lemma IfAgrees(w: World, s: Stmt, param: Option<string>, al: Aliases, env: Locals, lx: Lx)
    requires s.IfStmt? && !DebugPrint(s)
    requires ListAgrees(w, s.thenBody, param, al, env, lx) && ListAgrees(w, s.elseBody, param, al, env, lx)
    requires lx.stack != [] ==> CondAgrees(w, s.pred, param, al, env, lx)
    ensures StmtAgrees(w, s, param, al, env, lx)
  {
    hide CompileCond, CompileList, ExecAll, RunIr, Value, DebugPrint;
  }

  lemma CaseAgrees(w: World, s: Stmt, param: Option<string>, al: Aliases, env: Locals, lx: Lx)
    requires s.CaseStmt? && Agree(w, param, al, env)
    requires var g := ResolveGroup(s.subject, param, al);
             g.Ok? && RefValue(w, g.value).Ok? ==> ChainAgrees(w, s.whens, g.value, param, al, env, lx)
    ensures StmtAgrees(w, s, param, al, env, lx)
  {
    hide Agree, ResolveGroup, RefValue, ExecWhens, Value, RunIr, RunOp, CompileList;
    var g := ResolveGroup(s.subject, param, al);
    if g.Ok? {
      RefIsValue(w, s.subject, param, al, env, lx);
      var chain := CompileChain(FoldsOf(w), s.whens, g.value, param, al);
      if chain.Ok? && |chain.value| == 1 {
        assert chain.value == [chain.value[0]];
        RunOne(w, chain.value[0], lx);
        if RefValue(w, g.value).Err? && s.whens.When? && lx.stack == [] {
          IfOnEmptyStack(w, chain.value[0], lx);
        }
      }
    }
  }

  lemma IfOnEmptyStack(w: World, op: IrOp, lx: Lx)
    requires op.IfOp? && lx.stack == []
    ensures RunOp(w.t, op, w.groups, lx, w.limit) == Err(EmptyStack)
  {
  }

  lemma {:induction false} StmtSound(w: World, s: Stmt, param: Option<string>, al: Aliases, env: Locals, lx: Lx)
    requires Agree(w, param, al, env) && Benign(w.lists, s) && !DebugPrint(s)
    ensures StmtAgrees(w, s, param, al, env, lx)
    decreases s
  {
    assert !s.Print? && (s.IfStmt? ==> AvoidsLists(w.lists, s.pred) && BenignAll(w.lists, s.thenBody) && BenignAll(w.lists, s.elseBody));
    assert s.CaseStmt? ==> BenignIn(w.lists, s.whens);
    hide *;
    match s
    case IfStmt(_, pred, thenBody, elseBody) =>
      ListSound(w, thenBody, param, al, env, lx);
      ListSound(w, elseBody, param, al, env, lx);
      if lx.stack != [] {
        CondIsTruth(w, pred, param, al, env, lx);
      }
      IfAgrees(w, s, param, al, env, lx);
    case CaseStmt(subject, whens) =>
      var g := ResolveGroup(subject, param, al);
      if g.Ok? && RefValue(w, g.value).Ok? {
        ChainSound(w, whens, g.value, param, al, env, lx);
      }
      CaseAgrees(w, s, param, al, env, lx);
    case IAssign(name, n) => AssignAgrees(w, name, n, param, al, env, lx);
    case Shovel(name, items) => ShovelAgrees(w, name, items, param, al, env, lx);
    case TokenCall(tok, text) => TokenAgrees(w, tok, text, param, al, env, lx);
    case RecurseCall(text) => RecurseAgrees(w, text, param, al, env, lx);
    case GroupsCall(_) => StackAgrees(w, s, param, al, env, lx);
    case PushCall(_) => StackAgrees(w, s, param, al, env, lx);
    case PopCall(_) => StackAgrees(w, s, param, al, env, lx);
    case GotoCall(_) => StackAgrees(w, s, param, al, env, lx);
    case Assign(_, _) => StackAgrees(w, s, param, al, env, lx);
    case ExprStmt(_) => StackAgrees(w, s, param, al, env, lx);
    case OtherStmt => StackAgrees(w, s, param, al, env, lx);
  }

  lemma RunOne(w: World, op: IrOp, lx: Lx)
    ensures RunIr(w.t, [op], w.groups, lx, w.limit) == RunOp(w.t, op, w.groups, lx, w.limit)
  {
    hide RunOp;
    assert [op][0] == op && [op][1..] == [];
  }

  lemma {:induction false} LiteralValues(w: World, items: seq<Node>, env: Locals, lx: Lx)
    requires AllLiterals(items)
    ensures Values(w, items, env, lx).Ok?
    ensures forall v :: v in Values(w, items, env, lx).value <==> v.VStr? && v.s in LiteralTexts(items)
    decreases |items|
  {
    if items == [] {
    } else {
      LiteralValues(w, items[1..], env, lx);
      assert items[0].StrLit?;
    }
  }

  lemma WhenAgrees(w: World, whens: Whens, g: GroupRef, param: Option<string>, al: Aliases, env: Locals, lx: Lx)
    requires whens.When? && RefValue(w, g).Ok?
    requires ListAgrees(w, whens.body, param, al, env, lx) && ChainAgrees(w, whens.rest, g, param, al, env, lx)
    ensures ChainAgrees(w, whens, g, param, al, env, lx)
  {
    hide RefValue, AmongCond, EvalCond, CompileList, ExecAll, Values;
    var ops := CompileChain(FoldsOf(w), whens, g, param, al);
    if ops.Ok? {
      LiteralValues(w, whens.items, env, lx);
      RunOne(w, ops.value[0], lx);
      if lx.stack != [] {
        AmongIsMember(w, g, LiteralTexts(whens.items), lx.ivars, Last(lx.stack), |lx.stack|);
      }
    }
  }

  lemma ElseAgrees(w: World, whens: Whens, g: GroupRef, param: Option<string>, al: Aliases, env: Locals, lx: Lx)
    requires RefValue(w, g).Ok? && (whens.NoElse? || (whens.Else? && ListAgrees(w, whens.body, param, al, env, lx)))
    ensures ChainAgrees(w, whens, g, param, al, env, lx)
  {
    hide RefValue, CompileList, ExecAll, RunOp;
  }

  lemma {:induction false} ChainSound(w: World, whens: Whens, g: GroupRef, param: Option<string>, al: Aliases, env: Locals, lx: Lx)
    requires Agree(w, param, al, env) && BenignIn(w.lists, whens) && RefValue(w, g).Ok?
    ensures ChainAgrees(w, whens, g, param, al, env, lx)
    decreases whens
  {
    assert whens.When? ==> BenignAll(w.lists, whens.body) && BenignIn(w.lists, whens.rest);
    assert whens.Else? ==> BenignAll(w.lists, whens.body);
    hide *;
    match whens
    case NoElse => ElseAgrees(w, whens, g, param, al, env, lx);
    case Else(body) =>
      ListSound(w, body, param, al, env, lx);
      ElseAgrees(w, whens, g, param, al, env, lx);
    case When(items, body, rest) =>
      ListSound(w, body, param, al, env, lx);
      ChainSound(w, rest, g, param, al, env, lx);
      WhenAgrees(w, whens, g, param, al, env, lx);
  }

  lemma {:induction false} ListSound(w: World, ss: seq<Stmt>, param: Option<string>, al: Aliases, env: Locals, lx: Lx)
    requires Agree(w, param, al, env) && BenignAll(w.lists, ss)
    ensures ListAgrees(w, ss, param, al, env, lx)
    decreases ss
  {
    hide Agree, Exec, CompileStmt, RunOp, DebugPrint, Benign;
    if ss == [] {
    } else if DebugPrint(ss[0]) {
      DiagnosticDoesNothing(w, ss[0], env, lx);
      ListSound(w, ss[1..], param, al, env, lx);
    } else {
      StmtSound(w, ss[0], param, al, env, lx);
      var first := Exec(w, ss[0], env, lx);
      if first.out.Ran? {
        ListSound(w, ss[1..], param, al, env, first.out.lx);
      }
    }
  }

  // ---- whole blocks ----

  /** No binding at the top of the block takes the name of its parameter. */
  predicate ParamKept(b: Block) {
    forall i | 0 <= i < |b.stmts| :: b.stmts[i].Assign? ==> Some(b.stmts[i].name) != b.param
  }

  lemma {:induction false} PeeledSound(w: World, ss: seq<Stmt>, param: Option<string>, al: Aliases, env: Locals, lx: Lx)
    requires Agree(w, param, al, env) && BenignAll(w.lists, ss)
    requires forall i | 0 <= i < |ss| :: ss[i].Assign? ==> Some(ss[i].name) != param
    requires var (rest, al1) := Peel(ss, param, al); CompileList(FoldsOf(w), rest, param, al1).Ok?
    ensures var (rest, al1) := Peel(ss, param, al);
            SameEffect(ExecAll(w, ss, env, lx), RunIr(w.t, CompileList(FoldsOf(w), rest, param, al1).value, w.groups, lx, w.limit))
    decreases |ss|
  {
    hide CompileList, RunIr, ResolveGroup, Value, RefValue;
    if ss == [] || AliasOf(ss[0], param, al).None? {
      ListSound(w, ss, param, al, env, lx);
    } else {
      var (name, g) := AliasOf(ss[0], param, al).value;
      RefIsValue(w, ss[0].value, param, al, env, lx);
      if RefValue(w, g).Ok? {
        PeeledSound(w, ss[1..], param, al[name := g], env[name := RefValue(w, g).value], lx);
      }
    }
  }

  /**
   The compiled ops have the effect of the block on every match, from every lexer state: the
   same tokens, stack and instance variables when the block runs, the same error when its
   stack operations fail, and a declined rule where a conditional meets an empty stack.
   */
  lemma CompiledBlockRunsAlike(w: World, b: Block, lx: Lx)
    requires CompileBlock(FoldsOf(w), b).Ok? && ParamKept(b) && BenignAll(w.lists, b.stmts)
    ensures SameEffect(ExecBlock(w, b, lx), RunIr(w.t, CompileBlock(FoldsOf(w), b).value, w.groups, lx, w.limit))
  {
    hide CompileList, RunIr, ExecAll, Peel, BenignAll;
    PeeledSound(w, b.stmts, b.param, map[], if b.param.Some? then map[b.param.value := VMatch] else map[], lx);
  }

  /** In the engine: a rule that carries the compiled ops does what the block does on the rule's match. */
  lemma CompiledRuleRunsAlike(t: LexerTable, text: string, lx: Lx, rule: Rule, spans: Spans, b: Block, f: Folds, lists: set<string>)
    requires SpansOk(spans, text, lx.pos)
    requires CompileBlock(f, b).Ok? && ParamKept(b) && BenignAll(lists, b.stmts)
    requires rule.kind == KIr(CompileBlock(f, b).value)
    ensures SameEffect(ExecBlock(World(t, GroupsOf(text, spans), |text|, f.downcase, f.upcase, lists), b, lx), RunBody(t, text, lx, rule, spans))
  {
    hide CompileBlock, ExecBlock, RunIr, GroupsOf, BenignAll;
    CompiledBlockRunsAlike(World(t, GroupsOf(text, spans), |text|, f.downcase, f.upcase, lists), b, lx);
  }

  // ---- where the conditions come from ----

  lemma CompileOne(f: Folds, s: Stmt, param: Option<string>, al: Aliases)
    requires !DebugPrint(s) && CompileStmt(f, s, param, al).Ok?
    ensures CompileList(f, [s], param, al) == Ok([CompileStmt(f, s, param, al).value])
  {
    hide CompileStmt;
    assert [s][0] == s && [s][1..] == [];
    assert CompileList(f, [], param, al) == Ok([]);
    assert [CompileStmt(f, s, param, al).value] + [] == [CompileStmt(f, s, param, al).value];
  }

  const REBOUND := Block(Some("m"), [Assign("m", At(Var("m"), 1)), TokenCall(0, Some(At(Var("m"), 0)))])

  lemma ReboundCompiles(w: World)
    ensures CompileBlock(FoldsOf(w), REBOUND) == Ok([TokenOp(0, Some(Group(0)))])
  {
    var use := TokenCall(0, Some(At(Var("m"), 0)));
    var al: Aliases := map["m" := GroupRef(1, None)];
    assert REBOUND.stmts[1..] == [use] && map[]["m" := GroupRef(1, None)] == al;
    assert Peel(REBOUND.stmts, Some("m"), map[]) == ([use], al);
    CompileOne(FoldsOf(w), use, Some("m"), al);
  }

  lemma TokenAlone(w: World, tok: TokenId, e: Option<IrExpr>, lx: Lx, s: string)
    requires lx.toks == [] && s != []
    requires if e.Some? then EvalExpr(e.value, w.groups) == EStr(s) else GroupAt(w.groups, 0) == Some(s)
    ensures var r := RunIr(w.t, [TokenOp(tok, e)], w.groups, lx, w.limit); r.Ok? && r.value.toks == [(tok, s)]
  {
    RunOne(w, TokenOp(tok, e), lx);
  }

  lemma ReboundRuns(w: World, lx: Lx)
    requires w.groups == [Some("abc"), Some("bc")] && lx.toks == []
    ensures var tr := ExecBlock(w, REBOUND, lx); tr.out.Ran? && tr.out.lx.toks == [(0, "b")]
  {
    hide RunIr, Recurse;
    var use := TokenCall(0, Some(At(Var("m"), 0)));
    var env: Locals := map["m" := VMatch]["m" := VStr("bc")];
    assert REBOUND.stmts[1..] == [use] && [use][1..] == [];
    assert Exec(w, REBOUND.stmts[0], map["m" := VMatch], lx) == Trace(Ran(env, lx), false);
    assert Value(w, At(Var("m"), 0), env, lx) == Ok(VStr("b"));
    assert ExecAll(w, [use], env, lx) == Trace(Ran(env, EmitTo(lx, 0, "b")), false);
  }

  /** `m = m[1]; token T, m[0]` takes the first character of the capture, its ops take the whole match. */
  lemma ReboundParamDiffers(w: World, lx: Lx)
    requires w.groups == [Some("abc"), Some("bc")] && lx.toks == []
    ensures CompileBlock(FoldsOf(w), REBOUND) == Ok([TokenOp(0, Some(Group(0)))])
    ensures var tr := ExecBlock(w, REBOUND, lx); tr.out.Ran? && tr.out.lx.toks == [(0, "b")]
    ensures var r := RunIr(w.t, [TokenOp(0, Some(Group(0)))], w.groups, lx, w.limit); r.Ok? && r.value.toks == [(0, "abc")]
  {
    hide CompileBlock, ExecBlock, RunIr;
    ReboundCompiles(w);
    ReboundRuns(w, lx);
    TokenAlone(w, 0, Some(Group(0)), lx, "abc");
  }

  const HIDDEN_ELSE := Block(None, [IfStmt(false, IVarNode("debug"), [Print([])], [TokenCall(0, None)]), TokenCall(1, None)])

  lemma HiddenElseCompiles(w: World)
    ensures CompileBlock(FoldsOf(w), HIDDEN_ELSE) == Ok([TokenOp(1, None)])
  {
    var s, use := HIDDEN_ELSE.stmts[0], TokenCall(1, None);
    assert HIDDEN_ELSE.stmts[1..] == [use] && DebugPrint(s);
    CompileOne(FoldsOf(w), use, None, map[]);
    assert Peel(HIDDEN_ELSE.stmts, None, map[]) == (HIDDEN_ELSE.stmts, map[]);
  }

  lemma HiddenElseRuns(w: World, lx: Lx)
    requires w.groups == [Some("a")] && "debug" !in w.lists && lx.toks == [] && lx.ivars == map[] && lx.stack != []
    ensures var tr := ExecBlock(w, HIDDEN_ELSE, lx); tr.out.Ran? && tr.out.lx.toks == [(0, "a"), (1, "a")]
  {
    hide RunIr, Recurse;
    var s, use, hidden := HIDDEN_ELSE.stmts[0], TokenCall(1, None), TokenCall(0, None);
    assert HIDDEN_ELSE.stmts[1..] == [use] && [use][1..] == [] && [hidden][1..] == [];
    assert ExecAll(w, [hidden], map[], lx) == Trace(Ran(map[], EmitTo(lx, 0, "a")), false);
    assert Exec(w, s, map[], lx) == Trace(Ran(map[], EmitTo(lx, 0, "a")), false);
    assert ExecAll(w, [use], map[], EmitTo(lx, 0, "a")) == Trace(Ran(map[], EmitTo(EmitTo(lx, 0, "a"), 1, "a")), false);
  }

  /** `if @debug then puts else token T end` is elided together with its `else`. */
  lemma HiddenElseDiffers(w: World, lx: Lx)
    requires w.groups == [Some("a")] && "debug" !in w.lists && lx.toks == [] && lx.ivars == map[] && lx.stack != []
    ensures CompileBlock(FoldsOf(w), HIDDEN_ELSE) == Ok([TokenOp(1, None)])
    ensures var tr := ExecBlock(w, HIDDEN_ELSE, lx); tr.out.Ran? && tr.out.lx.toks == [(0, "a"), (1, "a")]
    ensures var r := RunIr(w.t, [TokenOp(1, None)], w.groups, lx, w.limit); r.Ok? && r.value.toks == [(1, "a")]
  {
    hide CompileBlock, ExecBlock, RunIr;
    HiddenElseCompiles(w);
    HiddenElseRuns(w, lx);
    TokenAlone(w, 1, None, lx, "a");
  }

  const HIDDEN_CALL := Block(None, [Print([PopCall(1)]), TokenCall(0, None)])

  lemma HiddenCallCompiles(w: World)
    ensures ParamKept(HIDDEN_CALL) && CompileBlock(FoldsOf(w), HIDDEN_CALL) == Ok([TokenOp(0, None)])
  {
    assert HIDDEN_CALL.stmts[1..] == [TokenCall(0, None)] && DebugPrint(HIDDEN_CALL.stmts[0]);
    CompileOne(FoldsOf(w), TokenCall(0, None), None, map[]);
    assert Peel(HIDDEN_CALL.stmts, None, map[]) == (HIDDEN_CALL.stmts, map[]);
  }

  lemma HiddenCallRuns(w: World, lx: Lx)
    requires w.groups == [Some("a")] && lx.stack == [3, 4]
    ensures var tr := ExecBlock(w, HIDDEN_CALL, lx); tr.out.Ran? && tr.out.lx.stack == [3]
  {
    hide RunIr, Recurse, EmitTo;
    var use, pop, popped := TokenCall(0, None), PopCall(1), lx.(stack := [3]);
    assert HIDDEN_CALL.stmts[1..] == [use] && [use][1..] == [] && [pop][1..] == [];
    assert ExecSimple(w, pop, map[], lx) == Ran(map[], popped);
    assert Exec(w, HIDDEN_CALL.stmts[0], map[], lx) == Trace(Ran(map[], popped), false);
    assert ExecAll(w, [use], map[], popped) == Trace(Ran(map[], EmitTo(popped, 0, "a")), false);
    EmitKeepsStack(popped, 0, "a");
  }

  lemma EmitKeepsStack(lx: Lx, tok: TokenId, val: string)
    ensures EmitTo(lx, tok, val).stack == lx.stack
  {
  }

  lemma TokenKeepsStack(w: World, lx: Lx)
    requires GroupAt(w.groups, 0).Some?
    ensures var r := RunIr(w.t, [TokenOp(0, None)], w.groups, lx, w.limit); r.Ok? && r.value.stack == lx.stack
  {
    RunOne(w, TokenOp(0, None), lx);
  }

  /** `p pop!; token T`: the block also pops. */
  lemma HiddenCallDiffers(w: World, lx: Lx)
    requires w.groups == [Some("a")] && lx.stack == [3, 4]
    ensures ParamKept(HIDDEN_CALL) && CompileBlock(FoldsOf(w), HIDDEN_CALL) == Ok([TokenOp(0, None)])
    ensures var tr := ExecBlock(w, HIDDEN_CALL, lx); tr.out.Ran? && tr.out.lx.stack == [3]
    ensures var r := RunIr(w.t, [TokenOp(0, None)], w.groups, lx, w.limit); r.Ok? && r.value.stack == [3, 4]
  {
    hide CompileBlock, ExecBlock, RunIr;
    HiddenCallCompiles(w);
    HiddenCallRuns(w, lx);
    TokenKeepsStack(w, lx);
  }

  const NIL_FOLD := Block(Some("m"), [IfStmt(false, EqNode(CaseCall(At(Var("m"), 1), Down), StrLit("a"), false), [TokenCall(0, None)], [TokenCall(1, None)])])

  lemma NilFoldCompiles(w: World)
    ensures CompileBlock(FoldsOf(w), NIL_FOLD) == Ok([IfOp(GroupEqFold(1, w.downcase, "a"), [TokenOp(0, None)], [TokenOp(1, None)])])
  {
    var f, s := FoldsOf(w), NIL_FOLD.stmts[0];
    CompileOne(f, TokenCall(0, None), Some("m"), map[]);
    CompileOne(f, TokenCall(1, None), Some("m"), map[]);
    assert CompileCond(f, s.pred, Some("m"), map[]) == Ok(GroupEqFold(1, w.downcase, "a"));
    CompileOne(f, s, Some("m"), map[]);
    assert Peel(NIL_FOLD.stmts, Some("m"), map[]) == ([s], map[]);
  }

  lemma NilFoldRaises(w: World, lx: Lx)
    requires w.groups == [Some("x"), None]
    ensures ExecBlock(w, NIL_FOLD, lx).out.Raised?
  {
    hide RunIr, ExecSimple;
    var pred := NIL_FOLD.stmts[0].pred;
    var env: Locals := map["m" := VMatch];
    assert Value(w, pred.left.recv, env, lx) == Ok(VNil);
    assert Value(w, pred.left, env, lx).Err?;
    assert Value(w, pred, env, lx).Err?;
  }

  lemma NilFoldTakesElse(w: World, lx: Lx)
    requires w.groups == [Some("x"), None] && lx.toks == [] && lx.stack != []
    ensures var r := RunIr(w.t, [IfOp(GroupEqFold(1, w.downcase, "a"), [TokenOp(0, None)], [TokenOp(1, None)])], w.groups, lx, w.limit);
            r.Ok? && r.value.toks == [(1, "x")]
  {
    var op := IfOp(GroupEqFold(1, w.downcase, "a"), [TokenOp(0, None)], [TokenOp(1, None)]);
    RunOne(w, op, lx);
    hide RunIr;
    TokenAlone(w, 1, None, lx, "x");
  }

  /** `m[1].downcase` raises when the group took no part; its ops take the other branch. */
  lemma RaisingBlockDiffers(w: World, lx: Lx)
    requires w.groups == [Some("x"), None] && lx.toks == [] && lx.stack != []
    ensures CompileBlock(FoldsOf(w), NIL_FOLD).Ok?
    ensures ExecBlock(w, NIL_FOLD, lx).out.Raised?
    ensures var r := RunIr(w.t, CompileBlock(FoldsOf(w), NIL_FOLD).value, w.groups, lx, w.limit); r.Ok? && r.value.toks == [(1, "x")]
  {
    hide CompileBlock, ExecBlock, RunIr;
    NilFoldCompiles(w);
    NilFoldRaises(w, lx);
    NilFoldTakesElse(w, lx);
  }
}
