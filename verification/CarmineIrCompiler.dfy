/**
 The compiler from Ruby rule blocks to the conditional action IR. `Declined` is its nil: the
 rule stays a callback.
 */
module CarmineIrCompiler {
  import opened Common
  import opened CarmineIr
  import opened CarmineRuby

  type Accepted<T> = Result<T, ()>

  /** A capture, possibly through a case mapping. */
  datatype GroupRef = GroupRef(index: nat, fold: Option<Fold>)

  type Aliases = map<string, GroupRef>

  /** The case mappings the generated conditions carry. */
  datatype Folds = Folds(downcase: CaseFold, upcase: CaseFold)

  function MappingOf(f: Folds, fold: Fold): CaseFold {
    match fold
    case Down => f.downcase
    case Up => f.upcase
  }

  // ---- group references ----

  function ResolveGroup(n: Node, param: Option<string>, al: Aliases): Accepted<GroupRef> {
    match n
    case At(Var(name), i) => if param == Some(name) && i >= 0 then Ok(GroupRef(i, None)) else Err(())
    case CaseCall(recv, fold) =>
      var inner :- ResolveGroup(recv, param, al);
      if inner.fold.Some? then Err(()) else Ok(GroupRef(inner.index, Some(fold)))
    case Var(name) => if name in al then Ok(al[name]) else Err(())
    case _ => Err(())
  }

  /** A capture in value position; a mapped one cannot be emitted as it stands. */
  function GroupIndex(n: Node, param: Option<string>, al: Aliases): Accepted<nat> {
    var g :- ResolveGroup(n, param, al);
    if g.fold.None? then Ok(g.index) else Err(())
  }

  function StringSet(words: Words): Accepted<seq<string>> {
    match words
    case WordList(ws) => if ws == [] then Err(()) else Ok(ws)
    case WordUnion(a, b) =>
      var x :- StringSet(a);
      var y :- StringSet(b);
      Ok(x + y)
    case NotWords => Err(())
  }

  // ---- expressions ----

  function CompileExpr(n: Node, param: Option<string>, al: Aliases): Accepted<IrExpr> {
    match GroupIndex(n, param, al)
    case Ok(g) => Ok(Group(g))
    case Err(_) =>
      match n
      case StrLit(s) => Ok(Lit(s))
      case BoolNode(b) => Ok(BoolLit(b))
      case Interp(parts) =>
        var flat :- Flatten(parts, param, al);
        if flat == [] then Err(()) else Ok(Concat(flat))
      case Includes(words, arg) =>
        var lits :- StringSet(words);
        var g :- GroupIndex(arg, param, al);
        Ok(GroupIn(g, lits))
      case _ => Err(())
  }

  /** The chunks of an interpolated string, nested ones in line. */
  function Flatten(parts: seq<Node>, param: Option<string>, al: Aliases): Accepted<seq<IrExpr>>
    decreases parts
  {
    if parts == [] then Ok([])
    else
      var first :- match parts[0]
        case StrLit(s) => Ok([Lit(s)])
        case Ev(inner) =>
          (match GroupIndex(inner, param, al)
           case Ok(g) => Ok([Group(g)])
           case Err(_) => Err(()))
        case Interp(nested) => Flatten(nested, param, al)
        case _ => Err(());
      var rest :- Flatten(parts[1..], param, al);
      Ok(first + rest)
  }

  function CompileExprs(ns: seq<Node>, param: Option<string>, al: Aliases): Accepted<seq<IrExpr>>
    decreases |ns|
  {
    if ns == [] then Ok([])
    else
      var e :- CompileExpr(ns[0], param, al);
      var rest :- CompileExprs(ns[1..], param, al);
      Ok([e] + rest)
  }

  // ---- conditions ----

  function CompileCond(f: Folds, n: Node, param: Option<string>, al: Aliases): Accepted<IrCond> {
    match n
    case AndNode(a, b) =>
      var x :- CompileCond(f, a, param, al);
      var y :- CompileCond(f, b, param, al);
      Ok(And(x, y))
    case OrNode(a, b) =>
      var x :- CompileCond(f, a, param, al);
      var y :- CompileCond(f, b, param, al);
      Ok(Or(x, y))
    case StackSize(cmp, k) => Ok(StackDepth(cmp, k))
    case IVarNode(name) => Ok(IvarTruthy(name))
    case StateIs(s) => Ok(InState(s))
    case Includes(words, arg) =>
      var lits :- StringSet(words);
      var g :- ResolveGroup(arg, param, al);
      Ok(AmongCond(f, g, lits))
    case EqNode(left, right, negated) =>
      var g :- ResolveGroup(left, param, al);
      if !right.StrLit? then Err(())
      else
        var eq := match g.fold
          case None => GroupEq(g.index, right.s)
          case Some(fold) => GroupEqFold(g.index, MappingOf(f, fold), right.s);
        Ok(if negated then Not(eq) else eq)
    case Bang(a) =>
      var x :- CompileCond(f, a, param, al);
      Ok(Not(x))
    case MatchNode(subject, matches) =>
      var g :- GroupIndex(subject, param, al);
      Ok(GroupMatch(g, matches))
    case _ =>
      var g :- ResolveGroup(n, param, al);
      Ok(GroupPresent(g.index))
  }

  function AmongCond(f: Folds, g: GroupRef, lits: seq<string>): IrCond {
    match g.fold
    case None => GroupAmong(g.index, lits)
    case Some(fold) => GroupAmongFold(g.index, MappingOf(f, fold), lits)
  }

  // ---- statements ----

  function CompileArg(arg: Option<Node>, param: Option<string>, al: Aliases): Accepted<Option<IrExpr>> {
    match arg
    case None => Ok(None)
    case Some(n) =>
      var e :- CompileExpr(n, param, al);
      Ok(Some(e))
  }

  function CompileSimple(s: Stmt, param: Option<string>, al: Aliases): Accepted<IrOp>
    requires !s.IfStmt? && !s.CaseStmt?
  {
    match s
    case IAssign(name, n) =>
      var e :- CompileExpr(n, param, al);
      Ok(IvarSet(name, e))
    case Shovel(name, items) =>
      var es :- CompileExprs(items, param, al);
      Ok(ListPush(name, es))
    case TokenCall(tok, text) =>
      var e :- CompileArg(text, param, al);
      Ok(TokenOp(tok, e))
    case GroupsCall(toks) => if toks == [] then Err(()) else Ok(GroupsOp(toks))
    case PushCall(st) => Ok(PushOp(st))
    case PopCall(n) => Ok(PopOp(n))
    case GotoCall(st) => Ok(GotoOp(st))
    case RecurseCall(text) =>
      var e :- CompileArg(text, param, al);
      Ok(RecurseOp(if e.Some? then e.value else Group(0)))
    case Assign(_, _) => Err(())
    case Print(_) => Err(())
    case ExprStmt(_) => Err(())
    case OtherStmt => Err(())
  }

  function CompileStmt(f: Folds, s: Stmt, param: Option<string>, al: Aliases): Accepted<IrOp>
    decreases s
  {
    match s
    case IfStmt(unless, pred, thenBody, elseBody) =>
      var c :- CompileCond(f, pred, param, al);
      var a :- CompileList(f, thenBody, param, al);
      var b :- CompileList(f, elseBody, param, al);
      Ok(IfOp(if unless then Not(c) else c, a, b))
    case CaseStmt(subject, whens) =>
      var g :- ResolveGroup(subject, param, al);
      var chain :- CompileChain(f, whens, g, param, al);
      if |chain| == 1 then Ok(chain[0]) else Err(())
    case _ => CompileSimple(s, param, al)
  }

  predicate AllLiterals(items: seq<Node>) {
    forall i | 0 <= i < |items| :: items[i].StrLit?
  }

  function LiteralTexts(items: seq<Node>): (r: seq<string>)
    requires AllLiterals(items)
    ensures |r| == |items| && forall i | 0 <= i < |r| :: r[i] == items[i].s
  {
    if items == [] then [] else [items[0].s] + LiteralTexts(items[1..])
  }

  /** A `when` chain as nested `if` ops. */
  function CompileChain(f: Folds, whens: Whens, g: GroupRef, param: Option<string>, al: Aliases): Accepted<seq<IrOp>>
    decreases whens
  {
    match whens
    case NoElse => Ok([])
    case Else(body) => CompileList(f, body, param, al)
    case When(items, body, rest) =>
      if items == [] || !AllLiterals(items) then Err(())
      else
        var a :- CompileList(f, body, param, al);
        var b :- CompileChain(f, rest, g, param, al);
        Ok([IfOp(AmongCond(f, g, LiteralTexts(items)), a, b)])
  }

  function CompileList(f: Folds, ss: seq<Stmt>, param: Option<string>, al: Aliases): Accepted<seq<IrOp>>
    decreases ss
  {
    if ss == [] then Ok([])
    else if DebugPrint(ss[0]) then CompileList(f, ss[1..], param, al)
    else
      var op :- CompileStmt(f, ss[0], param, al);
      var rest :- CompileList(f, ss[1..], param, al);
      Ok([op] + rest)
  }

  // ---- whole blocks ----

  /** What a leading `name = m[i]` records, if the statement is one. */
  function AliasOf(s: Stmt, param: Option<string>, al: Aliases): Option<(string, GroupRef)> {
    if !s.Assign? then None
    else
      match ResolveGroup(s.value, param, al)
      case Ok(g) => Some((s.name, g))
      case Err(_) => None
  }

  /** The aliases after the leading bindings, and the statements left. */
  function Peel(ss: seq<Stmt>, param: Option<string>, al: Aliases): (seq<Stmt>, Aliases)
    decreases |ss|
  {
    if ss == [] then (ss, al)
    else
      match AliasOf(ss[0], param, al)
      case Some((name, g)) => Peel(ss[1..], param, al[name := g])
      case None => (ss, al)
  }

  function CompileBlock(f: Folds, b: Block): Accepted<seq<IrOp>> {
    var (rest, al) := Peel(b.stmts, b.param, map[]);
    var ops :- CompileList(f, rest, b.param, al);
    if ops == [] then Err(()) else Ok(ops)
  }

  /** The compiler as it is in the source: `aliases` belongs to it and is filled while the leading bindings last. */
  class IrCompiler {
    var aliases: Aliases
    const folds: Folds

    constructor (f: Folds)
      ensures folds == f
    {
      folds := f;
      aliases := map[];
    }

    method AliasBind(s: Stmt, param: Option<string>) returns (bound: bool)
      modifies this
      ensures match AliasOf(s, param, old(aliases))
              case Some((name, g)) => bound && aliases == old(aliases)[name := g]
              case None => !bound && aliases == old(aliases)
    {
      if !s.Assign? {
        return false;
      }
      var g := ResolveGroup(s.value, param, aliases);
      if g.Err? {
        return false;
      }
      aliases := aliases[s.name := g.value];
      bound := true;
    }

    method Compile(b: Block) returns (r: Accepted<seq<IrOp>>)
      modifies this
      ensures r == CompileBlock(folds, b)
    {
      hide CompileStmt, AliasOf;
      aliases := map[];
      var ops: seq<IrOp> := [];
      var peeling := true;
      for i := 0 to |b.stmts|
        invariant peeling ==> ops == [] && Peel(b.stmts, b.param, map[]) == Peel(b.stmts[i..], b.param, aliases)
        invariant !peeling ==> aliases == Peel(b.stmts, b.param, map[]).1
        invariant !peeling ==> Concluded(ops, CompileList(folds, b.stmts[i..], b.param, aliases))
                               == CompileList(folds, Peel(b.stmts, b.param, map[]).0, b.param, aliases)
      {
        ghost var here := b.stmts[i..];
        assert here[0] == b.stmts[i] && here[1..] == b.stmts[i + 1..];
        if peeling {
          var bound := AliasBind(b.stmts[i], b.param);
          if bound {
            continue;
          }
          assert Peel(b.stmts, b.param, map[]) == (here, aliases);
          ConcludeNone(CompileList(folds, here, b.param, aliases));
        }
        peeling := false;
        if DebugPrint(b.stmts[i]) {
          continue;
        }
        ConcludeOne(folds, ops, here, b.param, aliases);
        var op := CompileStmt(folds, b.stmts[i], b.param, aliases);
        if op.Err? {
          return Err(());
        }
        ops := ops + [op.value];
      }
      assert b.stmts[|b.stmts|..] == [] && ops + [] == ops;
      r := if ops == [] then Err(()) else Ok(ops);
    }
  }

  /** Ops collected so far, followed by what the rest compiles to. */
  function Concluded(ops: seq<IrOp>, rest: Accepted<seq<IrOp>>): Accepted<seq<IrOp>> {
    match rest
    case Ok(more) => Ok(ops + more)
    case Err(_) => Err(())
  }

  lemma ConcludeOne(f: Folds, ops: seq<IrOp>, ss: seq<Stmt>, param: Option<string>, al: Aliases)
    requires ss != [] && !DebugPrint(ss[0])
    ensures Concluded(ops, CompileList(f, ss, param, al))
         == match CompileStmt(f, ss[0], param, al)
            case Ok(op) => Concluded(ops + [op], CompileList(f, ss[1..], param, al))
            case Err(_) => Err(())
  {
    hide CompileStmt;
    var rest := CompileList(f, ss[1..], param, al);
    var op := CompileStmt(f, ss[0], param, al);
    if op.Ok? && rest.Ok? {
      assert ops + ([op.value] + rest.value) == ops + [op.value] + rest.value;
    }
  }

  lemma ConcludeNone(rest: Accepted<seq<IrOp>>)
    ensures Concluded([], rest) == rest
  {
    if rest.Ok? {
      assert [] + rest.value == rest.value;
    } else {
      assert rest.error == ();
    }
  }
}
