/**
 What the compiler accepts at least: every program of the IR is the compilation of a rule block.
 A program is written back as Ruby, captures spelled as subscripts of the match or as aliases,
 and compiling the block gives the program.
 */
module CarmineIrReach {
  import opened Common
  import opened CarmineTokens
  import opened CarmineIr
  import opened CarmineRuby
  import opened CarmineIrCompiler

  /** How the block names a capture. */
  type Spelling = nat -> Node

  /** Every capture is spelled as something that resolves to it. */
  ghost predicate Spells(sp: Spelling, param: Option<string>, al: Aliases) {
    forall g: nat :: ResolveGroup(sp(g), param, al) == Ok(GroupRef(g, None))
  }

  // ---- programs the compiler can have made ----

  predicate ChunkOk(e: IrExpr) {
    e.Lit? || e.Group?
  }

  predicate ExprOk(e: IrExpr) {
    match e
    case Concat(parts) => parts != [] && forall i | 0 <= i < |parts| :: ChunkOk(parts[i])
    case GroupIn(_, lits) => lits != []
    case _ => true
  }

  ghost predicate FoldOk(f: Folds, fold: CaseFold) {
    fold == f.downcase || fold == f.upcase
  }

  ghost predicate CondOk(f: Folds, c: IrCond) {
    match c
    case GroupAmong(_, lits) => lits != []
    case GroupAmongFold(_, fold, lits) => lits != [] && FoldOk(f, fold)
    case GroupEqFold(_, fold, _) => FoldOk(f, fold)
    case Not(a) => CondOk(f, a)
    case And(a, b) => CondOk(f, a) && CondOk(f, b)
    case Or(a, b) => CondOk(f, a) && CondOk(f, b)
    case _ => true
  }

  ghost predicate OpOk(f: Folds, op: IrOp)
    decreases op
  {
    match op
    case TokenOp(_, Some(e)) => ExprOk(e)
    case GroupsOp(toks) => toks != []
    case IvarSet(_, e) => ExprOk(e)
    case ListPush(_, es) => forall i | 0 <= i < |es| :: ExprOk(es[i])
    case IfOp(c, a, b) => CondOk(f, c) && OpsOk(f, a) && OpsOk(f, b)
    case RecurseOp(e) => ExprOk(e)
    case _ => true
  }

  ghost predicate OpsOk(f: Folds, ops: seq<IrOp>)
    decreases ops
  {
    ops == [] || (OpOk(f, ops[0]) && OpsOk(f, ops[1..]))
  }

  // ---- written back as Ruby ----

  function RubyChunks(sp: Spelling, parts: seq<IrExpr>): (r: seq<Node>)
    requires forall i | 0 <= i < |parts| :: ChunkOk(parts[i])
    decreases |parts|
  {
    if parts == [] then []
    else
      assert ChunkOk(parts[0]);
      [if parts[0].Lit? then StrLit(parts[0].text) else Ev(sp(parts[0].index))] + RubyChunks(sp, parts[1..])
  }

  function RubyExpr(sp: Spelling, e: IrExpr): Node
    requires ExprOk(e)
  {
    match e
    case Lit(s) => StrLit(s)
    case Group(g) => sp(g)
    case BoolLit(b) => BoolNode(b)
    case Concat(parts) => Interp(RubyChunks(sp, parts))
    case GroupIn(g, lits) => Includes(WordList(lits), sp(g))
  }

  function RubyExprs(sp: Spelling, es: seq<IrExpr>): (r: seq<Node>)
    requires forall i | 0 <= i < |es| :: ExprOk(es[i])
  {
    if es == [] then [] else [RubyExpr(sp, es[0])] + RubyExprs(sp, es[1..])
  }

  ghost function RubyFold(f: Folds, fold: CaseFold): Fold {
    if fold == f.downcase then Down else Up
  }

  ghost function RubyCond(f: Folds, sp: Spelling, c: IrCond): Node {
    match c
    case IvarTruthy(name) => IVarNode(name)
    case InState(s) => StateIs(s)
    case GroupEq(g, lit) => EqNode(sp(g), StrLit(lit), false)
    case GroupEqFold(g, fold, lit) => EqNode(CaseCall(sp(g), RubyFold(f, fold)), StrLit(lit), false)
    case GroupAmong(g, lits) => Includes(WordList(lits), sp(g))
    case GroupAmongFold(g, fold, lits) => Includes(WordList(lits), CaseCall(sp(g), RubyFold(f, fold)))
    case GroupMatch(g, matches) => MatchNode(sp(g), matches)
    case GroupPresent(g) => sp(g)
    case StackDepth(cmp, n) => StackSize(cmp, n)
    case Not(a) => Bang(RubyCond(f, sp, a))
    case And(a, b) => AndNode(RubyCond(f, sp, a), RubyCond(f, sp, b))
    case Or(a, b) => OrNode(RubyCond(f, sp, a), RubyCond(f, sp, b))
  }

  ghost function RubyStmt(f: Folds, sp: Spelling, op: IrOp): Stmt
    requires OpOk(f, op)
    decreases op
  {
    match op
    case TokenOp(tok, None) => TokenCall(tok, None)
    case TokenOp(tok, Some(e)) => TokenCall(tok, Some(RubyExpr(sp, e)))
    case GroupsOp(toks) => GroupsCall(toks)
    case PushOp(st) => PushCall(st)
    case PopOp(n) => PopCall(n)
    case GotoOp(st) => GotoCall(st)
    case IvarSet(name, e) => IAssign(name, RubyExpr(sp, e))
    case ListPush(name, es) => Shovel(name, RubyExprs(sp, es))
    case IfOp(c, a, b) => IfStmt(false, RubyCond(f, sp, c), RubyStmts(f, sp, a), RubyStmts(f, sp, b))
    case RecurseOp(e) => RecurseCall(Some(RubyExpr(sp, e)))
  }

  ghost function RubyStmts(f: Folds, sp: Spelling, ops: seq<IrOp>): (r: seq<Stmt>)
    requires OpsOk(f, ops)
    ensures |r| == |ops| && forall i | 0 <= i < |r| :: !r[i].Print?
    decreases ops
  {
    if ops == [] then [] else [RubyStmt(f, sp, ops[0])] + RubyStmts(f, sp, ops[1..])
  }

  // ---- and compiled again ----

  lemma {:induction false} ChunksCompile(sp: Spelling, parts: seq<IrExpr>, param: Option<string>, al: Aliases)
    requires Spells(sp, param, al) && forall i | 0 <= i < |parts| :: ChunkOk(parts[i])
    ensures Flatten(RubyChunks(sp, parts), param, al) == Ok(parts)
    decreases |parts|
  {
    hide ResolveGroup;
    if parts == [] {
    } else {
      ChunksCompile(sp, parts[1..], param, al);
      var nodes := RubyChunks(sp, parts);
      assert nodes[1..] == RubyChunks(sp, parts[1..]);
      if parts[0].Group? {
        assert ResolveGroup(sp(parts[0].index), param, al) == Ok(GroupRef(parts[0].index, None));
      }
      assert parts == [parts[0]] + parts[1..];
    }
  }

  lemma ExprCompiles(sp: Spelling, e: IrExpr, param: Option<string>, al: Aliases)
    requires Spells(sp, param, al) && ExprOk(e)
    ensures CompileExpr(RubyExpr(sp, e), param, al) == Ok(e)
  {
    match e
    case Group(g) => assert ResolveGroup(sp(g), param, al) == Ok(GroupRef(g, None));
    case Concat(parts) => ChunksCompile(sp, parts, param, al);
    case GroupIn(g, _) => assert ResolveGroup(sp(g), param, al) == Ok(GroupRef(g, None));
    case _ =>
  }

  lemma OneMoreExpr(n: Node, ns: seq<Node>, e: IrExpr, es: seq<IrExpr>, param: Option<string>, al: Aliases)
    requires CompileExpr(n, param, al) == Ok(e) && CompileExprs(ns, param, al) == Ok(es)
    ensures CompileExprs([n] + ns, param, al) == Ok([e] + es)
  {
    hide CompileExpr;
    assert ([n] + ns)[1..] == ns;
  }

  lemma {:induction false} ExprsCompile(sp: Spelling, es: seq<IrExpr>, param: Option<string>, al: Aliases)
    requires Spells(sp, param, al) && forall i | 0 <= i < |es| :: ExprOk(es[i])
    ensures CompileExprs(RubyExprs(sp, es), param, al) == Ok(es)
    decreases |es|
  {
    hide CompileExpr, RubyExpr, ExprOk, Spells, CompileExprs;
    if es == [] {
      NoExprs(param, al);
    } else {
      ExprCompiles(sp, es[0], param, al);
      ExprsCompile(sp, es[1..], param, al);
      OneMoreExpr(RubyExpr(sp, es[0]), RubyExprs(sp, es[1..]), es[0], es[1..], param, al);
      assert es == [es[0]] + es[1..];
    }
  }

  lemma NoExprs(param: Option<string>, al: Aliases)
    ensures CompileExprs([], param, al) == Ok([])
  {
  }

  predicate Connective(c: IrCond) {
    c.Not? || c.And? || c.Or?
  }

  lemma FoldReadBack(f: Folds, fold: CaseFold)
    requires FoldOk(f, fold)
    ensures MappingOf(f, RubyFold(f, fold)) == fold
  {
  }

  lemma MappedResolves(sp: Spelling, g: nat, fold: Fold, param: Option<string>, al: Aliases)
    requires Spells(sp, param, al)
    ensures ResolveGroup(sp(g), param, al) == Ok(GroupRef(g, None))
    ensures ResolveGroup(CaseCall(sp(g), fold), param, al) == Ok(GroupRef(g, Some(fold)))
  {
    assert ResolveGroup(sp(g), param, al) == Ok(GroupRef(g, None));
  }

  /** A test of one capture. */
  lemma CaptureTestCompiles(f: Folds, sp: Spelling, c: IrCond, param: Option<string>, al: Aliases)
    requires Spells(sp, param, al) && CondOk(f, c) && SpellsPlain(sp) && !Connective(c)
    requires c.GroupEq? || c.GroupEqFold? || c.GroupAmong? || c.GroupAmongFold?
    ensures CompileCond(f, RubyCond(f, sp, c), param, al) == Ok(c)
  {
    hide ResolveGroup, Spells, RubyFold, MappingOf, FoldOk;
    if c.GroupEqFold? || c.GroupAmongFold? {
      FoldReadBack(f, c.fold);
      MappedResolves(sp, c.index, RubyFold(f, c.fold), param, al);
    } else {
      MappedResolves(sp, c.index, Down, param, al);
    }
  }

  lemma PlainTestCompiles(f: Folds, sp: Spelling, c: IrCond, param: Option<string>, al: Aliases)
    requires Spells(sp, param, al) && SpellsPlain(sp) && !Connective(c)
    requires !c.GroupEq? && !c.GroupEqFold? && !c.GroupAmong? && !c.GroupAmongFold?
    ensures CompileCond(f, RubyCond(f, sp, c), param, al) == Ok(c)
  {
    hide ResolveGroup, Spells;
    if c.GroupMatch? || c.GroupPresent? {
      MappedResolves(sp, c.index, Down, param, al);
    }
  }

  lemma {:induction false} CondCompiles(f: Folds, sp: Spelling, c: IrCond, param: Option<string>, al: Aliases)
    requires Spells(sp, param, al) && CondOk(f, c) && SpellsPlain(sp)
    ensures CompileCond(f, RubyCond(f, sp, c), param, al) == Ok(c)
    decreases c
  {
    hide ResolveGroup, Spells, SpellsPlain, StringSet, AmongCond;
    match c
    case Not(a) => CondCompiles(f, sp, a, param, al);
    case And(a, b) =>
      CondCompiles(f, sp, a, param, al);
      CondCompiles(f, sp, b, param, al);
    case Or(a, b) =>
      CondCompiles(f, sp, a, param, al);
      CondCompiles(f, sp, b, param, al);
    case _ =>
      if c.GroupEq? || c.GroupEqFold? || c.GroupAmong? || c.GroupAmongFold? {
        CaptureTestCompiles(f, sp, c, param, al);
      } else {
        PlainTestCompiles(f, sp, c, param, al);
      }
  }

  /** Captures are spelled as subscripts or variables. */
  ghost predicate SpellsPlain(sp: Spelling) {
    forall g: nat :: sp(g).At? || sp(g).Var?
  }

  lemma {:induction false} StmtCompiles(f: Folds, sp: Spelling, op: IrOp, param: Option<string>, al: Aliases)
    requires Spells(sp, param, al) && SpellsPlain(sp) && OpOk(f, op)
    ensures CompileStmt(f, RubyStmt(f, sp, op), param, al) == Ok(op)
    ensures !DebugPrint(RubyStmt(f, sp, op)) && !RubyStmt(f, sp, op).Assign?
    decreases op
  {
    hide CompileCond, CompileExpr, RubyExpr, RubyCond, ExprOk, CondOk, Spells, SpellsPlain;
    match op
    case TokenOp(_, Some(e)) => ExprCompiles(sp, e, param, al);
    case IvarSet(_, e) => ExprCompiles(sp, e, param, al);
    case ListPush(_, es) => ExprsCompile(sp, es, param, al);
    case RecurseOp(e) => ExprCompiles(sp, e, param, al);
    case IfOp(c, a, b) =>
      CondCompiles(f, sp, c, param, al);
      StmtsCompile(f, sp, a, param, al);
      StmtsCompile(f, sp, b, param, al);
      if a != [] {
        assert !RubyStmts(f, sp, a)[0].Print?;
      }
    case _ =>
  }

  lemma {:induction false} StmtsCompile(f: Folds, sp: Spelling, ops: seq<IrOp>, param: Option<string>, al: Aliases)
    requires Spells(sp, param, al) && SpellsPlain(sp) && OpsOk(f, ops)
    ensures CompileList(f, RubyStmts(f, sp, ops), param, al) == Ok(ops)
    decreases ops
  {
    hide CompileStmt, RubyStmt, OpOk, Spells, SpellsPlain, DebugPrint;
    if ops == [] {
    } else {
      StmtCompiles(f, sp, ops[0], param, al);
      StmtsCompile(f, sp, ops[1..], param, al);
      assert RubyStmts(f, sp, ops)[1..] == RubyStmts(f, sp, ops[1..]) && ops == [ops[0]] + ops[1..];
    }
  }

  /** Captures as subscripts of the block's parameter. */
  function Subscripts(m: string): Spelling {
    (g: nat) => At(Var(m), g)
  }

  /** Every non-empty program of the IR is what some block compiles to. */
  lemma EveryProgramCompiles(f: Folds, m: string, ops: seq<IrOp>)
    requires ops != [] && OpsOk(f, ops)
    ensures CompileBlock(f, Block(Some(m), RubyStmts(f, Subscripts(m), ops))) == Ok(ops)
  {
    hide CompileList, RubyStmt, OpOk;
    var sp := Subscripts(m);
    var ss := RubyStmts(f, sp, ops);
    assert Spells(sp, Some(m), map[]) && SpellsPlain(sp);
    StmtsCompile(f, sp, ops, Some(m), map[]);
    StmtCompiles(f, sp, ops[0], Some(m), map[]);
    assert Peel(ss, Some(m), map[]) == (ss, map[]);
  }

  /** One capture through an alias, the others as subscripts. */
  function Aliased(m: string, name: string, k: nat): Spelling {
    (g: nat) => if g == k then Var(name) else At(Var(m), g)
  }

  /** The same with a leading alias: `name = m[k]` leaves no op, and `name` stands for capture `k`. */
  lemma AliasCompiles(f: Folds, m: string, name: string, k: nat, ops: seq<IrOp>)
    requires ops != [] && OpsOk(f, ops) && name != m
    ensures CompileBlock(f, Block(Some(m), [Assign(name, At(Var(m), k))] + RubyStmts(f, Aliased(m, name, k), ops))) == Ok(ops)
  {
    hide CompileList, RubyStmt, OpOk;
    var sp, al: Aliases := Aliased(m, name, k), map[name := GroupRef(k, None)];
    var ss := RubyStmts(f, sp, ops);
    var all := [Assign(name, At(Var(m), k))] + ss;
    assert Spells(sp, Some(m), al) && SpellsPlain(sp);
    StmtsCompile(f, sp, ops, Some(m), al);
    StmtCompiles(f, sp, ops[0], Some(m), al);
    assert all[1..] == ss && map[][name := GroupRef(k, None)] == al;
    assert Peel(ss, Some(m), al) == (ss, al);
  }

  /** One `when` of a case: its literals and the ops of its body. */
  type Branch = (seq<string>, seq<IrOp>)

  ghost predicate BranchesOk(f: Folds, cases: seq<Branch>) {
    forall i | 0 <= i < |cases| :: cases[i].0 != [] && OpsOk(f, cases[i].1)
  }

  ghost function CaseOf(f: Folds, sp: Spelling, cases: seq<Branch>, otherwise: Option<seq<IrOp>>): Whens
    requires BranchesOk(f, cases) && (otherwise.Some? ==> OpsOk(f, otherwise.value))
  {
    if cases != [] then When(Literals(cases[0].0), RubyStmts(f, sp, cases[0].1), CaseOf(f, sp, cases[1..], otherwise))
    else if otherwise.Some? then Else(RubyStmts(f, sp, otherwise.value))
    else NoElse
  }

  /** A test for each `when`, the later ones in the `else` of the earlier ones. */
  function NestedIfs(g: nat, cases: seq<Branch>, otherwise: Option<seq<IrOp>>): seq<IrOp> {
    if cases != [] then [IfOp(GroupAmong(g, cases[0].0), cases[0].1, NestedIfs(g, cases[1..], otherwise))]
    else if otherwise.Some? then otherwise.value
    else []
  }

  lemma {:induction false} ChainCompiles(f: Folds, sp: Spelling, g: nat, cases: seq<Branch>, otherwise: Option<seq<IrOp>>,
                                         param: Option<string>, al: Aliases)
    requires Spells(sp, param, al) && SpellsPlain(sp) && BranchesOk(f, cases) && (otherwise.Some? ==> OpsOk(f, otherwise.value))
    ensures CompileChain(f, CaseOf(f, sp, cases, otherwise), GroupRef(g, None), param, al) == Ok(NestedIfs(g, cases, otherwise))
    decreases |cases|
  {
    hide CompileList, RubyStmts, OpsOk, Spells, SpellsPlain;
    if cases != [] {
      LiteralsRead(cases[0].0);
      StmtsCompile(f, sp, cases[0].1, param, al);
      ChainCompiles(f, sp, g, cases[1..], otherwise, param, al);
    } else if otherwise.Some? {
      StmtsCompile(f, sp, otherwise.value, param, al);
    }
  }

  /** A case over literals compiles to a test for each `when`, tried in order, in front of the `else`. */
  lemma CaseCompiles(f: Folds, sp: Spelling, g: nat, cases: seq<Branch>, otherwise: Option<seq<IrOp>>, param: Option<string>, al: Aliases)
    requires Spells(sp, param, al) && SpellsPlain(sp) && BranchesOk(f, cases) && (otherwise.Some? ==> OpsOk(f, otherwise.value))
    requires cases != []
    ensures CompileStmt(f, CaseStmt(sp(g), CaseOf(f, sp, cases, otherwise)), param, al) == Ok(NestedIfs(g, cases, otherwise)[0])
  {
    ChainCompiles(f, sp, g, cases, otherwise, param, al);
    hide CompileChain, CaseOf;
    assert ResolveGroup(sp(g), param, al) == Ok(GroupRef(g, None));
  }

  function Literals(lits: seq<string>): (r: seq<Node>)
    ensures |r| == |lits| && forall i | 0 <= i < |r| :: r[i] == StrLit(lits[i])
  {
    if lits == [] then [] else [StrLit(lits[0])] + Literals(lits[1..])
  }

  lemma LiteralsRead(lits: seq<string>)
    ensures AllLiterals(Literals(lits)) && LiteralTexts(Literals(lits)) == lits
  {
    assert |LiteralTexts(Literals(lits))| == |lits|;
  }

  /** Diagnostics leave no op. */
  lemma DiagnosticsDropped(f: Folds, s: Stmt, ss: seq<Stmt>, param: Option<string>, al: Aliases)
    requires DebugPrint(s)
    ensures CompileList(f, [s] + ss, param, al) == CompileList(f, ss, param, al)
  {
    assert ([s] + ss)[1..] == ss;
  }
}
