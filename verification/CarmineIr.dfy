/** The conditional action IR that compiled rule blocks run as. */
module CarmineIr {
  import opened Common
  import opened CarmineTokens

  /** Case mapping (`to_lowercase` or `to_uppercase`), as the mapping itself. */
  type CaseFold = string -> string

  /** Captures of one match; 0 is the whole match, None a group that did not take part. */
  type Groups = seq<Option<string>>

  datatype IrExpr =
    | Lit(text: string)
    | Group(index: nat)
    | Concat(parts: seq<IrExpr>)
    | BoolLit(b: bool)
    | GroupIn(index: nat, lits: seq<string>)

  datatype Cmp = CmpEq | CmpNe | CmpLt | CmpLe | CmpGt | CmpGe

  datatype IrCond =
    | IvarTruthy(name: string)
    | InState(state: nat)
    | GroupEq(index: nat, lit: string)
    | GroupAmong(index: nat, lits: seq<string>)
    | GroupEqFold(index: nat, fold: CaseFold, lit: string)
    | GroupAmongFold(index: nat, fold: CaseFold, lits: seq<string>)
    | GroupMatch(index: nat, matches: string -> bool)
    | GroupPresent(index: nat)
    | StackDepth(cmp: Cmp, n: nat)
    | Not(inner: IrCond)
    | And(left: IrCond, right: IrCond)
    | Or(left: IrCond, right: IrCond)

  datatype IrOp =
    | TokenOp(tok: TokenId, value: Option<IrExpr>)
    | GroupsOp(toks: seq<TokenId>)
    | PushOp(state: Option<nat>)
    | PopOp(n: nat)
    | GotoOp(target: nat)
    | IvarSet(name: string, expr: IrExpr)
    | ListPush(name: string, exprs: seq<IrExpr>)
    | IfOp(cond: IrCond, thenOps: seq<IrOp>, elseOps: seq<IrOp>)
    | RecurseOp(expr: IrExpr)

  datatype IvarVal =
    | NilVal
    | BoolVal(b: bool)
    | StrVal(s: string)
    | ListVal(items: seq<seq<IvarVal>>)

  type Ivars = map<string, IvarVal>

  datatype EvalVal = ENil | EBool(b: bool) | EStr(s: string)

  function GroupAt(groups: Groups, i: nat): Option<string> {
    if i < |groups| then groups[i] else None
  }

  function PartText(part: EvalVal): string {
    match part
    case ENil => []
    case EBool(b) => if b then "true" else "false"
    case EStr(s) => s
  }

  function ConcatText(parts: seq<EvalVal>): string {
    if parts == [] then [] else PartText(parts[0]) + ConcatText(parts[1..])
  }

  function EvalExpr(e: IrExpr, groups: Groups): EvalVal
    decreases e
  {
    match e
    case Lit(s) => EStr(s)
    case Group(i) =>
      (match GroupAt(groups, i)
       case Some(s) => EStr(s)
       case None => ENil)
    case Concat(parts) => EStr(ConcatText(EvalExprs(parts, groups)))
    case BoolLit(b) => EBool(b)
    case GroupIn(i, lits) =>
      var g := GroupAt(groups, i);
      EBool(g.Some? && g.value in lits)
  }

  function EvalExprs(es: seq<IrExpr>, groups: Groups): (r: seq<EvalVal>)
    ensures |r| == |es|
    decreases es
  {
    if es == [] then [] else [EvalExpr(es[0], groups)] + EvalExprs(es[1..], groups)
  }

  function ToIvar(v: EvalVal): IvarVal {
    match v
    case ENil => NilVal
    case EBool(b) => BoolVal(b)
    case EStr(s) => StrVal(s)
  }

  function ToIvars(vs: seq<EvalVal>): seq<IvarVal> {
    if vs == [] then [] else [ToIvar(vs[0])] + ToIvars(vs[1..])
  }

  predicate Compare(cmp: Cmp, a: int, b: int) {
    match cmp
    case CmpEq => a == b
    case CmpNe => a != b
    case CmpLt => a < b
    case CmpLe => a <= b
    case CmpGt => a > b
    case CmpGe => a >= b
  }

  predicate EvalCond(c: IrCond, groups: Groups, ivars: Ivars, current: nat, depth: nat) {
    match c
    case IvarTruthy(name) => name in ivars && ivars[name] != NilVal && ivars[name] != BoolVal(false)
    case InState(s) => current == s
    case GroupEq(i, lit) => GroupAt(groups, i) == Some(lit)
    case GroupAmong(i, lits) => GroupAt(groups, i).Some? && GroupAt(groups, i).value in lits
    case GroupEqFold(i, fold, lit) => GroupAt(groups, i).Some? && fold(GroupAt(groups, i).value) == lit
    case GroupAmongFold(i, fold, lits) => GroupAt(groups, i).Some? && fold(GroupAt(groups, i).value) in lits
    case GroupMatch(i, matches) => GroupAt(groups, i).Some? && matches(GroupAt(groups, i).value)
    case GroupPresent(i) => GroupAt(groups, i).Some?
    case StackDepth(cmp, n) => Compare(cmp, depth, n)
    case Not(inner) => !EvalCond(inner, groups, ivars, current, depth)
    case And(l, r) => EvalCond(l, groups, ivars, current, depth) && EvalCond(r, groups, ivars, current, depth)
    case Or(l, r) => EvalCond(l, groups, ivars, current, depth) || EvalCond(r, groups, ivars, current, depth)
  }

  /** Appending a tuple to a list ivar; anything that is not a list is replaced by a new list. */
  function PushTuple(ivars: Ivars, name: string, tuple: seq<IvarVal>): Ivars {
    if name in ivars && ivars[name].ListVal? then ivars[name := ListVal(ivars[name].items + [tuple])]
    else ivars[name := ListVal([tuple])]
  }
}
