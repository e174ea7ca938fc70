/**
 The part of a Ruby rule block the IR compiler looks at, and what executing the block does:
 locals, instance variables, the state stack and the token stream, with Ruby's own nil and
 method-missing behaviour.
 */
module CarmineRuby {
  import opened Common
  import opened CarmineTokens
  import opened CarmineIr
  import opened CarmineTable
  import opened CarmineEngine

  datatype Fold = Down | Up

  /** The receiver of `include?`: a word list, a union of two, or something that is not a list of strings. */
  datatype Words =
    | WordList(words: seq<string>)
    | WordUnion(left: Words, right: Words)
    | NotWords

  datatype Node =
    | Var(name: string)
    | At(recv: Node, index: int)
    | CaseCall(recv: Node, fold: Fold)
    | StrLit(s: string)
    | BoolNode(b: bool)
    | Interp(parts: seq<Node>)
    | Ev(inner: Node)
    | Includes(words: Words, arg: Node)
    | AndNode(left: Node, right: Node)
    | OrNode(left: Node, right: Node)
    | Bang(inner: Node)
    | EqNode(left: Node, right: Node, negated: bool)
    | MatchNode(subject: Node, matches: string -> bool)
    | IVarNode(name: string)
    | StateIs(state: nat)
    | StackSize(cmp: Cmp, n: nat)
    | OtherNode

  datatype Stmt =
    | Assign(name: string, value: Node)
    | IAssign(name: string, value: Node)
    | Shovel(name: string, items: seq<Node>)
    | TokenCall(tok: TokenId, text: Option<Node>)
    | GroupsCall(toks: seq<TokenId>)
    | PushCall(state: Option<nat>)
    | PopCall(n: nat)
    | GotoCall(target: nat)
    | RecurseCall(text: Option<Node>)
    | IfStmt(unless: bool, pred: Node, thenBody: seq<Stmt>, elseBody: seq<Stmt>)
    | CaseStmt(subject: Node, whens: Whens)
    | Print(args: seq<Stmt>)
    | ExprStmt(value: Node)
    | OtherStmt

  datatype Whens =
    | When(items: seq<Node>, body: seq<Stmt>, rest: Whens)
    | Else(body: seq<Stmt>)
    | NoElse

  datatype Block = Block(param: Option<string>, stmts: seq<Stmt>)

  predicate AllPrints(ss: seq<Stmt>) {
    forall i | 0 <= i < |ss| :: ss[i].Print?
  }

  /** Diagnostics, bare or under an instance variable; the compiler elides them without a look at their arguments or the other branch. */
  predicate DebugPrint(s: Stmt) {
    s.Print? || (s.IfStmt? && s.pred.IVarNode? && s.thenBody != [] && AllPrints(s.thenBody))
  }

  // ---- values ----

  datatype Val =
    | VMatch
    | VNil
    | VBool(b: bool)
    | VStr(s: string)
    | VList

  type Locals = map<string, Val>

  /**
   What a block runs against: the table, the match, the length of the text being lexed,
   Ruby's case mappings, and the instance variables that `start` sets to an empty list. The
   engine does not run `start`; it has no entry for such a variable until the first append.
   */
  datatype World = World(
    t: LexerTable,
    groups: Groups,
    limit: nat,
    downcase: CaseFold,
    upcase: CaseFold,
    lists: set<string>)

  /** A raised exception, or a value. */
  type Raises<T> = Result<T, ()>

  function Mapping(w: World, fold: Fold): CaseFold {
    match fold
    case Down => w.downcase
    case Up => w.upcase
  }

  function OptVal(v: Option<string>): Val {
    match v
    case Some(s) => VStr(s)
    case None => VNil
  }

  function OfIvar(w: World, ivars: Ivars, name: string): Val {
    if name !in ivars then (if name in w.lists then VList else VNil)
    else
      match ivars[name]
      case NilVal => VNil
      case BoolVal(b) => VBool(b)
      case StrVal(s) => VStr(s)
      case ListVal(_) => VList
  }

  predicate Truthy(v: Val) {
    v != VNil && v != VBool(false)
  }

  /** `recv[i]`: a capture of the match, or one character of a string. */
  function ValueAt(w: World, recv: Val, i: int): Raises<Val> {
    match recv
    case VMatch =>
      if i >= 0 then Ok(OptVal(GroupAt(w.groups, i)))
      else if |w.groups| + i >= 0 then Ok(OptVal(GroupAt(w.groups, |w.groups| + i)))
      else Ok(VNil)
    case VStr(s) =>
      if 0 <= i < |s| then Ok(VStr([s[i]]))
      else if 0 <= |s| + i < |s| then Ok(VStr([s[|s| + i]]))
      else Ok(VNil)
    case _ => Err(())
  }

  predicate InWords(words: Words, s: string) {
    match words
    case WordList(ws) => s in ws
    case WordUnion(a, b) => InWords(a, s) || InWords(b, s)
    case NotWords => false
  }

  function ToText(w: World, v: Val): Raises<string> {
    match v
    case VNil => Ok([])
    case VBool(b) => Ok(if b then "true" else "false")
    case VStr(s) => Ok(s)
    case VMatch => Ok(match GroupAt(w.groups, 0) case Some(s) => s case None => [])
    case VList => Err(())
  }

  function Value(w: World, n: Node, env: Locals, lx: Lx): Raises<Val>
    decreases n, 0
  {
    match n
    case Var(name) => if name in env then Ok(env[name]) else Err(())
    case At(recv, i) =>
      var v :- Value(w, recv, env, lx);
      ValueAt(w, v, i)
    case CaseCall(recv, fold) =>
      var v :- Value(w, recv, env, lx);
      if v.VStr? then Ok(VStr(Mapping(w, fold)(v.s))) else Err(())
    case StrLit(s) => Ok(VStr(s))
    case BoolNode(b) => Ok(VBool(b))
    case Interp(parts) =>
      var s :- Joined(w, parts, env, lx);
      Ok(VStr(s))
    case Ev(inner) =>
      var v :- Value(w, inner, env, lx);
      var s :- ToText(w, v);
      Ok(VStr(s))
    case Includes(words, arg) =>
      var v :- Value(w, arg, env, lx);
      if words.NotWords? then Err(()) else Ok(VBool(v.VStr? && InWords(words, v.s)))
    case AndNode(a, b) =>
      var v :- Value(w, a, env, lx);
      if Truthy(v) then Value(w, b, env, lx) else Ok(v)
    case OrNode(a, b) =>
      var v :- Value(w, a, env, lx);
      if Truthy(v) then Ok(v) else Value(w, b, env, lx)
    case Bang(a) =>
      var v :- Value(w, a, env, lx);
      Ok(VBool(!Truthy(v)))
    case EqNode(a, b, negated) =>
      var x :- Value(w, a, env, lx);
      var y :- Value(w, b, env, lx);
      Ok(VBool((x == y) != negated))
    case MatchNode(subject, matches) =>
      var v :- Value(w, subject, env, lx);
      (match v
       case VStr(s) => Ok(VBool(matches(s)))
       case VNil => Ok(VNil)
       case _ => Err(()))
    case IVarNode(name) => Ok(OfIvar(w, lx.ivars, name))
    case StateIs(s) => if lx.stack == [] then Err(()) else Ok(VBool(Last(lx.stack) == s))
    case StackSize(cmp, k) => Ok(VBool(Compare(cmp, |lx.stack|, k)))
    case OtherNode => Err(())
  }

  function Joined(w: World, parts: seq<Node>, env: Locals, lx: Lx): Raises<string>
    decreases parts
  {
    if parts == [] then Ok([])
    else
      var v :- Value(w, parts[0], env, lx);
      var s :- ToText(w, v);
      var rest :- Joined(w, parts[1..], env, lx);
      Ok(s + rest)
  }

  /** `@name << tuple`: only lists take an append. */
  function Append(w: World, ivars: Ivars, name: string, tuple: seq<IvarVal>): Raises<Ivars> {
    if name in ivars && ivars[name].ListVal? then Ok(ivars[name := ListVal(ivars[name].items + [tuple])])
    else if name !in ivars && name in w.lists then Ok(ivars[name := ListVal([] + [tuple])])
    else Err(())
  }

  function Values(w: World, ns: seq<Node>, env: Locals, lx: Lx): Raises<seq<Val>>
    decreases ns
  {
    if ns == [] then Ok([])
    else
      var v :- Value(w, ns[0], env, lx);
      var rest :- Values(w, ns[1..], env, lx);
      Ok([v] + rest)
  }

  function StoredVal(v: Val): Raises<IvarVal> {
    match v
    case VNil => Ok(NilVal)
    case VBool(b) => Ok(BoolVal(b))
    case VStr(s) => Ok(StrVal(s))
    case _ => Err(())
  }

  function StoredVals(vs: seq<Val>): Raises<seq<IvarVal>> {
    if vs == [] then Ok([])
    else
      var v :- StoredVal(vs[0]);
      var rest :- StoredVals(vs[1..]);
      Ok([v] + rest)
  }

  // ---- statements ----

  datatype Outcome =
    | Ran(env: Locals, lx: Lx)
    | Raised
    | Failed(error: Error)

  /** An outcome, and whether a conditional that is not a diagnostic was reached while the state stack was empty. */
  datatype Trace = Trace(out: Outcome, bare: bool)

  function Lift(env: Locals, r: Res<Lx>): Outcome {
    match r
    case Ok(lx) => Ran(env, lx)
    case Err(e) => Failed(e)
  }

  /** A value in the position of emitted or re-lexed text: nil stands for nothing. */
  function TextArg(w: World, arg: Option<Node>, env: Locals, lx: Lx): Raises<Option<string>> {
    match arg
    case None => Ok(GroupAt(w.groups, 0))
    case Some(n) =>
      var v :- Value(w, n, env, lx);
      match v
      case VStr(s) => Ok(Some(s))
      case VNil => Ok(None)
      case _ => Err(())
  }

  function ExecSimple(w: World, s: Stmt, env: Locals, lx: Lx): Outcome
    requires !s.IfStmt? && !s.CaseStmt? && !s.Print?
  {
    match s
    case Assign(name, n) =>
      (match Value(w, n, env, lx)
       case Ok(v) => Ran(env[name := v], lx)
       case Err(_) => Raised)
    case IAssign(name, n) =>
      (match Value(w, n, env, lx)
       case Ok(v) => (match StoredVal(v) case Ok(iv) => Ran(env, lx.(ivars := lx.ivars[name := iv])) case Err(_) => Raised)
       case Err(_) => Raised)
    case Shovel(name, items) =>
      (match Values(w, items, env, lx)
       case Ok(vs) =>
         (match StoredVals(vs)
          case Ok(tuple) =>
            (match Append(w, lx.ivars, name, tuple)
             case Ok(ivars) => Ran(env, lx.(ivars := ivars))
             case Err(_) => Raised)
          case Err(_) => Raised)
       case Err(_) => Raised)
    case TokenCall(tok, value) =>
      (match TextArg(w, value, env, lx)
       case Ok(Some(s)) => Ran(env, EmitTo(lx, tok, s))
       case Ok(None) => Ran(env, lx)
       case Err(_) => Raised)
    case GroupsCall(toks) => Ran(env, EmitGroups(lx, toks, w.groups, 1))
    case PushCall(Some(st)) => Ran(env, lx.(stack := lx.stack + [st]))
    case PushCall(None) => Lift(env, PushTop(lx))
    case PopCall(n) => Lift(env, PopStates(lx, n))
    case GotoCall(st) => Lift(env, Goto(lx, st))
    case RecurseCall(text) =>
      (match TextArg(w, text, env, lx)
       case Ok(Some(s)) => Lift(env, Recurse(w.t, EStr(s), lx, w.limit))
       case Ok(None) => Ran(env, lx)
       case Err(_) => Raised)
    case ExprStmt(n) =>
      (match Value(w, n, env, lx)
       case Ok(_) => Ran(env, lx)
       case Err(_) => Raised)
    case OtherStmt => Raised
  }

  function Exec(w: World, s: Stmt, env: Locals, lx: Lx): Trace
    decreases s
  {
    match s
    case IfStmt(unless, pred, thenBody, elseBody) =>
      (match Value(w, pred, env, lx)
       case Err(_) => Trace(Raised, lx.stack == [])
       case Ok(v) =>
         var bare := lx.stack == [] && !DebugPrint(s);
         var r := if Truthy(v) != unless then ExecAll(w, thenBody, env, lx) else ExecAll(w, elseBody, env, lx);
         Trace(r.out, r.bare || bare))
    case CaseStmt(subject, whens) =>
      (match Value(w, subject, env, lx)
       case Err(_) => Trace(Raised, lx.stack == [] && whens.When?)
       case Ok(v) => ExecWhens(w, whens, v, env, lx))
    case Print(args) => ExecAll(w, args, env, lx)
    case _ => Trace(ExecSimple(w, s, env, lx), false)
  }

  /** The first `when` that lists the subject decides. */
  function ExecWhens(w: World, whens: Whens, v: Val, env: Locals, lx: Lx): Trace
    decreases whens
  {
    match whens
    case NoElse => Trace(Ran(env, lx), false)
    case Else(body) => ExecAll(w, body, env, lx)
    case When(items, body, rest) =>
      match Values(w, items, env, lx)
      case Err(_) => Trace(Raised, lx.stack == [])
      case Ok(vs) =>
        var r := if v in vs then ExecAll(w, body, env, lx) else ExecWhens(w, rest, v, env, lx);
        Trace(r.out, r.bare || lx.stack == [])
  }

  function ExecAll(w: World, ss: seq<Stmt>, env: Locals, lx: Lx): Trace
    decreases ss
  {
    if ss == [] then Trace(Ran(env, lx), false)
    else
      var first := Exec(w, ss[0], env, lx);
      if !first.out.Ran? then first
      else
        var rest := ExecAll(w, ss[1..], first.out.env, first.out.lx);
        Trace(rest.out, first.bare || rest.bare)
  }

  /** The block on one match: its parameter is the match. */
  function ExecBlock(w: World, b: Block, lx: Lx): Trace {
    ExecAll(w, b.stmts, if b.param.Some? then map[b.param.value := VMatch] else map[], lx)
  }
}
