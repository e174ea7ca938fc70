/**
 The lexer engine as functions on its state: one rule firing, the search for a rule through
 mixins, one round of the driver loop, a whole run. The class that computes this in place
 is in CarmineLexer.
 */
module CarmineEngine {
  import opened Common
  import opened CarmineTokens
  import opened CarmineIr
  import opened CarmineTable

  /**
   The last three errors are not errors of the source. A mixin cycle exhausts its call stack
   and an undeclared state is out of bounds there. RecurseTooLong stands for an assumption,
   that `recurse` re-lexes less than the text being lexed: a longer operand may exhaust the
   call stack, or return.
   */
  datatype Error =
    | EmptyStack
    | UnknownState(name: string)
    | TableError(msg: string)
    | CallbackRequired(state: string, rule: nat)
    | MixinCycle
    | RecurseTooLong
    | Undeclared

  type Res<T> = Result<T, Error>

  /** The state of a lexer. `raw` is a history: every emission so far, also those of sub-lexers. */
  datatype Lx = Lx(
    stack: seq<nat>,
    ivars: Ivars,
    pos: nat,
    nulls: nat,
    pending: Option<nat>,
    toks: Tokens,
    raw: Tokens)

  const MAX_NULL_SCANS: nat := 5

  /** Rule bodies and replayed callbacks leave the position and its bookkeeping alone. */
  predicate Parked(lx: Lx, lx': Lx) {
    lx'.pos == lx.pos && lx'.nulls == lx.nulls && lx'.pending == lx.pending
  }

  /** The buffer is what the emissions consolidate to. */
  predicate Good(lx: Lx) {
    lx.toks == Consolidate(lx.raw)
  }

  function EmitTo(lx: Lx, tok: TokenId, val: string): (r: Lx)
    ensures Good(lx) ==> Good(r)
  {
    EmitAllConcat([], lx.raw, [(tok, val)]);
    assert EmitAll(Consolidate(lx.raw), [(tok, val)]) == Emit(Consolidate(lx.raw), tok, val);
    lx.(toks := Emit(lx.toks, tok, val), raw := lx.raw + [(tok, val)])
  }

  // ---- the state stack ----

  function PushTop(lx: Lx): Res<Lx> {
    if lx.stack == [] then Err(EmptyStack) else Ok(lx.(stack := lx.stack + [Last(lx.stack)]))
  }

  function PopStates(lx: Lx, n: nat): Res<Lx> {
    if n > |lx.stack| then Err(EmptyStack) else Ok(lx.(stack := lx.stack[..|lx.stack| - n]))
  }

  function Goto(lx: Lx, state: nat): Res<Lx> {
    if lx.stack == [] then Err(EmptyStack) else Ok(lx.(stack := Front(lx.stack) + [state]))
  }

  function ApplyNext(lx: Lx, next: seq<NextState>): (r: Res<Lx>)
    ensures r.Ok? ==> Parked(lx, r.value) && (Good(lx) ==> Good(r.value))
    decreases |next|
  {
    if next == [] then Ok(lx)
    else
      var lx1 :- match next[0]
        case NextPop => PopStates(lx, 1)
        case NextPushSelf => PushTop(lx)
        case NextPush(s) => Ok(lx.(stack := lx.stack + [s]));
      ApplyNext(lx1, next[1..])
  }

  // ---- rule bodies ----

  /** `groups Tok1, …`: capture i+1 under the i-th id, absent captures skipped. */
  function EmitGroups(lx: Lx, toks: seq<TokenId>, groups: Groups, first: nat): (r: Lx)
    ensures Parked(lx, r) && (Good(lx) ==> Good(r))
    decreases |toks|
  {
    if toks == [] then lx
    else
      var lx1 := match GroupAt(groups, first)
        case Some(v) => EmitTo(lx, toks[0], v)
        case None => lx;
      EmitGroups(lx1, toks[1..], groups, first + 1)
  }

  function RunAction(lx: Lx, act: Action, groups: Groups, whole: string): Res<Lx> {
    match act
    case ActGroups(toks) => Ok(EmitGroups(lx, toks, groups, 1))
    case ActToken(t) => Ok(EmitTo(lx, t, whole))
    case ActPush(s) => Ok(lx.(stack := lx.stack + [s]))
    case ActPushSelf => PushTop(lx)
    case ActPop(n) => PopStates(lx, n)
    case ActGoto(s) => Goto(lx, s)
  }

  function RunActions(lx: Lx, acts: seq<Action>, groups: Groups, whole: string): (r: Res<Lx>)
    ensures r.Ok? ==> Parked(lx, r.value) && (Good(lx) ==> Good(r.value))
    decreases |acts|
  {
    if acts == [] then Ok(lx)
    else
      var lx1 :- RunAction(lx, acts[0], groups, whole);
      RunActions(lx1, acts[1..], groups, whole)
  }

  /** The first set that holds the word decides, else the default. */
  function Classify(sets: seq<(TokenId, set<string>)>, defaultTok: TokenId, word: string): TokenId
    decreases |sets|
  {
    if sets == [] then defaultTok
    else if word in sets[0].1 then sets[0].0
    else Classify(sets[1..], defaultTok, word)
  }

  /** Splice the tokens of a finished sub-lexer. */
  function Splice(lx: Lx, sub: Lx): (r: Lx)
    ensures Good(lx) && Good(sub) ==> Good(r)
  {
    SpliceGood(lx, sub);
    lx.(toks := EmitAll(lx.toks, sub.toks), raw := lx.raw + sub.raw)
  }

  lemma SpliceGood(lx: Lx, sub: Lx)
    ensures Good(lx) && Good(sub) ==> EmitAll(lx.toks, sub.toks) == Consolidate(lx.raw + sub.raw)
  {
    if Good(lx) && Good(sub) {
      EmitAllStep([], lx.raw);
      SpliceConsolidated(lx.toks, sub.raw);
      EmitAllConcat([], lx.raw, sub.raw);
    }
  }

  /** One IR op other than `if` and `recurse`. */
  function RunSimple(op: IrOp, groups: Groups, lx: Lx): Res<Lx>
    requires !op.IfOp? && !op.RecurseOp?
  {
    match op
    case TokenOp(tok, None) =>
      (match GroupAt(groups, 0)
       case Some(w) => Ok(EmitTo(lx, tok, w))
       case None => Ok(lx))
    case TokenOp(tok, Some(e)) =>
      (match EvalExpr(e, groups)
       case EStr(s) => Ok(EmitTo(lx, tok, s))
       case _ => Ok(lx))
    case GroupsOp(toks) => Ok(EmitGroups(lx, toks, groups, 1))
    case PushOp(Some(s)) => Ok(lx.(stack := lx.stack + [s]))
    case PushOp(None) => PushTop(lx)
    case PopOp(n) => PopStates(lx, n)
    case GotoOp(s) => Goto(lx, s)
    case IvarSet(name, e) => Ok(lx.(ivars := lx.ivars[name := ToIvar(EvalExpr(e, groups))]))
    case ListPush(name, es) => Ok(lx.(ivars := PushTuple(lx.ivars, name, ToIvars(EvalExprs(es, groups)))))
  }

  /** `recurse`: a fresh lexer on the same table runs over the operand; `limit` is the length of the text being lexed. */
  function Recurse(t: LexerTable, v: EvalVal, lx: Lx, limit: nat): Res<Lx>
    decreases limit, 1
  {
    match v
    case EStr(text) =>
      if text == [] then Ok(lx)
      else if |text| >= limit then Err(RecurseTooLong)
      else
        var sub :- LexNative(t, text);
        Ok(Splice(lx, sub))
    case _ => Ok(lx)
  }

  function RunOp(t: LexerTable, op: IrOp, groups: Groups, lx: Lx, limit: nat): (r: Res<Lx>)
    ensures r.Ok? ==> Parked(lx, r.value) && (Good(lx) ==> Good(r.value))
    decreases limit, 2, op
  {
    match op
    case IfOp(cond, thenOps, elseOps) =>
      if lx.stack == [] then Err(EmptyStack)
      else if EvalCond(cond, groups, lx.ivars, Last(lx.stack), |lx.stack|) then RunIr(t, thenOps, groups, lx, limit)
      else RunIr(t, elseOps, groups, lx, limit)
    case RecurseOp(e) => Recurse(t, EvalExpr(e, groups), lx, limit)
    case _ => RunSimple(op, groups, lx)
  }

  function RunIr(t: LexerTable, ops: seq<IrOp>, groups: Groups, lx: Lx, limit: nat): (r: Res<Lx>)
    ensures r.Ok? ==> Parked(lx, r.value) && (Good(lx) ==> Good(r.value))
    decreases limit, 2, ops
  {
    if ops == [] then Ok(lx)
    else
      var lx1 :- RunOp(t, ops[0], groups, lx, limit);
      RunIr(t, ops[1..], groups, lx1, limit)
  }

  // ---- firing a rule and finding it ----

  datatype Hit =
    | Miss
    | Advance(lx: Lx)
    | Pause(lx: Lx, state: nat, rule: nat, groups: Groups)

  /** The null-scan accounting after a successful rule that consumed `size` characters. */
  function Bump(lx: Lx, size: nat): Lx {
    lx.(nulls := if size == 0 then lx.nulls + 1 else 0, pos := lx.pos + size)
  }

  /** Where a lexer can be in a text when it looks for a rule. */
  predicate InText(lx: Lx, text: string) {
    lx.pos <= |text| && lx.nulls <= MAX_NULL_SCANS
  }

  /** Each firing consumes text, or counts as one more null scan. */
  predicate HitOk(text: string, lx: Lx, hit: Hit) {
    match hit
    case Miss => true
    case Advance(lx') =>
      && (Good(lx) ==> Good(lx'))
      && lx.pos <= lx'.pos <= |text| && lx'.pending == lx.pending
      && lx'.nulls == if lx'.pos == lx.pos then lx.nulls + 1 else 0
    case Pause(lx', _, _, _) =>
      lx'.pending.Some? && lx'.pos + lx'.pending.value <= |text| && lx' == lx.(pending := lx'.pending)
  }

  /** What a matching rule does to the lexer before the position moves. */
  function RunBody(t: LexerTable, text: string, lx: Lx, rule: Rule, spans: Spans): (r: Res<Lx>)
    ensures r.Ok? ==> Parked(lx, r.value) && (Good(lx) ==> Good(r.value))
    requires SpansOk(spans, text, lx.pos) && !rule.kind.KMixin? && !rule.kind.KCallback?
    decreases |text|, 3
  {
    var whole := text[lx.pos..spans[0].value.1];
    match rule.kind
    case KTok(tok, next) => ApplyNext(EmitTo(lx, tok, whole), next)
    case KWordlist(sets, d) => Ok(EmitTo(lx, Classify(sets, d, whole), whole))
    case KActions(acts) => RunActions(lx, acts, GroupsOf(text, spans), whole)
    case KIr(ops) => RunIr(t, ops, GroupsOf(text, spans), lx, |text|)
  }

  function Fire(t: LexerTable, text: string, lx: Lx, state: nat, ri: nat, spans: Spans): (r: Res<Hit>)
    requires InText(lx, text)
    ensures r.Ok? ==> HitOk(text, lx, r.value) && !r.value.Miss?
    requires ri < |Rules(t, state)| && SpansOk(spans, text, lx.pos) && !Rules(t, state)[ri].kind.KMixin?
    decreases |text|, 4
  {
    var size := spans[0].value.1 - lx.pos;
    var rule := Rules(t, state)[ri];
    if rule.kind.KCallback? then Ok(Pause(lx.(pending := Some(size)), state, ri, GroupsOf(text, spans)))
    else
      var lx1 :- RunBody(t, text, lx, rule, spans);
      Ok(Advance(Bump(lx1, size)))
  }

  /** Try the rules of `state` from index `ri` on; mixins are searched in place, `path` holds the states being searched. */
  function Step(t: LexerTable, text: string, lx: Lx, state: nat, ri: nat, path: set<nat>): (r: Res<Hit>)
    requires InText(lx, text)
    ensures r.Ok? ==> HitOk(text, lx, r.value)
    decreases |text|, 5, Unvisited(t, path), 1 + |Rules(t, state)| - ri
  {
    if ri >= |Rules(t, state)| then Ok(Miss)
    else
      var rule := Rules(t, state)[ri];
      if rule.kind.KMixin? then
        var hit :- Enter(t, text, lx, rule.kind.state, path);
        if hit.Miss? then Step(t, text, lx, state, ri + 1, path) else Ok(hit)
      else if !BolOk(rule, text, lx.pos) then Step(t, text, lx, state, ri + 1, path)
      else
        match MatchAt(rule, text, lx.pos)
        case None => Step(t, text, lx, state, ri + 1, path)
        case Some(spans) => Fire(t, text, lx, state, ri, spans)
  }

  /** Search a state: its rules in order. */
  function Enter(t: LexerTable, text: string, lx: Lx, state: nat, path: set<nat>): (r: Res<Hit>)
    requires InText(lx, text)
    ensures r.Ok? ==> HitOk(text, lx, r.value)
    decreases |text|, 5, Unvisited(t, path), 0
  {
    if state >= |t.states| then Err(Undeclared)
    else if state in path then Err(MixinCycle)
    else
      UnvisitedShrinks(t, path, state);
      Step(t, text, lx, state, 0, path + {state})
  }

  // ---- the driver loop ----

  /** No rule matched: one character goes out under the error id. */
  function ErrorGetch(t: LexerTable, text: string, lx: Lx): Lx
    requires lx.pos < |text|
  {
    EmitTo(lx, t.errorTok, [text[lx.pos]]).(pos := lx.pos + 1)
  }

  /** First callback rule of a state, mixins included, skipping the states already seen. */
  function FindCallback(t: LexerTable, state: nat, seen: seq<nat>): (r: (Option<(nat, nat)>, seq<nat>))
    ensures seen <= r.1
    decreases |StatesOf(|t.states|) - Members(seen)|, 0
  {
    if state in seen || state >= |t.states| then (None, seen)
    else
      SeenGrows(t, seen, [state], state);
      FindCallbackIn(t, state, 0, seen + [state])
  }

  function FindCallbackIn(t: LexerTable, state: nat, ri: nat, seen: seq<nat>): (r: (Option<(nat, nat)>, seq<nat>))
    ensures seen <= r.1
    decreases |StatesOf(|t.states|) - Members(seen)|, 1 + |Rules(t, state)| - ri
  {
    if ri >= |Rules(t, state)| then (None, seen)
    else
      match Rules(t, state)[ri].kind
      case KCallback => (Some((state, ri)), seen)
      case KMixin(other) =>
        var (hit, seen1) := FindCallback(t, other, seen);
        if hit.Some? then (hit, seen1)
        else
          SeenKeeps(t, seen, seen1);
          FindCallbackIn(t, state, ri + 1, seen1)
      case _ => FindCallbackIn(t, state, ri + 1, seen)
  }

  /** What one turn of the loop in `run` does. */
  datatype Round =
    | Finished
    | Next(lx: Lx)
    | Paused(lx: Lx, state: nat, rule: nat, groups: Groups)

  function OneRound(t: LexerTable, text: string, lx: Lx): (r: Res<Round>)
    requires lx.pos <= |text| && lx.nulls <= MAX_NULL_SCANS + 1
    ensures r.Ok? && r.value.Next? ==>
              && r.value.lx.pos <= |text| && r.value.lx.nulls <= MAX_NULL_SCANS + 1
              && r.value.lx.pending == lx.pending && (Good(lx) ==> Good(r.value.lx))
              && Measure(text, r.value.lx) < Measure(text, lx)
    ensures r.Ok? && r.value.Paused? ==>
              && HitOk(text, lx, Pause(r.value.lx, r.value.state, r.value.rule, r.value.groups))
              && lx.nulls <= MAX_NULL_SCANS && lx.pos < |text|
    decreases |text|, 6
  {
    if lx.pos >= |text| then Ok(Finished)
    else if lx.nulls > MAX_NULL_SCANS then Ok(Next(ErrorGetch(t, text, lx.(nulls := 0))))
    else if lx.stack == [] then Err(EmptyStack)
    else
      var top := Last(lx.stack);
      var hit :- Enter(t, text, lx, top, {});
      match hit
      case Advance(lx1) => Ok(Next(lx1))
      case Pause(lx1, state, rule, groups) => Ok(Paused(lx1, state, rule, groups))
      case Miss =>
        match FindCallback(t, top, []).0
        case Some((s, r)) => Err(CallbackRequired(StateName(t, s), r))
        case None => Ok(Next(ErrorGetch(t, text, lx)))
  }

  /** Rounds left at most: seven for every character still to come, fewer after null scans. */
  function Measure(text: string, lx: Lx): nat {
    if lx.pos <= |text| && lx.nulls <= MAX_NULL_SCANS + 1 then 7 * (|text| - lx.pos) + 6 - lx.nulls else 0
  }

  /** What `run` stops at. */
  datatype RunStep =
    | Done(lx: Lx)
    | NeedCallback(lx: Lx, state: nat, rule: nat, groups: Groups)

  /** `run`: rounds until the end of the text or a pause. */
  function Run(t: LexerTable, text: string, lx: Lx): (r: Res<RunStep>)
    requires lx.pos <= |text| && lx.nulls <= MAX_NULL_SCANS + 1
    ensures r.Ok? && r.value.Done? ==> r.value.lx.pos == |text| && r.value.lx.pending == None
    ensures r.Ok? && r.value.NeedCallback? ==>
              && r.value.lx.pending.Some? && r.value.lx.pos + r.value.lx.pending.value <= |text|
              && r.value.lx.nulls <= MAX_NULL_SCANS && r.value.lx.pos < |text|
              && Measure(text, r.value.lx) <= Measure(text, lx)
    ensures r.Ok? && Good(lx) ==> Good(r.value.lx)
    decreases |text|, 7, Measure(text, lx)
  {
    if lx.pending.Some? then Err(TableError("run() called with a pending callback"))
    else
      var round :- OneRound(t, text, lx);
      match round
      case Finished => Ok(Done(lx))
      case Next(lx1) => Run(t, text, lx1)
      case Paused(lx1, state, rule, groups) => Ok(NeedCallback(lx1, state, rule, groups))
  }

  /** `begin` on a lexer: the root state and the start states above it; ivars stay. */
  function Begin(t: LexerTable, ivars: Ivars): Lx {
    Lx([t.root] + t.startPush, ivars, 0, 0, None, [], [])
  }

  /** `lex` of a fresh lexer that declines every callback. */
  function LexNative(t: LexerTable, text: string): (r: Res<Lx>)
    ensures r.Ok? ==> Good(r.value)
    decreases |text|, 8
  {
    var step :- Run(t, text, Begin(t, map[]));
    match step
    case NeedCallback(_, state, rule, _) => Err(CallbackRequired(StateName(t, state), rule))
    case Done(lx) => Ok(lx)
  }

  // ---- counting states ----

  function StatesOf(n: nat): (s: set<nat>)
    ensures forall i: nat :: i in s <==> i < n
  {
    if n == 0 then {} else StatesOf(n - 1) + {n - 1}
  }

  function Members(seen: seq<nat>): set<nat> {
    set s | s in seen
  }

  lemma SeenGrows(t: LexerTable, seen: seq<nat>, more: seq<nat>, state: nat)
    requires state in more && state !in seen && state < |t.states|
    ensures |StatesOf(|t.states|) - Members(seen + more)| < |StatesOf(|t.states|) - Members(seen)|
  {
    var all := StatesOf(|t.states|);
    SubsetSmaller(all - Members(seen + more), all - Members(seen), state);
  }

  lemma SeenKeeps(t: LexerTable, seen: seq<nat>, seen1: seq<nat>)
    requires seen <= seen1
    ensures |StatesOf(|t.states|) - Members(seen1)| <= |StatesOf(|t.states|) - Members(seen)|
  {
    var all := StatesOf(|t.states|);
    assert all - Members(seen1) <= all - Members(seen);
    SubsetSize(all - Members(seen1), all - Members(seen));
  }

  lemma {:induction false} SubsetSize(a: set<nat>, b: set<nat>)
    requires a <= b
    ensures |a| <= |b|
  {
    if a != {} {
      var x :| x in a;
      SubsetSize(a - {x}, b - {x});
    }
  }

  lemma SubsetSmaller(a: set<nat>, b: set<nat>, x: nat)
    requires a <= b && x in b && x !in a
    ensures |a| < |b|
  {
    SubsetSize(a, b - {x});
  }

  function Unvisited(t: LexerTable, path: set<nat>): nat {
    |StatesOf(|t.states|) - path|
  }

  lemma UnvisitedShrinks(t: LexerTable, path: set<nat>, state: nat)
    requires state < |t.states| && state !in path
    ensures Unvisited(t, path + {state}) < Unvisited(t, path)
  {
    var all := StatesOf(|t.states|);
    SubsetSmaller(all - (path + {state}), all - path, state);
  }
}
