/**
 Lossless lexing: when every rule emits exactly what it matched, the values of the token
 stream concatenate to the input, with error characters, sub-lexes and callbacks included.
 */
module CarmineCoverage {
  import opened Common
  import opened CarmineTokens
  import opened CarmineIr
  import opened CarmineTable
  import opened CarmineEngine
  import opened CarmineSession

  // ---- the text a rule body is meant to emit ----

  function GroupsText(groups: Groups, first: nat, n: nat): string
    decreases n
  {
    if n == 0 then []
    else
      (match GroupAt(groups, first)
       case Some(v) => v
       case None => []) + GroupsText(groups, first + 1, n - 1)
  }

  function ActionsText(acts: seq<Action>, groups: Groups, whole: string): string
    decreases |acts|
  {
    if acts == [] then []
    else
      (match acts[0]
       case ActGroups(toks) => GroupsText(groups, 1, |toks|)
       case ActToken(_) => whole
       case _ => []) + ActionsText(acts[1..], groups, whole)
  }

  function ValueText(v: EvalVal): string {
    if v.EStr? then v.s else []
  }

  /** What one op emits; a `recurse` owes its whole operand. */
  function OpText(t: LexerTable, op: IrOp, groups: Groups, lx: Lx, limit: nat): string
    decreases op, 0
  {
    match op
    case TokenOp(_, None) => if GroupAt(groups, 0).Some? then GroupAt(groups, 0).value else []
    case TokenOp(_, Some(e)) => ValueText(EvalExpr(e, groups))
    case GroupsOp(toks) => GroupsText(groups, 1, |toks|)
    case RecurseOp(e) => ValueText(EvalExpr(e, groups))
    case IfOp(cond, thenOps, elseOps) =>
      if lx.stack == [] then []
      else if EvalCond(cond, groups, lx.ivars, Last(lx.stack), |lx.stack|) then OpsText(t, thenOps, groups, lx, limit)
      else OpsText(t, elseOps, groups, lx, limit)
    case _ => []
  }

  function OpsText(t: LexerTable, ops: seq<IrOp>, groups: Groups, lx: Lx, limit: nat): string
    decreases ops
  {
    if ops == [] then []
    else
      match RunOp(t, ops[0], groups, lx, limit)
      case Ok(lx1) => OpText(t, ops[0], groups, lx, limit) + OpsText(t, ops[1..], groups, lx1, limit)
      case Err(_) => []
  }

  function BodyText(t: LexerTable, text: string, lx: Lx, rule: Rule, spans: Spans): string
    requires SpansOk(spans, text, lx.pos)
  {
    var whole := text[lx.pos..spans[0].value.1];
    match rule.kind
    case KActions(acts) => ActionsText(acts, GroupsOf(text, spans), whole)
    case KIr(ops) => OpsText(t, ops, GroupsOf(text, spans), lx, |text|)
    case _ => whole
  }

  /** The rule has a body, it matches here, and the body runs to its end. */
  predicate BodyRuns(t: LexerTable, text: string, lx: Lx, rule: Rule) {
    && !rule.kind.KMixin? && !rule.kind.KCallback? && MatchAt(rule, text, lx.pos).Some?
    && RunBody(t, text, lx, rule, MatchAt(rule, text, lx.pos).value).Ok?
  }

  /** On every match of the rule, in whatever state the lexer is: if the body succeeds, what it emits is the match. */
  ghost predicate Covers(t: LexerTable, rule: Rule) {
    forall text: string, lx: Lx | BodyRuns(t, text, lx, rule) ::
      BodyText(t, text, lx, rule, MatchAt(rule, text, lx.pos).value) == text[lx.pos..MatchAt(rule, text, lx.pos).value[0].value.1]
  }

  /** Every rule covers. The callback rules of the table do not run here. */
  ghost predicate TableCovers(t: LexerTable) {
    forall s: nat, ri: nat | ri < |Rules(t, s)| :: Covers(t, Rules(t, s)[ri])
  }

  // ---- bodies emit that text ----

  lemma EmitText(lx: Lx, tok: TokenId, val: string)
    requires Good(lx)
    ensures Text(EmitTo(lx, tok, val).toks) == Text(lx.toks) + val
  {
    EmitAllStep([], lx.raw);
    EmitStep(lx.toks, tok, val);
  }

  lemma {:induction false} ApplyNextKeepsTokens(lx: Lx, next: seq<NextState>)
    requires ApplyNext(lx, next).Ok?
    ensures ApplyNext(lx, next).value.toks == lx.toks
    decreases |next|
  {
    if next == [] {
    } else {
      var step := match next[0]
        case NextPop => PopStates(lx, 1)
        case NextPushSelf => PushTop(lx)
        case NextPush(s) => Ok(lx.(stack := lx.stack + [s]));
      ApplyNextKeepsTokens(step.value, next[1..]);
    }
  }

  lemma {:induction false} EmitGroupsText(lx: Lx, toks: seq<TokenId>, groups: Groups, first: nat)
    requires Good(lx)
    ensures Text(EmitGroups(lx, toks, groups, first).toks) == Text(lx.toks) + GroupsText(groups, first, |toks|)
    decreases |toks|
  {
    if toks == [] {
    } else {
      match GroupAt(groups, first)
      case Some(v) =>
        EmitText(lx, toks[0], v);
        EmitGroupsText(EmitTo(lx, toks[0], v), toks[1..], groups, first + 1);
      case None =>
        EmitGroupsText(lx, toks[1..], groups, first + 1);
    }
  }

  lemma RunActionText(lx: Lx, act: Action, groups: Groups, whole: string)
    requires Good(lx) && RunAction(lx, act, groups, whole).Ok?
    ensures Text(RunAction(lx, act, groups, whole).value.toks) == Text(lx.toks) + ActionsText([act], groups, whole)
    ensures Good(RunAction(lx, act, groups, whole).value)
  {
    hide EmitTo, Text;
    assert [act][1..] == [];
    match act
    case ActGroups(toks) => EmitGroupsText(lx, toks, groups, 1);
    case ActToken(tok) => EmitText(lx, tok, whole);
    case ActPush(_) | ActPushSelf | ActPop(_) | ActGoto(_) =>
  }

  lemma {:induction false} RunActionsText(lx: Lx, acts: seq<Action>, groups: Groups, whole: string)
    requires Good(lx) && RunActions(lx, acts, groups, whole).Ok?
    ensures Text(RunActions(lx, acts, groups, whole).value.toks) == Text(lx.toks) + ActionsText(acts, groups, whole)
    decreases |acts|
  {
    hide RunAction, Good, Text;
    if acts == [] {
    } else {
      var lx1 := RunAction(lx, acts[0], groups, whole).value;
      RunActionText(lx, acts[0], groups, whole);
      assert [acts[0]][1..] == [];
      RunActionsText(lx1, acts[1..], groups, whole);
      assert ActionsText(acts, groups, whole) == ActionsText([acts[0]], groups, whole) + ActionsText(acts[1..], groups, whole);
    }
  }

  lemma RunSimpleText(t: LexerTable, op: IrOp, groups: Groups, lx: Lx, limit: nat)
    requires Good(lx) && !op.IfOp? && !op.RecurseOp? && RunSimple(op, groups, lx).Ok?
    ensures Text(RunSimple(op, groups, lx).value.toks) == Text(lx.toks) + OpText(t, op, groups, lx, limit)
  {
    hide EmitTo, Text, EvalExpr, PushTuple;
    match op
    case TokenOp(tok, None) =>
      if GroupAt(groups, 0).Some? {
        EmitText(lx, tok, GroupAt(groups, 0).value);
      }
    case TokenOp(tok, Some(e)) =>
      if EvalExpr(e, groups).EStr? {
        EmitText(lx, tok, EvalExpr(e, groups).s);
      }
    case GroupsOp(toks) => EmitGroupsText(lx, toks, groups, 1);
    case PushOp(_) =>
    case PopOp(_) =>
    case GotoOp(_) =>
    case IvarSet(_, _) =>
    case ListPush(_, _) =>
  }

  lemma {:induction false} RecurseText(t: LexerTable, v: EvalVal, lx: Lx, limit: nat)
    requires TableCovers(t) && Good(lx) && Recurse(t, v, lx, limit).Ok?
    ensures Text(Recurse(t, v, lx, limit).value.toks) == Text(lx.toks) + ValueText(v)
    decreases limit, 1
  {
    hide TableCovers, LexNative;
    if v.EStr? && v.s != [] {
      LexLossless(t, v.s);
      EmitAllStep([], lx.raw);
      EmitAllStep(lx.toks, LexNative(t, v.s).value.toks);
    }
  }

  lemma {:induction false} RunOpText(t: LexerTable, op: IrOp, groups: Groups, lx: Lx, limit: nat)
    requires TableCovers(t) && Good(lx) && RunOp(t, op, groups, lx, limit).Ok?
    ensures Text(RunOp(t, op, groups, lx, limit).value.toks) == Text(lx.toks) + OpText(t, op, groups, lx, limit)
    decreases limit, 2, op
  {
    hide TableCovers, RunSimple, Good, Text, EvalCond;
    match op
    case IfOp(cond, thenOps, elseOps) =>
      if EvalCond(cond, groups, lx.ivars, Last(lx.stack), |lx.stack|) {
        RunOpsText(t, thenOps, groups, lx, limit);
      } else {
        RunOpsText(t, elseOps, groups, lx, limit);
      }
    case RecurseOp(e) => RecurseText(t, EvalExpr(e, groups), lx, limit);
    case _ => RunSimpleText(t, op, groups, lx, limit);
  }

  lemma {:induction false} RunOpsText(t: LexerTable, ops: seq<IrOp>, groups: Groups, lx: Lx, limit: nat)
    requires TableCovers(t) && Good(lx) && RunIr(t, ops, groups, lx, limit).Ok?
    ensures Text(RunIr(t, ops, groups, lx, limit).value.toks) == Text(lx.toks) + OpsText(t, ops, groups, lx, limit)
    decreases limit, 2, ops
  {
    hide TableCovers, RunOp, Good, Text, OpText;
    if ops == [] {
    } else {
      RunOpText(t, ops[0], groups, lx, limit);
      RunOpsText(t, ops[1..], groups, RunOp(t, ops[0], groups, lx, limit).value, limit);
    }
  }

  lemma {:induction false} RunBodyText(t: LexerTable, text: string, lx: Lx, rule: Rule, spans: Spans)
    requires TableCovers(t) && Good(lx) && SpansOk(spans, text, lx.pos) && !rule.kind.KMixin? && !rule.kind.KCallback?
    requires RunBody(t, text, lx, rule, spans).Ok?
    ensures Text(RunBody(t, text, lx, rule, spans).value.toks) == Text(lx.toks) + BodyText(t, text, lx, rule, spans)
    decreases |text|, 3
  {
    hide TableCovers, Text, Good, RunIr, EmitTo;
    var whole := text[lx.pos..spans[0].value.1];
    match rule.kind
    case KTok(tok, next) =>
      EmitText(lx, tok, whole);
      ApplyNextKeepsTokens(EmitTo(lx, tok, whole), next);
    case KWordlist(sets, d) => EmitText(lx, Classify(sets, d, whole), whole);
    case KActions(acts) => RunActionsText(lx, acts, GroupsOf(text, spans), whole);
    case KIr(ops) => RunOpsText(t, ops, GroupsOf(text, spans), lx, |text|);
  }

  /** Plain token rules and word lists emit their match, whatever the table. */
  lemma DeclarativeEmits(t: LexerTable, text: string, lx: Lx, rule: Rule, spans: Spans)
    requires rule.kind.KTok? || rule.kind.KWordlist?
    requires Good(lx) && SpansOk(spans, text, lx.pos) && RunBody(t, text, lx, rule, spans).Ok?
    ensures Text(RunBody(t, text, lx, rule, spans).value.toks) == Text(lx.toks) + text[lx.pos..spans[0].value.1]
  {
    hide Text, Good, EmitTo;
    var whole := text[lx.pos..spans[0].value.1];
    match rule.kind
    case KTok(tok, next) =>
      EmitText(lx, tok, whole);
      ApplyNextKeepsTokens(EmitTo(lx, tok, whole), next);
    case KWordlist(sets, d) => EmitText(lx, Classify(sets, d, whole), whole);
  }

  // ---- tables that cover ----

  function Plus(a: Option<nat>, b: Option<nat>): Option<nat> {
    if a.Some? && b.Some? then Some(a.value + b.value) else None
  }

  /** How often an op emits the whole match, when that is the same on every path; None when it is not, or other text comes out. */
  function OpCount(op: IrOp): Option<nat>
    decreases op
  {
    match op
    case TokenOp(_, None) => Some(1)
    case TokenOp(_, Some(e)) => if e == Group(0) then Some(1) else None
    case RecurseOp(e) => if e == Group(0) then Some(1) else None
    case GroupsOp(_) => None
    case IfOp(_, thenOps, elseOps) =>
      var n := OpsCount(thenOps);
      if n == OpsCount(elseOps) then n else None
    case _ => Some(0)
  }

  function OpsCount(ops: seq<IrOp>): Option<nat>
    decreases ops
  {
    if ops == [] then Some(0) else Plus(OpCount(ops[0]), OpsCount(ops[1..]))
  }

  function ActionsCount(acts: seq<Action>): Option<nat>
    decreases |acts|
  {
    if acts == [] then Some(0)
    else
      Plus(match acts[0]
           case ActGroups(_) => None
           case ActToken(_) => Some(1)
           case _ => Some(0), ActionsCount(acts[1..]))
  }

  /** The rule emits its match once on every path, as can be read off its body. */
  predicate EmitsOnce(rule: Rule) {
    match rule.kind
    case KActions(acts) => ActionsCount(acts) == Some(1)
    case KIr(ops) => OpsCount(ops) == Some(1)
    case _ => true
  }

  function Repeat(s: string, n: nat): string {
    if n == 0 then [] else s + Repeat(s, n - 1)
  }

  lemma {:induction false} RepeatSum(s: string, m: nat, n: nat)
    ensures Repeat(s, m) + Repeat(s, n) == Repeat(s, m + n)
  {
    if m == 0 {
      assert [] + Repeat(s, n) == Repeat(s, n);
    } else {
      RepeatSum(s, m - 1, n);
      assert s + Repeat(s, m - 1) + Repeat(s, n) == s + (Repeat(s, m - 1) + Repeat(s, n));
    }
  }

  lemma RepeatOnce(s: string)
    ensures Repeat(s, 0) == [] && Repeat(s, 1) == s
  {
    assert s + [] == s;
  }

  lemma {:induction false} OpEmitsCount(t: LexerTable, op: IrOp, groups: Groups, lx: Lx, limit: nat, whole: string)
    requires GroupAt(groups, 0) == Some(whole) && OpCount(op).Some? && RunOp(t, op, groups, lx, limit).Ok?
    ensures OpText(t, op, groups, lx, limit) == Repeat(whole, OpCount(op).value)
    decreases op
  {
    hide RunSimple, Recurse, EvalCond, Repeat;
    RepeatOnce(whole);
    match op
    case IfOp(cond, thenOps, elseOps) =>
      if EvalCond(cond, groups, lx.ivars, Last(lx.stack), |lx.stack|) {
        OpsEmitCount(t, thenOps, groups, lx, limit, whole);
      } else {
        OpsEmitCount(t, elseOps, groups, lx, limit, whole);
      }
    case TokenOp(_, _) =>
    case RecurseOp(_) =>
    case GroupsOp(_) =>
    case PushOp(_) =>
    case PopOp(_) =>
    case GotoOp(_) =>
    case IvarSet(_, _) =>
    case ListPush(_, _) =>
  }

  lemma {:induction false} OpsEmitCount(t: LexerTable, ops: seq<IrOp>, groups: Groups, lx: Lx, limit: nat, whole: string)
    requires GroupAt(groups, 0) == Some(whole) && OpsCount(ops).Some? && RunIr(t, ops, groups, lx, limit).Ok?
    ensures OpsText(t, ops, groups, lx, limit) == Repeat(whole, OpsCount(ops).value)
    decreases ops
  {
    hide RunOp, OpText, OpCount, Repeat, GroupAt;
    if ops == [] {
      RepeatOnce(whole);
    } else {
      OpEmitsCount(t, ops[0], groups, lx, limit, whole);
      OpsEmitCount(t, ops[1..], groups, RunOp(t, ops[0], groups, lx, limit).value, limit, whole);
      RepeatSum(whole, OpCount(ops[0]).value, OpsCount(ops[1..]).value);
    }
  }

  lemma {:induction false} ActionsEmitCount(acts: seq<Action>, groups: Groups, whole: string)
    requires ActionsCount(acts).Some?
    ensures ActionsText(acts, groups, whole) == Repeat(whole, ActionsCount(acts).value)
    decreases |acts|
  {
    hide Repeat, GroupsText;
    RepeatOnce(whole);
    if acts == [] {
    } else {
      ActionsEmitCount(acts[1..], groups, whole);
      var n := ActionsCount(acts[1..]).value;
      RepeatSum(whole, 1, n);
      RepeatSum(whole, 0, n);
    }
  }

  /** A rule that emits its match once on every path covers. */
  lemma OnceCovers(t: LexerTable, rule: Rule)
    requires EmitsOnce(rule)
    ensures Covers(t, rule)
  {
    hide ActionsCount, OpsCount, Repeat, RunIr, RunActions, MatchAt;
    forall text: string, lx: Lx | BodyRuns(t, text, lx, rule)
      ensures BodyText(t, text, lx, rule, MatchAt(rule, text, lx.pos).value) == text[lx.pos..MatchAt(rule, text, lx.pos).value[0].value.1]
    {
      var spans := MatchAt(rule, text, lx.pos).value;
      var groups, whole := GroupsOf(text, spans), text[lx.pos..spans[0].value.1];
      RepeatOnce(whole);
      match rule.kind
      case KActions(acts) => ActionsEmitCount(acts, groups, whole);
      case KIr(ops) => OpsEmitCount(t, ops, groups, lx, |text|, whole);
      case KTok(_, _) =>
      case KWordlist(_, _) =>
    }
  }

  /** So does a table of such rules, conditional, popping and re-lexing ones included. */
  lemma OnceTableCovers(t: LexerTable)
    requires forall s: nat, ri: nat | ri < |Rules(t, s)| :: EmitsOnce(Rules(t, s)[ri])
    ensures TableCovers(t)
  {
    hide Covers, EmitsOnce;
    forall s: nat, ri: nat | ri < |Rules(t, s)| ensures Covers(t, Rules(t, s)[ri]) {
      OnceCovers(t, Rules(t, s)[ri]);
    }
  }

  /** For instance one rule whose branches emit the match, pop and emit it, or re-lex it. */
  lemma ConditionalTableCovers(t: LexerTable, re: Regex, c: IrCond, d: IrCond)
    requires t.states == [[Rule(re, false, KIr([IfOp(c, [TokenOp(0, None)],
                                                     [PopOp(1), IfOp(d, [TokenOp(1, None)], [RecurseOp(Group(0))])])]))]]
    ensures TableCovers(t)
  {
    hide TableCovers;
    var inner := IfOp(d, [TokenOp(1, None)], [RecurseOp(Group(0))]);
    CountOne(TokenOp(0, None));
    CountOne(TokenOp(1, None));
    CountOne(RecurseOp(Group(0)));
    CountOne(inner);
    var ops := [PopOp(1), inner];
    assert ops[1..] == [inner];
    assert OpCount(PopOp(1)) == Some(0) && OpsCount([inner]) == Some(1);
    assert OpsCount(ops) == Some(1);
    CountOne(IfOp(c, [TokenOp(0, None)], ops));
    OnceTableCovers(t);
  }

  lemma CountOne(op: IrOp)
    requires OpCount(op).Some?
    ensures OpsCount([op]) == OpCount(op)
  {
    hide OpCount;
    assert [op][0] == op && [op][1..] == [];
  }

  // ---- runs ----

  /** From `lx` to `lx'`, the emitted text is the text passed over. */
  predicate Passed(text: string, lx: Lx, lx': Lx) {
    lx.pos <= lx'.pos <= |text| && Text(lx'.toks) == Text(lx.toks) + text[lx.pos..lx'.pos]
  }

  lemma JoinSlices(text: string, i: nat, j: nat, k: nat)
    requires i <= j <= k <= |text|
    ensures text[i..j] + text[j..k] == text[i..k]
  {
  }

  lemma PassedThen(text: string, a: Lx, b: Lx, c: Lx)
    requires Passed(text, a, b) && Passed(text, b, c)
    ensures Passed(text, a, c)
  {
    hide Text;
    JoinSlices(text, a.pos, b.pos, c.pos);
    Regroup(Text(a.toks), text[a.pos..b.pos], text[b.pos..c.pos]);
  }

  lemma {:induction false} FireCovers(t: LexerTable, text: string, lx: Lx, state: nat, ri: nat)
    requires TableCovers(t) && Good(lx) && InText(lx, text)
    requires ri < |Rules(t, state)| && !Rules(t, state)[ri].kind.KMixin? && MatchAt(Rules(t, state)[ri], text, lx.pos).Some?
    requires var hit := Fire(t, text, lx, state, ri, MatchAt(Rules(t, state)[ri], text, lx.pos).value); hit.Ok? && hit.value.Advance?
    ensures Passed(text, lx, Fire(t, text, lx, state, ri, MatchAt(Rules(t, state)[ri], text, lx.pos).value).value.lx)
    decreases |text|, 4
  {
    hide RunBody, BodyText, MatchAt;
    var rule := Rules(t, state)[ri];
    assert Covers(t, rule) && BodyRuns(t, text, lx, rule);
    RunBodyText(t, text, lx, rule, MatchAt(rule, text, lx.pos).value);
  }

  lemma {:induction false} StepCovers(t: LexerTable, text: string, lx: Lx, state: nat, ri: nat, path: set<nat>)
    requires TableCovers(t) && Good(lx) && InText(lx, text)
    requires Step(t, text, lx, state, ri, path).Ok? && Step(t, text, lx, state, ri, path).value.Advance?
    ensures Passed(text, lx, Step(t, text, lx, state, ri, path).value.lx)
    decreases |text|, 5, Unvisited(t, path), 1 + |Rules(t, state)| - ri
  {
    hide Fire, BolOk, Good, TableCovers, Passed;
    var rule := Rules(t, state)[ri];
    if rule.kind.KMixin? {
      var hit := Enter(t, text, lx, rule.kind.state, path).value;
      if hit.Miss? {
        StepCovers(t, text, lx, state, ri + 1, path);
      } else {
        EnterCovers(t, text, lx, rule.kind.state, path);
      }
    } else if !BolOk(rule, text, lx.pos) || MatchAt(rule, text, lx.pos).None? {
      StepCovers(t, text, lx, state, ri + 1, path);
    } else {
      FireCovers(t, text, lx, state, ri);
    }
  }

  lemma {:induction false} EnterCovers(t: LexerTable, text: string, lx: Lx, state: nat, path: set<nat>)
    requires TableCovers(t) && Good(lx) && InText(lx, text)
    requires Enter(t, text, lx, state, path).Ok? && Enter(t, text, lx, state, path).value.Advance?
    ensures Passed(text, lx, Enter(t, text, lx, state, path).value.lx)
    decreases |text|, 5, Unvisited(t, path), 0
  {
    hide TableCovers, Good, Passed;
    UnvisitedShrinks(t, path, state);
    StepCovers(t, text, lx, state, 0, path + {state});
  }

  lemma GetchCovers(t: LexerTable, text: string, lx: Lx)
    requires lx.pos < |text| && Good(lx)
    ensures Passed(text, lx, ErrorGetch(t, text, lx)) && Good(ErrorGetch(t, text, lx))
  {
    EmitText(lx, t.errorTok, [text[lx.pos]]);
    assert text[lx.pos..lx.pos + 1] == [text[lx.pos]];
  }

  lemma {:induction false} RoundCovers(t: LexerTable, text: string, lx: Lx)
    requires TableCovers(t) && Good(lx) && lx.pos <= |text| && lx.nulls <= MAX_NULL_SCANS + 1
    requires OneRound(t, text, lx).Ok?
    ensures var r := OneRound(t, text, lx).value;
            && (r.Next? ==> Passed(text, lx, r.lx) && Good(r.lx))
            && (r.Paused? ==> Passed(text, lx, r.lx) && Good(r.lx))
    decreases |text|, 6
  {
    hide TableCovers;
    if lx.pos < |text| {
      GetchCovers(t, text, lx);
      GetchCovers(t, text, lx.(nulls := 0));
      if lx.nulls <= MAX_NULL_SCANS {
        var hit := Enter(t, text, lx, Last(lx.stack), {}).value;
        if hit.Advance? {
          EnterCovers(t, text, lx, Last(lx.stack), {});
        }
      }
    }
  }

  lemma {:induction false} RunCovers(t: LexerTable, text: string, lx: Lx)
    requires TableCovers(t) && Good(lx) && lx.pos <= |text| && lx.nulls <= MAX_NULL_SCANS + 1
    requires Run(t, text, lx).Ok?
    ensures Passed(text, lx, Run(t, text, lx).value.lx) && Good(Run(t, text, lx).value.lx)
    decreases |text|, 7, Measure(text, lx)
  {
    hide TableCovers, OneRound, Good;
    RoundCovers(t, text, lx);
    var round := OneRound(t, text, lx).value;
    if round.Next? {
      RunCovers(t, text, round.lx);
      PassedThen(text, lx, round.lx, Run(t, text, lx).value.lx);
    }
  }

  /** A native lex of a covering table loses nothing, nested `recurse` included. */
  lemma {:induction false} LexLossless(t: LexerTable, text: string)
    requires TableCovers(t) && LexNative(t, text).Ok?
    ensures Text(LexNative(t, text).value.toks) == text
    ensures Canonical(LexNative(t, text).value.toks)
    decreases |text|, 8
  {
    hide TableCovers, Run;
    RunCovers(t, text, Begin(t, map[]));
    var lx := LexNative(t, text).value;
    assert text[0..|text|] == text && Text([]) == [];
    EmitAllStep([], lx.raw);
  }

  // ---- with callbacks ----

  function CallbackText(ops: seq<CallbackOp>): string
    decreases |ops|
  {
    if ops == [] then []
    else (if ops[0].CbToken? then ops[0].value else []) + CallbackText(ops[1..])
  }

  /** A callback that always emits exactly its match. */
  ghost predicate CallbackCovers(cb: Callback) {
    forall pauses, state, rule, groups | GroupAt(groups, 0).Some? && cb(pauses, state, rule, groups).Ok? ::
      CallbackText(cb(pauses, state, rule, groups).value) == GroupAt(groups, 0).value
  }

  lemma ReplayOpText(t: LexerTable, lx: Lx, op: CallbackOp)
    requires Good(lx) && ReplayOp(t, lx, op).Ok?
    ensures Text(ReplayOp(t, lx, op).value.toks) == Text(lx.toks) + if op.CbToken? then op.value else []
  {
    hide StateId, EmitTo, Text;
    if op.CbToken? {
      EmitText(lx, t.tokenIds[op.qualname], op.value);
    }
  }

  lemma {:induction false} ReplayText(t: LexerTable, lx: Lx, ops: seq<CallbackOp>)
    requires Good(lx) && Replay(t, lx, ops).Ok?
    ensures Text(Replay(t, lx, ops).value.toks) == Text(lx.toks) + CallbackText(ops)
    decreases |ops|
  {
    hide ReplayOp, Text, Good;
    if ops == [] {
    } else {
      var lx1 := ReplayOp(t, lx, ops[0]).value;
      ReplayOpText(t, lx, ops[0]);
      ReplayText(t, lx1, ops[1..]);
      Regroup(Text(lx.toks), if ops[0].CbToken? then ops[0].value else [], CallbackText(ops[1..]));
    }
  }

  /** Where a pause stands: its first group is the text its pending match will consume. */
  predicate PauseShowsMatch(text: string, lx: Lx, groups: Groups) {
    && lx.pending.Some? && lx.pos + lx.pending.value <= |text|
    && GroupAt(groups, 0) == Some(text[lx.pos..lx.pos + lx.pending.value])
  }

  lemma {:induction false} StepPauses(t: LexerTable, text: string, lx: Lx, state: nat, ri: nat, path: set<nat>)
    requires InText(lx, text)
    requires Step(t, text, lx, state, ri, path).Ok? && Step(t, text, lx, state, ri, path).value.Pause?
    ensures var hit := Step(t, text, lx, state, ri, path).value; PauseShowsMatch(text, hit.lx, hit.groups)
    decreases Unvisited(t, path), 1 + |Rules(t, state)| - ri
  {
    hide BolOk, RunBody;
    var rule := Rules(t, state)[ri];
    if rule.kind.KMixin? {
      var other := rule.kind.state;
      var hit := Enter(t, text, lx, other, path).value;
      if hit.Miss? {
        StepPauses(t, text, lx, state, ri + 1, path);
      } else {
        UnvisitedShrinks(t, path, other);
        StepPauses(t, text, lx, other, 0, path + {other});
      }
    } else if !BolOk(rule, text, lx.pos) || MatchAt(rule, text, lx.pos).None? {
      StepPauses(t, text, lx, state, ri + 1, path);
    }
  }

  lemma {:induction false} RunPauses(t: LexerTable, text: string, lx: Lx)
    requires lx.pos <= |text| && lx.nulls <= MAX_NULL_SCANS + 1
    requires Run(t, text, lx).Ok? && Run(t, text, lx).value.NeedCallback?
    ensures var step := Run(t, text, lx).value; PauseShowsMatch(text, step.lx, step.groups)
    decreases Measure(text, lx)
  {
    hide OneRound, PauseShowsMatch;
    var round := OneRound(t, text, lx).value;
    if round.Next? {
      RunPauses(t, text, round.lx);
    } else {
      RoundPauses(t, text, lx);
    }
  }

  lemma RoundPauses(t: LexerTable, text: string, lx: Lx)
    requires lx.pos <= |text| && lx.nulls <= MAX_NULL_SCANS + 1
    requires OneRound(t, text, lx).Ok? && OneRound(t, text, lx).value.Paused?
    ensures var round := OneRound(t, text, lx).value; PauseShowsMatch(text, round.lx, round.groups)
  {
    hide Step, PauseShowsMatch, ErrorGetch, FindCallback;
    var top := Last(lx.stack);
    var hit := Enter(t, text, lx, top, {});
    assert hit.Ok? && hit.value.Pause?;
    assert hit == Step(t, text, lx, top, 0, {} + {top});
    StepPauses(t, text, lx, top, 0, {} + {top});
  }

  lemma ResumeCovers(t: LexerTable, text: string, lx: Lx, groups: Groups, ops: seq<CallbackOp>)
    requires Good(lx) && PauseShowsMatch(text, lx, groups) && ApplyCallbackOps(t, lx, ops).Ok?
    requires CallbackText(ops) == GroupAt(groups, 0).value
    ensures Passed(text, lx, ApplyCallbackOps(t, lx, ops).value)
  {
    hide Replay, Text;
    ReplayText(t, lx.(pending := None), ops);
  }

  lemma DoneCovers(text: string, lx: Lx, done: Lx)
    requires Good(done) && Passed(text, lx, done) && done.pos == |text|
    ensures Text(done.toks) == Text(lx.toks) + text[lx.pos..] && Canonical(done.toks)
  {
    EmitAllStep([], done.raw);
    EmptyCanonical();
    assert text[lx.pos..|text|] == text[lx.pos..];
  }

  lemma {:induction false} SessionCovers(t: LexerTable, text: string, cb: Callback, lx: Lx, pauses: nat)
    requires TableCovers(t) && CallbackCovers(cb) && Good(lx) && lx.pos <= |text| && lx.nulls <= MAX_NULL_SCANS + 1
    requires Session(t, text, cb, lx, pauses).Ok?
    ensures Text(Session(t, text, cb, lx, pauses).value) == Text(lx.toks) + text[lx.pos..] && Canonical(Session(t, text, cb, lx, pauses).value)
    decreases Measure(text, lx)
  {
    hide TableCovers, Run, Text, CallbackText, Replay, Canonical, Good, StateName;
    RunCovers(t, text, lx);
    var step := Run(t, text, lx).value;
    if step.Done? {
      DoneCovers(text, lx, step.lx);
    } else {
      var NeedCallback(lx1, state, rule, groups) := step;
      RunPauses(t, text, lx);
      var ops := cb(pauses, StateName(t, state), rule, groups).value;
      var lx2 := ApplyCallbackOps(t, lx1, ops).value;
      ResumeCovers(t, text, lx1, groups, ops);
      PassedThen(text, lx, lx1, lx2);
      SessionCovers(t, text, cb, lx2, pauses + 1);
      assert text[lx.pos..lx2.pos] + text[lx2.pos..] == text[lx.pos..];
    }
  }

  lemma EmptyCanonical()
    ensures Canonical([])
  {
  }

  /** With callbacks that emit their match, a lex of a covering table gives back its input, in canonical form. */
  lemma SessionLossless(t: LexerTable, text: string, cb: Callback)
    requires TableCovers(t) && CallbackCovers(cb)
    requires OneShot(t, text, cb, Begin(t, map[]), 0).Ok?
    ensures var toks := OneShot(t, text, cb, Begin(t, map[]), 0).value; Text(toks) == text && Canonical(toks)
  {
    hide TableCovers, CallbackCovers, Session, OneShot;
    SessionRefinesOneShot(t, text, cb, Begin(t, map[]), 0);
    SessionCovers(t, text, cb, Begin(t, map[]), 0);
    assert Text([]) == [] && text[0..] == text;
  }
}
