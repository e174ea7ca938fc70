/**
 The loader rejects a table in which some token id has no class name. On such tables every
 stream a lexer returns holds only ids that have one, so the formatter never looks up a name
 that is not there.
 */
module CarmineNames {
  import opened Common
  import opened CarmineTokens
  import opened CarmineIr
  import opened CarmineTable
  import opened CarmineEngine
  import opened CarmineSession

  // ---- what the loader checks ----

  predicate AllBelow(n: nat, ids: seq<TokenId>) {
    forall i | 0 <= i < |ids| :: ids[i] < n
  }

  predicate OpBelow(n: nat, op: IrOp)
    decreases op
  {
    match op
    case TokenOp(tok, _) => tok < n
    case GroupsOp(toks) => AllBelow(n, toks)
    case IfOp(_, thenOps, elseOps) => OpsBelow(n, thenOps) && OpsBelow(n, elseOps)
    case _ => true
  }

  predicate OpsBelow(n: nat, ops: seq<IrOp>)
    decreases ops
  {
    ops == [] || (OpBelow(n, ops[0]) && OpsBelow(n, ops[1..]))
  }

  predicate ActionBelow(n: nat, act: Action) {
    match act
    case ActGroups(toks) => AllBelow(n, toks)
    case ActToken(tok) => tok < n
    case _ => true
  }

  predicate KindBelow(n: nat, kind: Kind) {
    match kind
    case KTok(tok, _) => tok < n
    case KActions(acts) => forall i | 0 <= i < |acts| :: ActionBelow(n, acts[i])
    case KWordlist(sets, d) => d < n && forall i | 0 <= i < |sets| :: sets[i].0 < n
    case KIr(ops) => OpsBelow(n, ops)
    case _ => true
  }

  /** Every id the table can emit has a class name. */
  predicate Named(t: LexerTable) {
    var n := |t.shortnames|;
    && t.errorTok < n
    && (forall q | q in t.tokenIds :: t.tokenIds[q] < n)
    && (forall s | 0 <= s < |t.states| :: forall i | 0 <= i < |t.states[s]| :: KindBelow(n, t.states[s][i].kind))
  }

  // ---- what that means for a buffer ----

  predicate HasNames(t: LexerTable, toks: Tokens) {
    forall i | 0 <= i < |toks| :: toks[i].0 < |t.shortnames|
  }

  lemma EmitNamed(t: LexerTable, toks: Tokens, tok: TokenId, val: string)
    requires HasNames(t, toks) && tok < |t.shortnames|
    ensures HasNames(t, Emit(toks, tok, val))
  {
  }

  lemma {:induction false} EmitAllNamed(t: LexerTable, toks: Tokens, more: Tokens)
    requires HasNames(t, toks) && HasNames(t, more)
    ensures HasNames(t, EmitAll(toks, more))
    decreases |more|
  {
    if more == [] {
    } else {
      EmitNamed(t, toks, more[0].0, more[0].1);
      EmitAllNamed(t, Emit(toks, more[0].0, more[0].1), more[1..]);
    }
  }

  lemma {:induction false} ClassifyBelow(n: nat, sets: seq<(TokenId, set<string>)>, d: TokenId, word: string)
    requires d < n && forall i | 0 <= i < |sets| :: sets[i].0 < n
    ensures Classify(sets, d, word) < n
    decreases |sets|
  {
    if sets == [] {
    } else {
      ClassifyBelow(n, sets[1..], d, word);
    }
  }

  lemma {:induction false} ApplyNextKeeps(lx: Lx, next: seq<NextState>)
    requires ApplyNext(lx, next).Ok?
    ensures ApplyNext(lx, next).value.toks == lx.toks
    decreases |next|
  {
    hide Good, Parked;
    if next == [] {
    } else {
      match next[0]
      case NextPop => ApplyNextKeeps(PopStates(lx, 1).value, next[1..]);
      case NextPushSelf => ApplyNextKeeps(PushTop(lx).value, next[1..]);
      case NextPush(s) => ApplyNextKeeps(lx.(stack := lx.stack + [s]), next[1..]);
    }
  }

  lemma {:induction false} EmitGroupsNamed(t: LexerTable, lx: Lx, toks: seq<TokenId>, groups: Groups, first: nat)
    requires HasNames(t, lx.toks) && AllBelow(|t.shortnames|, toks)
    ensures HasNames(t, EmitGroups(lx, toks, groups, first).toks)
    decreases |toks|
  {
    hide HasNames, Good, Parked, Emit;
    if toks == [] {
    } else {
      match GroupAt(groups, first)
      case Some(v) =>
        EmitNamed(t, lx.toks, toks[0], v);
        EmitGroupsNamed(t, EmitTo(lx, toks[0], v), toks[1..], groups, first + 1);
      case None => EmitGroupsNamed(t, lx, toks[1..], groups, first + 1);
    }
  }

  // ---- rule bodies ----

  lemma RunActionNamed(t: LexerTable, lx: Lx, act: Action, groups: Groups, whole: string)
    requires HasNames(t, lx.toks) && ActionBelow(|t.shortnames|, act) && RunAction(lx, act, groups, whole).Ok?
    ensures HasNames(t, RunAction(lx, act, groups, whole).value.toks)
  {
    hide HasNames, Good, Parked, Emit, EmitGroups;
    match act
    case ActGroups(toks) => EmitGroupsNamed(t, lx, toks, groups, 1);
    case ActToken(tok) => EmitNamed(t, lx.toks, tok, whole);
    case _ =>
  }

  lemma {:induction false} RunActionsNamed(t: LexerTable, lx: Lx, acts: seq<Action>, groups: Groups, whole: string)
    requires HasNames(t, lx.toks) && RunActions(lx, acts, groups, whole).Ok?
    requires forall i | 0 <= i < |acts| :: ActionBelow(|t.shortnames|, acts[i])
    ensures HasNames(t, RunActions(lx, acts, groups, whole).value.toks)
    decreases |acts|
  {
    hide HasNames, Good, Parked, RunAction, ActionBelow;
    if acts == [] {
    } else {
      RunActionNamed(t, lx, acts[0], groups, whole);
      RunActionsNamed(t, RunAction(lx, acts[0], groups, whole).value, acts[1..], groups, whole);
    }
  }

  lemma RunSimpleNamed(t: LexerTable, op: IrOp, groups: Groups, lx: Lx)
    requires HasNames(t, lx.toks) && OpBelow(|t.shortnames|, op)
    requires !op.IfOp? && !op.RecurseOp? && RunSimple(op, groups, lx).Ok?
    ensures HasNames(t, RunSimple(op, groups, lx).value.toks)
  {
    hide HasNames, Good, Parked, Emit, EmitGroups, EvalExpr, EvalExprs, PushTuple, ToIvar, ToIvars;
    match op
    case TokenOp(tok, e) =>
      forall v: string ensures HasNames(t, Emit(lx.toks, tok, v)) {
        EmitNamed(t, lx.toks, tok, v);
      }
    case GroupsOp(toks) => EmitGroupsNamed(t, lx, toks, groups, 1);
    case _ =>
  }

  lemma {:induction false} RecurseNamed(t: LexerTable, v: EvalVal, lx: Lx, limit: nat)
    requires Named(t) && HasNames(t, lx.toks) && Recurse(t, v, lx, limit).Ok?
    ensures HasNames(t, Recurse(t, v, lx, limit).value.toks)
    decreases limit, 1
  {
    hide Named, HasNames, Good, LexNative, EmitAll;
    if v.EStr? && v.s != [] {
      LexNamed(t, v.s);
      EmitAllNamed(t, lx.toks, LexNative(t, v.s).value.toks);
    }
  }

  lemma {:induction false} RunOpNamed(t: LexerTable, op: IrOp, groups: Groups, lx: Lx, limit: nat)
    requires Named(t) && HasNames(t, lx.toks) && OpBelow(|t.shortnames|, op) && RunOp(t, op, groups, lx, limit).Ok?
    ensures HasNames(t, RunOp(t, op, groups, lx, limit).value.toks)
    decreases limit, 2, op
  {
    hide Named, HasNames, Good, Parked, RunSimple, EvalCond, Recurse;
    match op
    case IfOp(cond, thenOps, elseOps) =>
      if EvalCond(cond, groups, lx.ivars, Last(lx.stack), |lx.stack|) {
        RunIrNamed(t, thenOps, groups, lx, limit);
      } else {
        RunIrNamed(t, elseOps, groups, lx, limit);
      }
    case RecurseOp(e) => RecurseNamed(t, EvalExpr(e, groups), lx, limit);
    case _ => RunSimpleNamed(t, op, groups, lx);
  }

  lemma {:induction false} RunIrNamed(t: LexerTable, ops: seq<IrOp>, groups: Groups, lx: Lx, limit: nat)
    requires Named(t) && HasNames(t, lx.toks) && OpsBelow(|t.shortnames|, ops) && RunIr(t, ops, groups, lx, limit).Ok?
    ensures HasNames(t, RunIr(t, ops, groups, lx, limit).value.toks)
    decreases limit, 2, ops
  {
    hide Named, HasNames, Good, Parked, RunOp, OpBelow;
    if ops == [] {
    } else {
      RunOpNamed(t, ops[0], groups, lx, limit);
      RunIrNamed(t, ops[1..], groups, RunOp(t, ops[0], groups, lx, limit).value, limit);
    }
  }

  lemma {:induction false} RunBodyNamed(t: LexerTable, text: string, lx: Lx, rule: Rule, spans: Spans)
    requires Named(t) && HasNames(t, lx.toks) && KindBelow(|t.shortnames|, rule.kind)
    requires SpansOk(spans, text, lx.pos) && !rule.kind.KMixin? && !rule.kind.KCallback?
    requires RunBody(t, text, lx, rule, spans).Ok?
    ensures HasNames(t, RunBody(t, text, lx, rule, spans).value.toks)
    decreases |text|, 3
  {
    hide Named, HasNames, Good, Parked, RunIr, RunActions, ApplyNext, Emit, ActionBelow, OpsBelow;
    var whole := text[lx.pos..spans[0].value.1];
    match rule.kind
    case KTok(tok, next) =>
      EmitNamed(t, lx.toks, tok, whole);
      ApplyNextKeeps(EmitTo(lx, tok, whole), next);
    case KWordlist(sets, d) =>
      ClassifyBelow(|t.shortnames|, sets, d, whole);
      EmitNamed(t, lx.toks, Classify(sets, d, whole), whole);
    case KActions(acts) => RunActionsNamed(t, lx, acts, GroupsOf(text, spans), whole);
    case KIr(ops) => RunIrNamed(t, ops, GroupsOf(text, spans), lx, |text|);
  }

  // ---- runs ----

  lemma RuleBelow(t: LexerTable, state: nat, ri: nat)
    requires Named(t) && ri < |Rules(t, state)|
    ensures KindBelow(|t.shortnames|, Rules(t, state)[ri].kind)
  {
    assert state < |t.states| && Rules(t, state)[ri] == t.states[state][ri];
  }

  lemma {:induction false} FireNamed(t: LexerTable, text: string, lx: Lx, state: nat, ri: nat, spans: Spans)
    requires Named(t) && HasNames(t, lx.toks) && InText(lx, text)
    requires ri < |Rules(t, state)| && SpansOk(spans, text, lx.pos) && !Rules(t, state)[ri].kind.KMixin?
    requires Fire(t, text, lx, state, ri, spans).Ok? && Fire(t, text, lx, state, ri, spans).value.Advance?
    ensures HasNames(t, Fire(t, text, lx, state, ri, spans).value.lx.toks)
    decreases |text|, 4
  {
    hide Named, HasNames, Good, RunBody, KindBelow;
    RuleBelow(t, state, ri);
    RunBodyNamed(t, text, lx, Rules(t, state)[ri], spans);
  }

  lemma {:induction false} StepNamed(t: LexerTable, text: string, lx: Lx, state: nat, ri: nat, path: set<nat>)
    requires Named(t) && HasNames(t, lx.toks) && InText(lx, text)
    requires Step(t, text, lx, state, ri, path).Ok? && Step(t, text, lx, state, ri, path).value.Advance?
    ensures HasNames(t, Step(t, text, lx, state, ri, path).value.lx.toks)
    decreases |text|, 5, Unvisited(t, path), 1 + |Rules(t, state)| - ri
  {
    hide Named, HasNames, Good, Fire, BolOk;
    var rule := Rules(t, state)[ri];
    if rule.kind.KMixin? {
      var hit := Enter(t, text, lx, rule.kind.state, path).value;
      if hit.Miss? {
        StepNamed(t, text, lx, state, ri + 1, path);
      } else {
        EnterNamed(t, text, lx, rule.kind.state, path);
      }
    } else if !BolOk(rule, text, lx.pos) || MatchAt(rule, text, lx.pos).None? {
      StepNamed(t, text, lx, state, ri + 1, path);
    } else {
      FireNamed(t, text, lx, state, ri, MatchAt(rule, text, lx.pos).value);
    }
  }

  lemma {:induction false} EnterNamed(t: LexerTable, text: string, lx: Lx, state: nat, path: set<nat>)
    requires Named(t) && HasNames(t, lx.toks) && InText(lx, text)
    requires Enter(t, text, lx, state, path).Ok? && Enter(t, text, lx, state, path).value.Advance?
    ensures HasNames(t, Enter(t, text, lx, state, path).value.lx.toks)
    decreases |text|, 5, Unvisited(t, path), 0
  {
    hide Named, HasNames, Good;
    UnvisitedShrinks(t, path, state);
    StepNamed(t, text, lx, state, 0, path + {state});
  }

  lemma GetchNamed(t: LexerTable, text: string, lx: Lx)
    requires Named(t) && HasNames(t, lx.toks) && lx.pos < |text|
    ensures HasNames(t, ErrorGetch(t, text, lx).toks)
  {
    hide HasNames, Emit;
    EmitNamed(t, lx.toks, t.errorTok, [text[lx.pos]]);
  }

  lemma {:induction false} RoundNamed(t: LexerTable, text: string, lx: Lx)
    requires Named(t) && HasNames(t, lx.toks) && lx.pos <= |text| && lx.nulls <= MAX_NULL_SCANS + 1
    requires OneRound(t, text, lx).Ok? && !OneRound(t, text, lx).value.Finished?
    ensures HasNames(t, OneRound(t, text, lx).value.lx.toks)
    decreases |text|, 6
  {
    hide Named, HasNames, Good, ErrorGetch, FindCallback, Enter;
    GetchNamed(t, text, lx);
    GetchNamed(t, text, lx.(nulls := 0));
    if lx.nulls <= MAX_NULL_SCANS {
      var hit := Enter(t, text, lx, Last(lx.stack), {}).value;
      if hit.Advance? {
        EnterNamed(t, text, lx, Last(lx.stack), {});
      }
    }
  }

  lemma {:induction false} RunNamed(t: LexerTable, text: string, lx: Lx)
    requires Named(t) && HasNames(t, lx.toks) && lx.pos <= |text| && lx.nulls <= MAX_NULL_SCANS + 1
    requires Run(t, text, lx).Ok?
    ensures HasNames(t, Run(t, text, lx).value.lx.toks)
    decreases |text|, 7, Measure(text, lx)
  {
    hide Named, HasNames, Good, OneRound;
    var round := OneRound(t, text, lx).value;
    if !round.Finished? {
      RoundNamed(t, text, lx);
    }
    if round.Next? {
      RunNamed(t, text, round.lx);
    }
  }

  lemma {:induction false} LexNamed(t: LexerTable, text: string)
    requires Named(t) && LexNative(t, text).Ok?
    ensures HasNames(t, LexNative(t, text).value.toks)
    decreases |text|, 8
  {
    hide Named, Good, Run;
    RunNamed(t, text, Begin(t, map[]));
  }

  // ---- with callbacks ----

  lemma PerformOpNamed(t: LexerTable, lx: Lx, op: CallbackOp)
    requires Named(t) && HasNames(t, lx.toks) && PerformOp(t, lx, op).Ok?
    ensures HasNames(t, PerformOp(t, lx, op).value.toks)
  {
    hide HasNames, Good, Parked, Emit, StateId;
    if op.CbToken? {
      EmitNamed(t, lx.toks, t.tokenIds[op.qualname], op.value);
    }
  }

  lemma {:induction false} PerformNamed(t: LexerTable, lx: Lx, ops: seq<CallbackOp>)
    requires Named(t) && HasNames(t, lx.toks) && Perform(t, lx, ops).Ok?
    ensures HasNames(t, Perform(t, lx, ops).value.toks)
    decreases |ops|
  {
    hide Named, HasNames, Good, Parked, PerformOp;
    if ops == [] {
    } else {
      PerformOpNamed(t, lx, ops[0]);
      PerformNamed(t, PerformOp(t, lx, ops[0]).value, ops[1..]);
    }
  }

  /** Every stream of a table the loader accepts has names for all its ids, whatever the callbacks do. */
  lemma {:induction false} StreamNamed(t: LexerTable, text: string, cb: Callback, lx: Lx, pauses: nat)
    requires Named(t) && HasNames(t, lx.toks) && lx.pos <= |text| && lx.nulls <= MAX_NULL_SCANS + 1
    ensures OneShot(t, text, cb, lx, pauses).Ok? ==> HasNames(t, OneShot(t, text, cb, lx, pauses).value)
    decreases Measure(text, lx)
  {
    hide Named, HasNames, Good, Run, Perform, StateName;
    var step := Run(t, text, lx);
    if step.Ok? {
      RunNamed(t, text, lx);
      if step.value.NeedCallback? {
        var lx1 := step.value.lx;
        var ops := cb(pauses, StateName(t, step.value.state), step.value.rule, step.value.groups);
        if ops.Ok? && Perform(t, lx1, ops.value).Ok? {
          var lx2 := Perform(t, lx1, ops.value).value;
          PerformNamed(t, lx1, ops.value);
          if ApplyCallbackOps(t, lx2, []).Ok? {
            StreamNamed(t, text, cb, ApplyCallbackOps(t, lx2, []).value, pauses + 1);
          }
        }
      }
    }
  }
}
