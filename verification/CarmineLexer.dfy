/**
 The lexer as the object it is in the source: a stack, a position, a null-scan counter, a
 pending match and a merging token buffer, updated in place. Every method computes the
 function of the same step in CarmineEngine or CarmineSession.
 */
module CarmineLexer {
  import opened Common
  import opened CarmineTokens
  import opened CarmineIr
  import opened CarmineTable
  import opened CarmineEngine
  import opened CarmineSession

  /** What `step` reports; the position itself is moved by the caller. */
  datatype StepHit =
    | NoHit
    | AdvanceTo(pos: nat)
    | CallbackHit(state: nat, rule: nat, groups: Groups)

  /** What `run` stopped at. */
  datatype Stop =
    | EndOfInput
    | AtCallback(state: string, rule: nat, groups: Groups)

  /** A method that may fail meets its specification: the same error, or success in the specified state. */
  ghost predicate Meets(spec: Res<Lx>, r: Res<()>, after: Lx) {
    match spec
    case Ok(lx) => r.Ok? && after == lx
    case Err(e) => r == Err(e)
  }

  ghost predicate MeetsHit(spec: Res<Hit>, r: Res<StepHit>, before: Lx, after: Lx) {
    match spec
    case Err(e) => r == Err(e)
    case Ok(Miss) => r == Ok(NoHit) && after == before
    case Ok(Advance(lx)) => r == Ok(AdvanceTo(lx.pos)) && after == lx.(pos := before.pos)
    case Ok(Pause(lx, s, ri, g)) => r == Ok(CallbackHit(s, ri, g)) && after == lx
  }

  ghost predicate MeetsRun(t: LexerTable, spec: Res<RunStep>, r: Res<Stop>, after: Lx) {
    match spec
    case Err(e) => r == Err(e)
    case Ok(Done(lx)) => r == Ok(EndOfInput) && after == lx
    case Ok(NeedCallback(lx, s, ri, g)) => r == Ok(AtCallback(StateName(t, s), ri, g)) && after == lx
  }

  ghost predicate MeetsRound(t: LexerTable, spec: Res<Round>, r: Res<Option<Stop>>, before: Lx, after: Lx) {
    match spec
    case Err(e) => r == Err(e)
    case Ok(Next(lx)) => r == Ok(None) && after == lx
    case Ok(Paused(lx, s, ri, g)) => r == Ok(Some(AtCallback(StateName(t, s), ri, g))) && after == lx
    case Ok(Finished) => r == Ok(Some(EndOfInput)) && after == before
  }

  class Lexer {
    const table: LexerTable
    var stack: seq<nat>
    var ivars: Ivars
    var pos: nat
    var nullSteps: nat
    var pending: Option<nat>
    var toks: Tokens
    ghost var raw: Tokens

    ghost function State(): Lx
      reads this
    {
      Lx(stack, ivars, pos, nullSteps, pending, toks, raw)
    }

    constructor (t: LexerTable)
      ensures table == t && State() == Lx([], map[], 0, 0, None, [], [])
    {
      table := t;
      stack, ivars, pos, nullSteps, pending, toks, raw := [], map[], 0, 0, None, [], [];
    }

    method Begin()
      modifies this
      ensures State() == CarmineEngine.Begin(table, old(ivars))
    {
      stack := [table.root];
      for i := 0 to |table.startPush|
        invariant stack == [table.root] + table.startPush[..i] && ivars == old(ivars)
      {
        stack := stack + [table.startPush[i]];
      }
      pos, nullSteps, pending, toks, raw := 0, 0, None, [], [];
    }

    method Emit(tok: TokenId, val: string)
      modifies `toks, `raw
      ensures State() == EmitTo(old(State()), tok, val)
    {
      raw := raw + [(tok, val)];
      if val == [] {
        return;
      }
      if toks != [] && Last(toks).0 == tok {
        toks := Front(toks) + [(tok, Last(toks).1 + val)];
        assert toks == old(toks)[|old(toks)| - 1 := (tok, Last(old(toks)).1 + val)];
        return;
      }
      toks := toks + [(tok, val)];
    }

    // ---- the state stack ----

    method PushSelf() returns (r: Res<()>)
      modifies `stack
      ensures Meets(PushTop(old(State())), r, State())
    {
      if stack == [] {
        return Err(EmptyStack);
      }
      stack := stack + [Last(stack)];
      r := Ok(());
    }

    method Pop(n: nat) returns (r: Res<()>)
      modifies `stack
      ensures Meets(PopStates(old(State()), n), r, State())
    {
      for i := 0 to n
        invariant i <= |old(stack)| && stack == old(stack)[..|old(stack)| - i]
      {
        if stack == [] {
          return Err(EmptyStack);
        }
        stack := Front(stack);
      }
      r := Ok(());
    }

    method ReplaceTop(state: nat) returns (r: Res<()>)
      modifies `stack
      ensures Meets(Goto(old(State()), state), r, State())
    {
      if stack == [] {
        return Err(EmptyStack);
      }
      stack := stack[|stack| - 1 := state];
      assert stack == Front(old(stack)) + [state];
      r := Ok(());
    }

    method ApplyNext(next: seq<NextState>) returns (r: Res<()>)
      modifies `stack
      ensures Meets(CarmineEngine.ApplyNext(old(State()), next), r, State())
    {
      for i := 0 to |next|
        invariant CarmineEngine.ApplyNext(old(State()), next) == CarmineEngine.ApplyNext(State(), next[i..])
      {
        match next[i]
        case NextPop =>
          r := Pop(1);
          if r.Err? { return; }
        case NextPushSelf =>
          r := PushSelf();
          if r.Err? { return; }
        case NextPush(s) =>
          stack := stack + [s];
      }
      r := Ok(());
    }

    // ---- rule bodies ----

    method EmitGroups(ids: seq<TokenId>, groups: Groups)
      modifies `toks, `raw
      ensures State() == CarmineEngine.EmitGroups(old(State()), ids, groups, 1)
    {
      for i := 0 to |ids|
        invariant CarmineEngine.EmitGroups(old(State()), ids, groups, 1)
               == CarmineEngine.EmitGroups(State(), ids[i..], groups, 1 + i)
      {
        if i + 1 < |groups| && groups[i + 1].Some? {
          Emit(ids[i], groups[i + 1].value);
        }
      }
    }

    method RunAction(act: Action, groups: Groups, whole: string) returns (r: Res<()>)
      modifies this
      ensures Meets(CarmineEngine.RunAction(old(State()), act, groups, whole), r, State())
    {
      r := Ok(());
      match act
      case ActGroups(ids) => EmitGroups(ids, groups);
      case ActToken(t) => Emit(t, whole);
      case ActPush(s) => stack := stack + [s];
      case ActPushSelf => r := PushSelf();
      case ActPop(n) => r := Pop(n);
      case ActGoto(s) => r := ReplaceTop(s);
    }

    method RunActions(acts: seq<Action>, groups: Groups, whole: string) returns (r: Res<()>)
      modifies this
      ensures Meets(CarmineEngine.RunActions(old(State()), acts, groups, whole), r, State())
    {
      hide CarmineEngine.RunAction;
      for i := 0 to |acts|
        invariant CarmineEngine.RunActions(old(State()), acts, groups, whole)
               == CarmineEngine.RunActions(State(), acts[i..], groups, whole)
      {
        r := RunAction(acts[i], groups, whole);
        if r.Err? { return; }
      }
      r := Ok(());
    }

    method LookUp(sets: seq<(TokenId, set<string>)>, defaultTok: TokenId, word: string) returns (tok: TokenId)
      ensures tok == Classify(sets, defaultTok, word)
    {
      for i := 0 to |sets|
        invariant Classify(sets, defaultTok, word) == Classify(sets[i..], defaultTok, word)
      {
        if word in sets[i].1 {
          return sets[i].0;
        }
      }
      tok := defaultTok;
    }

    /** An ivar that was never set starts as an empty list. */
    method PushIvar(name: string, tuple: seq<IvarVal>)
      modifies `ivars
      ensures ivars == PushTuple(old(ivars), name, tuple)
    {
      if name !in ivars {
        ivars := ivars[name := ListVal([])];
      }
      if ivars[name].ListVal? {
        ivars := ivars[name := ListVal(ivars[name].items + [tuple])];
        assert [] + [tuple] == [tuple];
      } else {
        ivars := ivars[name := ListVal([tuple])];
      }
      assert ivars == PushTuple(old(ivars), name, tuple);
    }

    method RunSimple(op: IrOp, groups: Groups) returns (r: Res<()>)
      requires !op.IfOp? && !op.RecurseOp?
      modifies this
      ensures Meets(CarmineEngine.RunSimple(op, groups, old(State())), r, State())
    {
      hide EvalExpr, EvalExprs, EmitTo;
      r := Ok(());
      match op
      case TokenOp(tok, None) =>
        if |groups| > 0 && groups[0].Some? {
          Emit(tok, groups[0].value);
        }
      case TokenOp(tok, Some(e)) =>
        var v := EvalExpr(e, groups);
        if v.EStr? {
          Emit(tok, v.s);
        }
      case GroupsOp(ids) => EmitGroups(ids, groups);
      case PushOp(Some(s)) => stack := stack + [s];
      case PushOp(None) => r := PushSelf();
      case PopOp(n) => r := Pop(n);
      case GotoOp(s) => r := ReplaceTop(s);
      case IvarSet(name, e) => ivars := ivars[name := ToIvar(EvalExpr(e, groups))];
      case ListPush(name, es) =>
        PushIvar(name, ToIvars(EvalExprs(es, groups)));
    }

    /** A fresh lexer on the same table runs over the operand; its tokens are emitted one by one. */
    method Recurse(v: EvalVal, limit: nat) returns (r: Res<()>)
      modifies this
      ensures Meets(CarmineEngine.Recurse(table, v, old(State()), limit), r, State())
      decreases limit, 1
    {
      hide LexNative, OneShot;
      if !v.EStr? || v.s == [] {
        return Ok(());
      }
      if |v.s| >= limit {
        return Err(RecurseTooLong);
      }
      var sub := new Lexer(table);
      var lexed := sub.Lex(v.s, DeclineAll());
      DeclineAllIsNative(table, v.s);
      if lexed.Err? {
        return Err(lexed.error);
      }
      var subToks := lexed.value;
      ghost var mine := State();
      for i := 0 to |subToks|
        invariant State() == mine.(toks := toks, raw := raw)
        invariant EmitAll(mine.toks, subToks) == EmitAll(toks, subToks[i..])
      {
        Emit(subToks[i].0, subToks[i].1);
      }
      raw := mine.raw + LexNative(table, v.s).value.raw;
      r := Ok(());
    }

    method RunOp(op: IrOp, groups: Groups, limit: nat) returns (r: Res<()>)
      modifies this
      ensures Meets(CarmineEngine.RunOp(table, op, groups, old(State()), limit), r, State())
      decreases limit, 2, op
    {
      hide CarmineEngine.RunSimple, CarmineEngine.Recurse, EvalExpr, EvalCond;
      match op
      case IfOp(cond, thenOps, elseOps) =>
        if stack == [] {
          return Err(EmptyStack);
        }
        if EvalCond(cond, groups, ivars, Last(stack), |stack|) {
          r := RunIrOps(thenOps, groups, limit);
        } else {
          r := RunIrOps(elseOps, groups, limit);
        }
      case RecurseOp(e) => r := Recurse(EvalExpr(e, groups), limit);
      case _ => r := RunSimple(op, groups);
    }

    method RunIrOps(ops: seq<IrOp>, groups: Groups, limit: nat) returns (r: Res<()>)
      modifies this
      ensures Meets(RunIr(table, ops, groups, old(State()), limit), r, State())
      decreases limit, 2, ops
    {
      hide CarmineEngine.RunOp;
      for i := 0 to |ops|
        invariant RunIr(table, ops, groups, old(State()), limit) == RunIr(table, ops[i..], groups, State(), limit)
      {
        r := RunOp(ops[i], groups, limit);
        if r.Err? { return; }
      }
      r := Ok(());
    }

    // ---- firing a rule and finding it ----

    method RunBody(text: string, rule: Rule, spans: Spans) returns (r: Res<()>)
      requires SpansOk(spans, text, pos) && !rule.kind.KMixin? && !rule.kind.KCallback?
      modifies this
      ensures Meets(CarmineEngine.RunBody(table, text, old(State()), rule, spans), r, State())
      decreases |text|, 3
    {
      hide EmitTo, RunIr, CarmineEngine.RunActions, Classify, CarmineEngine.ApplyNext, GroupsOf;
      var whole := text[pos..spans[0].value.1];
      match rule.kind
      case KTok(tok, next) =>
        Emit(tok, whole);
        r := ApplyNext(next);
      case KWordlist(sets, d) =>
        var tok := LookUp(sets, d, whole);
        Emit(tok, whole);
        r := Ok(());
      case KActions(acts) => r := RunActions(acts, GroupsOf(text, spans), whole);
      case KIr(ops) => r := RunIrOps(ops, GroupsOf(text, spans), |text|);
    }

    method BumpNullGuard(size: nat, at: nat) returns (np: nat)
      modifies `nullSteps
      ensures np == at + size && nullSteps == if size == 0 then old(nullSteps) + 1 else 0
    {
      if size == 0 {
        nullSteps := nullSteps + 1;
      } else {
        nullSteps := 0;
      }
      np := at + size;
    }

    method Fire(text: string, state: nat, ri: nat, spans: Spans) returns (r: Res<StepHit>)
      requires InText(State(), text)
      requires ri < |Rules(table, state)| && SpansOk(spans, text, pos) && !Rules(table, state)[ri].kind.KMixin?
      modifies this
      ensures MeetsHit(CarmineEngine.Fire(table, text, old(State()), state, ri, spans), r, old(State()), State())
      decreases |text|, 4
    {
      hide CarmineEngine.RunBody, GroupsOf;
      var size := spans[0].value.1 - pos;
      var rule := Rules(table, state)[ri];
      if rule.kind.KCallback? {
        pending := Some(size);
        return Ok(CallbackHit(state, ri, GroupsOf(text, spans)));
      }
      var ran := RunBody(text, rule, spans);
      if ran.Err? {
        return Err(ran.error);
      }
      var np := BumpNullGuard(size, pos);
      r := Ok(AdvanceTo(np));
    }

    /** `step`: the rules of a state in order, mixins searched in place. */
    method Step(text: string, state: nat, path: set<nat>) returns (r: Res<StepHit>)
      requires InText(State(), text)
      modifies this
      ensures MeetsHit(Enter(table, text, old(State()), state, path), r, old(State()), State())
      decreases |text|, 5, Unvisited(table, path)
    {
      hide CarmineEngine.Fire, BolOk, MatchAt, InText, SpansOk;
      if state >= |table.states| {
        return Err(Undeclared);
      }
      if state in path {
        return Err(MixinCycle);
      }
      UnvisitedShrinks(table, path, state);
      var here := path + {state};
      for ri := 0 to |table.states[state]|
        invariant State() == old(State())
        invariant CarmineEngine.Step(table, text, State(), state, 0, here)
               == CarmineEngine.Step(table, text, State(), state, ri, here)
      {
        var rule := table.states[state][ri];
        if rule.kind.KMixin? {
          r := Step(text, rule.kind.state, here);
          if r.Err? || !r.value.NoHit? { return; }
          continue;
        }
        if !BolOk(rule, text, pos) {
          continue;
        }
        var m := MatchAt(rule, text, pos);
        if m.None? {
          continue;
        }
        r := Fire(text, state, ri, m.value);
        return;
      }
      r := Ok(NoHit);
    }

    // ---- the driver loop ----

    method ErrorGetch(text: string)
      requires pos < |text|
      modifies this
      ensures State() == CarmineEngine.ErrorGetch(table, text, old(State()))
    {
      Emit(table.errorTok, [text[pos]]);
      pos := pos + 1;
    }

    /** `find_callback_rule`; `seen` collects the states visited. */
    method FindCallbackRule(state: nat, seen0: seq<nat>) returns (hit: Option<(nat, nat)>, seen: seq<nat>)
      ensures (hit, seen) == FindCallback(table, state, seen0)
      decreases |StatesOf(|table.states|) - Members(seen0)|
    {
      hide Members;
      if state in seen0 || state >= |table.states| {
        return None, seen0;
      }
      seen := seen0 + [state];
      SeenGrows(table, seen0, [state], state);
      for ri := 0 to |table.states[state]|
        invariant |StatesOf(|table.states|) - Members(seen)| < |StatesOf(|table.states|) - Members(seen0)|
        invariant FindCallback(table, state, seen0) == FindCallbackIn(table, state, ri, seen)
      {
        match table.states[state][ri].kind
        case KCallback => return Some((state, ri)), seen;
        case KMixin(other) =>
          ghost var before := seen;
          hit, seen := FindCallbackRule(other, seen);
          if hit.Some? { return; }
          SeenKeeps(table, before, seen);
        case _ =>
      }
      hit := None;
    }

    /** No rule of `top` matched: decline if a callback could have, else one character goes out as an error. */
    method Fallback(text: string, top: nat) returns (r: Res<()>)
      requires pos < |text|
      modifies this
      ensures Meets(match FindCallback(table, top, []).0
                    case Some((s, ri)) => Err(CallbackRequired(StateName(table, s), ri))
                    case None => Ok(CarmineEngine.ErrorGetch(table, text, old(State()))), r, State())
    {
      var found, _ := FindCallbackRule(top, []);
      if found.Some? {
        return Err(CallbackRequired(StateName(table, found.value.0), found.value.1));
      }
      ErrorGetch(text);
      r := Ok(());
    }

    /** One turn of the loop in `run`; the result says where to stop, if at all. */
    method Turn(text: string) returns (r: Res<Option<Stop>>)
      requires pos < |text| && nullSteps <= MAX_NULL_SCANS + 1
      modifies this
      ensures MeetsRound(table, OneRound(table, text, old(State())), r, old(State()), State())
      decreases |text|, 6
    {
      hide Enter, FindCallback, CarmineEngine.ErrorGetch, Good, StateName;
      if nullSteps > MAX_NULL_SCANS {
        nullSteps := 0;
        ErrorGetch(text);
        return Ok(None);
      }
      if stack == [] {
        return Err(EmptyStack);
      }
      var top := Last(stack);
      var hit := Step(text, top, {});
      if hit.Err? {
        return Err(hit.error);
      }
      match hit.value
      case AdvanceTo(np) =>
        pos := np;
        r := Ok(None);
      case CallbackHit(s, ri, groups) => r := Ok(Some(AtCallback(StateName(table, s), ri, groups)));
      case NoHit =>
        var moved := Fallback(text, top);
        if moved.Err? {
          return Err(moved.error);
        }
        r := Ok(None);
    }

    method Run(text: string) returns (r: Res<Stop>)
      requires pos <= |text| && nullSteps <= MAX_NULL_SCANS + 1
      modifies this
      ensures MeetsRun(table, CarmineEngine.Run(table, text, old(State())), r, State())
      decreases |text|, 7
    {
      hide Good, StateName;
      if pending.Some? {
        return Err(TableError("run() called with a pending callback"));
      }
      while pos < |text|
        invariant pos <= |text| && nullSteps <= MAX_NULL_SCANS + 1 && pending.None?
        invariant CarmineEngine.Run(table, text, old(State())) == CarmineEngine.Run(table, text, State())
        decreases Measure(text, State())
      {
        hide OneRound;
        var turned := Turn(text);
        if turned.Err? {
          return Err(turned.error);
        }
        if turned.value.Some? {
          return Ok(turned.value.value);
        }
      }
      r := Ok(EndOfInput);
    }

    // ---- callbacks ----

    /** One operation of a callback that works on the paused lexer. */
    method EngineOp(op: CallbackOp) returns (r: Res<()>)
      modifies this
      ensures Meets(PerformOp(table, old(State()), op), r, State())
    {
      hide EmitTo, StateId;
      r := Ok(());
      match op
      case CbToken(q, v) =>
        var id := TokenIdOf(table, q);
        if id.None? { return Err(TableError("unknown token")); }
        Emit(id.value, v);
      case CbPush(None) => r := PushSelf();
      case CbPush(Some(name)) =>
        var id := StateId(table, name);
        if id.None? { return Err(UnknownState(name)); }
        stack := stack + [id.value];
      case CbPop(n) => r := Pop(n);
      case CbGoto(name) =>
        var id := StateId(table, name);
        if id.None? { return Err(UnknownState(name)); }
        r := ReplaceTop(id.value);
    }

    /** The callback's own call: its operations act on the lexer at once. */
    method Invoke(cb: Callback, pauses: nat, state: string, rule: nat, groups: Groups) returns (r: Res<()>)
      modifies this
      ensures Meets(match cb(pauses, state, rule, groups)
                    case Ok(ops) => Perform(table, old(State()), ops)
                    case Err(e) => Err(e), r, State())
    {
      hide PerformOp;
      var answer := cb(pauses, state, rule, groups);
      if answer.Err? { return Err(answer.error); }
      var ops := answer.value;
      for i := 0 to |ops|
        invariant Perform(table, old(State()), ops) == Perform(table, State(), ops[i..])
      {
        r := EngineOp(ops[i]);
        if r.Err? { return; }
      }
      r := Ok(());
    }

    /** One replayed operation of a callback that ran elsewhere. */
    method ReplayOp(op: CallbackOp) returns (r: Res<()>)
      modifies this
      ensures Meets(CarmineSession.ReplayOp(table, old(State()), op), r, State())
    {
      hide EmitTo, StateId;
      r := Ok(());
      match op
      case CbToken(q, v) =>
        if q !in table.tokenIds { return Err(TableError("unknown token")); }
        Emit(table.tokenIds[q], v);
      case CbPush(None) => r := PushSelf();
      case CbPush(Some(name)) =>
        var id := StateId(table, name);
        if id.None? { return Err(UnknownState(name)); }
        stack := stack + [id.value];
      case CbPop(n) => r := Pop(n);
      case CbGoto(name) =>
        var id := StateId(table, name);
        if id.None? { return Err(UnknownState(name)); }
        r := ReplaceTop(id.value);
    }

    method ApplyCallbackOps(ops: seq<CallbackOp>) returns (r: Res<()>)
      modifies this
      ensures Meets(CarmineSession.ApplyCallbackOps(table, old(State()), ops), r, State())
    {
      hide CarmineSession.ReplayOp;
      if pending.None? { return Err(EmptyStack); }
      var size := pending.value;
      pending := None;
      ghost var taken := State();
      for i := 0 to |ops|
        invariant Replay(table, taken, ops) == Replay(table, State(), ops[i..])
      {
        r := ReplayOp(ops[i]);
        if r.Err? { return; }
      }
      var np := BumpNullGuard(size, pos);
      pos := np;
      r := Ok(());
    }

    /** `lex`: begin, then run and call back until the end of the input. */
    method Lex(text: string, cb: Callback) returns (r: Res<Tokens>)
      modifies this
      ensures r == OneShot(table, text, cb, CarmineEngine.Begin(table, old(ivars)), 0)
      decreases |text|, 8
    {
      hide CarmineEngine.Run, Perform, CarmineSession.ApplyCallbackOps;
      Begin();
      var pauses := 0;
      while true
        invariant pos <= |text| && nullSteps <= MAX_NULL_SCANS + 1
        invariant OneShot(table, text, cb, CarmineEngine.Begin(table, old(ivars)), 0) == OneShot(table, text, cb, State(), pauses)
        decreases Measure(text, State())
      {
        var stop := Run(text);
        if stop.Err? { return Err(stop.error); }
        match stop.value
        case EndOfInput =>
          r := Ok(toks);
          toks := [];
          return;
        case AtCallback(state, rule, groups) =>
          var called := Invoke(cb, pauses, state, rule, groups);
          if called.Err? { return Err(called.error); }
          var applied := ApplyCallbackOps([]);
          if applied.Err? { return Err(applied.error); }
          pauses := pauses + 1;
      }
    }
  }
}
