/**
 How rounds make a run, and runs with answered pauses make a lex: the driver loops said by
 the rule that fires, by chains of rounds, and by a script of answers.
 */
module CarmineDriving {
  import opened Common
  import opened CarmineTokens
  import opened CarmineIr
  import opened CarmineTable
  import opened CarmineEngine
  import opened CarmineSession
  import opened CarmineMixins
  import opened CarmineFiring

  // ---- a round and a run ----

  /** A round that is this firing. */
  predicate RoundIs(t: LexerTable, text: string, lx: Lx, hit: Res<Hit>)
    requires lx.pos <= |text| && lx.nulls <= MAX_NULL_SCANS + 1
  {
    match hit
    case Err(e) => OneRound(t, text, lx) == Err(e)
    case Ok(Miss) => false
    case Ok(Advance(lx1)) => OneRound(t, text, lx) == Ok(Next(lx1))
    case Ok(Pause(lx1, state, rule, groups)) => OneRound(t, text, lx) == Ok(Paused(lx1, state, rule, groups))
  }

  /** A round is the firing of the first rule of the top state, mixins included, that applies. */
  lemma RoundFires(t: LexerTable, rank: seq<nat>, text: string, lx: Lx, k: nat)
    requires Acyclic(t, rank) && lx.pos < |text| && lx.nulls <= 5 && lx.stack != [] && Last(lx.stack) < |t.states|
    requires var rules := Flat(t, rank, Last(lx.stack));
             && k < |rules| && (forall i | 0 <= i < |rules| :: PlainRule(t, rules[i]))
             && (forall i | 0 <= i < k :: !Applies(Rules(t, rules[i].0)[rules[i].1], text, lx.pos))
             && Applies(Rules(t, rules[k].0)[rules[k].1], text, lx.pos)
    ensures var (s, ri) := Flat(t, rank, Last(lx.stack))[k];
            var spans := Rules(t, s)[ri].re(text, lx.pos).value;
            SpansOk(spans, text, lx.pos) && RoundIs(t, text, lx, Fire(t, text, lx, s, ri, spans))
  {
    hide Fire, Applies, Enter;
    StateFiresFirstApplicable(t, rank, text, lx, Last(lx.stack), k);
  }

  /** Rounds one after the other, none of them a pause. */
  predicate Chain(t: LexerTable, text: string, states: seq<Lx>)
    decreases |states|
  {
    |states| > 1 ==>
      && states[0].pending == None && states[0].pos <= |text| && states[0].nulls <= MAX_NULL_SCANS + 1
      && OneRound(t, text, states[0]) == Ok(Next(states[1])) && Chain(t, text, states[1..])
  }

  /** A run goes on as the state its rounds have led to goes on ... */
  lemma {:induction false} RunFollowsRounds(t: LexerTable, text: string, states: seq<Lx>)
    requires states != [] && Chain(t, text, states)
    requires states[0].pos <= |text| && states[0].nulls <= MAX_NULL_SCANS + 1
    ensures Last(states).pos <= |text| && Last(states).nulls <= MAX_NULL_SCANS + 1
    ensures Run(t, text, states[0]) == Run(t, text, Last(states))
    decreases |states|
  {
    hide OneRound, Good;
    if |states| > 1 {
      RunFollowsRounds(t, text, states[1..]);
    }
  }

  /** ... and stops at the end of the text, at a pause, and at an error. */
  lemma RunStops(t: LexerTable, text: string, lx: Lx)
    requires lx.pos <= |text| && lx.nulls <= MAX_NULL_SCANS + 1 && lx.pending == None
    ensures lx.pos == |text| ==> Run(t, text, lx) == Ok(Done(lx))
    ensures OneRound(t, text, lx).Ok? && OneRound(t, text, lx).value.Paused? ==>
              var p := OneRound(t, text, lx).value;
              Run(t, text, lx) == Ok(NeedCallback(p.lx, p.state, p.rule, p.groups))
    ensures OneRound(t, text, lx).Err? ==> Run(t, text, lx).Err? && Run(t, text, lx).error == OneRound(t, text, lx).error
  {
    hide Enter, Good;
  }

  // ---- recursion and conditions ----

  /** Re-lexing a text emits what lexing it afresh emits, character by character; shorter texts only. */
  lemma RecurseDoes(t: LexerTable, s: string, lx: Lx, limit: nat)
    ensures Recurse(t, EStr([]), lx, limit) == Ok(lx)
    ensures Recurse(t, ENil, lx, limit) == Ok(lx)
    ensures 0 < |s| < limit && LexNative(t, s).Err? ==>
              Recurse(t, EStr(s), lx, limit).Err? && Recurse(t, EStr(s), lx, limit).error == LexNative(t, s).error
    ensures 0 < |s| < limit && LexNative(t, s).Ok? ==>
              && Recurse(t, EStr(s), lx, limit).Ok?
              && EmittedLabels(lx, Recurse(t, EStr(s), lx, limit).value, Labels(LexNative(t, s).value.toks))
  {
    hide LexNative, Labels;
    if 0 < |s| < limit && LexNative(t, s).Ok? && Good(lx) {
      var sub := LexNative(t, s).value;
      EmitAllStep([], lx.raw);
      EmitAllStep(lx.toks, sub.toks);
      SpliceGood(lx, sub);
    }
  }

  /** Conditions on the depth of the state stack compare it as integers compare. */
  lemma DepthConditions(groups: Groups, ivars: Ivars, current: nat, depth: nat, n: nat)
    ensures EvalCond(StackDepth(CmpEq, n), groups, ivars, current, depth) <==> depth == n
    ensures EvalCond(StackDepth(CmpNe, n), groups, ivars, current, depth) <==> depth != n
    ensures EvalCond(StackDepth(CmpLt, n), groups, ivars, current, depth) <==> depth < n
    ensures EvalCond(StackDepth(CmpLe, n), groups, ivars, current, depth) <==> depth <= n
    ensures EvalCond(StackDepth(CmpGt, n), groups, ivars, current, depth) <==> depth > n
    ensures EvalCond(StackDepth(CmpGe, n), groups, ivars, current, depth) <==> depth >= n
  {
  }

  // ---- a lex with answered pauses ----

  /** A question a lex may stop with, and the answer to it. */
  datatype Reply = Reply(state: string, rule: nat, groups: Groups, ops: seq<CallbackOp>)

  predicate Asks(t: LexerTable, r: Reply, state: nat, rule: nat, groups: Groups) {
    && r.state == (if state < |t.stateNames| then t.stateNames[state] else "")
    && r.rule == rule && r.groups == groups
  }

  /** The callback that knows the answers to these questions, in this order. */
  function FromScript(script: seq<Reply>): Callback {
    (pauses: nat, state: string, rule: nat, groups: Groups) =>
      if pauses < |script| && script[pauses] == Reply(state, rule, groups, script[pauses].ops) then Ok(script[pauses].ops)
      else Err(CallbackRequired(state, rule))
  }

  /** The lex in which the answers are performed one after the other, each before the lex goes on behind its match. */
  function Play(t: LexerTable, text: string, lx: Lx, script: seq<Reply>): Res<Tokens>
    requires lx.pos <= |text| && lx.nulls <= MAX_NULL_SCANS + 1
    decreases |script|
  {
    match Run(t, text, lx)
    case Err(e) => Err(e)
    case Ok(Done(lx1)) => Ok(lx1.toks)
    case Ok(NeedCallback(lx1, state, rule, groups)) =>
      if script == [] || !Asks(t, script[0], state, rule, groups) then
        Err(CallbackRequired(if state < |t.stateNames| then t.stateNames[state] else "", rule))
      else
        match Perform(t, lx1, script[0].ops)
        case Err(e) => Err(e)
        case Ok(lx2) =>
          var size := lx1.pending.value;
          Play(t, text, lx2.(pending := None, pos := lx1.pos + size, nulls := if size > 0 then 0 else lx1.nulls + 1), script[1..])
  }

  /** Every pause puts its question once, and the answers are taken in order. */
  lemma {:induction false} OneShotPlays(t: LexerTable, text: string, lx: Lx, script: seq<Reply>, k: nat)
    requires lx.pos <= |text| && lx.nulls <= MAX_NULL_SCANS + 1 && k <= |script|
    ensures OneShot(t, text, FromScript(script), lx, k) == Play(t, text, lx, script[k..])
    decreases |script| - k
  {
    hide Run, Perform, Good;
    var step := Run(t, text, lx);
    if step.Ok? && step.value.NeedCallback? && k < |script| {
      var NeedCallback(lx1, state, rule, groups) := step.value;
      assert script[k..][0] == script[k] && script[k..][1..] == script[k + 1..];
      if Asks(t, script[k], state, rule, groups) {
        assert script[k] == Reply(StateName(t, state), rule, groups, script[k].ops);
        var lx2 := Perform(t, lx1, script[k].ops);
        if lx2.Ok? {
          var lx3 := ApplyCallbackOps(t, lx2.value, []).value;
          OneShotPlays(t, text, lx3, script, k + 1);
        }
      }
    }
  }
}
