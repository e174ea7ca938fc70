/**
 The two ways to drive a lexer with callbacks: one-shot, where a callback works on the
 paused lexer directly, and the session, where recorded operations are replayed by name.
 */
module CarmineSession {
  import opened Common
  import opened CarmineTokens
  import opened CarmineIr
  import opened CarmineTable
  import opened CarmineEngine

  datatype CallbackOp =
    | CbToken(qualname: string, value: string)
    | CbPush(name: Option<string>)
    | CbPop(n: nat)
    | CbGoto(target: string)

  /**
   A callback: the operations it performs on a match, or its refusal. It may carry state of
   its own, so the answer also depends on how many pauses went before.
   */
  type Callback = (nat, string, nat, Groups) -> Res<seq<CallbackOp>>

  // ---- the operations a callback performs on the paused lexer ----

  function EngineToken(t: LexerTable, lx: Lx, qualname: string, value: string): Res<Lx> {
    match TokenIdOf(t, qualname)
    case None => Err(TableError("unknown token"))
    case Some(tok) => Ok(EmitTo(lx, tok, value))
  }

  function EnginePush(t: LexerTable, lx: Lx, name: Option<string>): Res<Lx> {
    match name
    case None => PushTop(lx)
    case Some(n) =>
      match StateId(t, n)
      case None => Err(UnknownState(n))
      case Some(id) => Ok(lx.(stack := lx.stack + [id]))
  }

  function EngineGoto(t: LexerTable, lx: Lx, name: string): Res<Lx> {
    match StateId(t, name)
    case None => Err(UnknownState(name))
    case Some(id) => Goto(lx, id)
  }

  function PerformOp(t: LexerTable, lx: Lx, op: CallbackOp): (r: Res<Lx>)
    ensures r.Ok? ==> Parked(lx, r.value) && (Good(lx) ==> Good(r.value))
  {
    match op
    case CbToken(q, v) => EngineToken(t, lx, q, v)
    case CbPush(name) => EnginePush(t, lx, name)
    case CbPop(n) => PopStates(lx, n)
    case CbGoto(name) => EngineGoto(t, lx, name)
  }

  function Perform(t: LexerTable, lx: Lx, ops: seq<CallbackOp>): (r: Res<Lx>)
    ensures r.Ok? ==> Parked(lx, r.value) && (Good(lx) ==> Good(r.value))
    decreases |ops|
  {
    if ops == [] then Ok(lx)
    else
      var lx1 :- PerformOp(t, lx, ops[0]);
      Perform(t, lx1, ops[1..])
  }

  // ---- the replay ----

  /** One replayed effect. */
  function ReplayOp(t: LexerTable, lx: Lx, op: CallbackOp): (r: Res<Lx>)
    ensures r.Ok? ==> Parked(lx, r.value) && (Good(lx) ==> Good(r.value))
  {
    match op
    case CbToken(q, v) =>
      if q in t.tokenIds then Ok(EmitTo(lx, t.tokenIds[q], v)) else Err(TableError("unknown token"))
    case CbPush(None) =>
      if lx.stack == [] then Err(EmptyStack) else Ok(lx.(stack := lx.stack + [Last(lx.stack)]))
    case CbPush(Some(name)) =>
      (match StateId(t, name)
       case Some(id) => Ok(lx.(stack := lx.stack + [id]))
       case None => Err(UnknownState(name)))
    case CbPop(n) => PopStates(lx, n)
    case CbGoto(name) =>
      (match StateId(t, name)
       case Some(id) => if lx.stack == [] then Err(EmptyStack) else Ok(lx.(stack := Front(lx.stack) + [id]))
       case None => Err(UnknownState(name)))
  }

  /** The replay, after the pending match has been taken. */
  function Replay(t: LexerTable, lx: Lx, ops: seq<CallbackOp>): (r: Res<Lx>)
    ensures r.Ok? ==> Parked(lx, r.value) && (Good(lx) ==> Good(r.value))
    decreases |ops|
  {
    if ops == [] then Ok(lx)
    else
      var lx1 :- ReplayOp(t, lx, ops[0]);
      Replay(t, lx1, ops[1..])
  }

  /** `apply_callback_ops`: take the pending match, replay, then consume the match. */
  function ApplyCallbackOps(t: LexerTable, lx: Lx, ops: seq<CallbackOp>): (r: Res<Lx>)
    ensures r.Ok? ==>
              && lx.pending.Some? && r.value.pending == None && (Good(lx) ==> Good(r.value))
              && r.value.pos == lx.pos + lx.pending.value
              && r.value.nulls == if lx.pending.value == 0 then lx.nulls + 1 else 0
  {
    match lx.pending
    case None => Err(EmptyStack)
    case Some(size) =>
      var lx1 :- Replay(t, lx.(pending := None), ops);
      Ok(Bump(lx1, size))
  }

  // ---- the two drivers ----

  /** `lex`, after `begin`: the callback acts on the paused lexer, then the match is consumed with no further operations. */
  function OneShot(t: LexerTable, text: string, cb: Callback, lx: Lx, pauses: nat): (r: Res<Tokens>)
    requires lx.pos <= |text| && lx.nulls <= MAX_NULL_SCANS + 1
    decreases Measure(text, lx)
  {
    var step :- Run(t, text, lx);
    match step
    case Done(lx1) => Ok(lx1.toks)
    case NeedCallback(lx1, state, rule, groups) =>
      var ops :- cb(pauses, StateName(t, state), rule, groups);
      var lx2 :- Perform(t, lx1, ops);
      var lx3 :- ApplyCallbackOps(t, lx2, []);
      OneShot(t, text, cb, lx3, pauses + 1)
  }

  /** The session protocol: run, replay what the callback did elsewhere, run again. */
  function Session(t: LexerTable, text: string, cb: Callback, lx: Lx, pauses: nat): (r: Res<Tokens>)
    requires lx.pos <= |text| && lx.nulls <= MAX_NULL_SCANS + 1
    decreases Measure(text, lx)
  {
    var step :- Run(t, text, lx);
    match step
    case Done(lx1) => Ok(lx1.toks)
    case NeedCallback(lx1, state, rule, groups) =>
      var ops :- cb(pauses, StateName(t, state), rule, groups);
      var lx2 :- ApplyCallbackOps(t, lx1, ops);
      Session(t, text, cb, lx2, pauses + 1)
  }

  /** An operation on the paused lexer and its replay differ in the pending match only. */
  lemma ReplayOpIsPerformOp(t: LexerTable, lx: Lx, op: CallbackOp, pending: Option<nat>)
    ensures match PerformOp(t, lx, op)
            case Ok(r) => ReplayOp(t, lx.(pending := pending), op) == Ok(r.(pending := pending))
            case Err(e) => ReplayOp(t, lx.(pending := pending), op) == Err(e)
  {
    hide StateId;
  }

  /** Performing operations while the match is still pending, and replaying them after it was taken, differ in nothing else. */
  lemma {:induction false} ReplayIsPerform(t: LexerTable, lx: Lx, ops: seq<CallbackOp>, pending: Option<nat>)
    ensures match Perform(t, lx, ops)
            case Ok(r) => Replay(t, lx.(pending := pending), ops) == Ok(r.(pending := pending))
            case Err(e) => Replay(t, lx.(pending := pending), ops) == Err(e)
    decreases |ops|
  {
    hide PerformOp, ReplayOp, Good;
    if ops == [] {
    } else {
      ReplayOpIsPerformOp(t, lx, ops[0], pending);
      var step := PerformOp(t, lx, ops[0]);
      if step.Ok? {
        ReplayIsPerform(t, step.value, ops[1..], pending);
      }
    }
  }

  /** The session protocol and the one-shot driver give the same tokens or the same error, over any number of pauses. */
  lemma {:induction false} SessionRefinesOneShot(t: LexerTable, text: string, cb: Callback, lx: Lx, pauses: nat)
    requires lx.pos <= |text| && lx.nulls <= MAX_NULL_SCANS + 1
    ensures Session(t, text, cb, lx, pauses) == OneShot(t, text, cb, lx, pauses)
    decreases Measure(text, lx)
  {
    hide Run;
    var step := Run(t, text, lx);
    if step.Ok? && step.value.NeedCallback? {
      var NeedCallback(lx1, state, rule, groups) := step.value;
      var ops := cb(pauses, StateName(t, state), rule, groups);
      if ops.Ok? {
        ReplayIsPerform(t, lx1, ops.value, None);
        var lx2 := ApplyCallbackOps(t, lx1, ops.value);
        if lx2.Ok? {
          SessionRefinesOneShot(t, text, cb, lx2.value, pauses + 1);
        }
      }
    }
  }

  /** The callback that refuses everything. */
  function DeclineAll(): Callback {
    (pauses: nat, state: string, rule: nat, groups: Groups) => Err(CallbackRequired(state, rule))
  }

  /** Declining every callback is the native lex that `recurse` uses. */
  lemma DeclineAllIsNative(t: LexerTable, text: string)
    ensures OneShot(t, text, DeclineAll(), Begin(t, map[]), 0)
         == match LexNative(t, text) { case Ok(lx) => Ok(lx.toks) case Err(e) => Err(e) }
  {
    hide Run;
  }

  // ---- how many rounds ----

  /** One turn of the driver loop: a firing, an error character, or a pause with the replay that ends it. */
  ghost predicate Turn(t: LexerTable, text: string, a: Lx, b: Lx) {
    && a.pos <= |text| && a.nulls <= MAX_NULL_SCANS + 1
    && (OneRound(t, text, a) == Ok(Next(b)) || Resumed(t, text, a, b))
  }

  ghost predicate Resumed(t: LexerTable, text: string, a: Lx, b: Lx)
    requires a.pos <= |text| && a.nulls <= MAX_NULL_SCANS + 1
  {
    exists ops :: OneRound(t, text, a).Ok? && OneRound(t, text, a).value.Paused?
                  && ApplyCallbackOps(t, OneRound(t, text, a).value.lx, ops) == Ok(b)
  }

  ghost predicate Turns(t: LexerTable, text: string, states: seq<Lx>)
    decreases |states|
  {
    |states| > 1 ==> Turn(t, text, states[0], states[1]) && Turns(t, text, states[1..])
  }

  /** Every turn leaves fewer turns, whatever callbacks do in between. */
  lemma {:induction false} TurnsBounded(t: LexerTable, text: string, states: seq<Lx>)
    requires states != [] && Turns(t, text, states)
    ensures |states| - 1 <= Measure(text, states[0])
    decreases |states|
  {
    hide OneRound, ApplyCallbackOps;
    if |states| > 1 {
      TurnsBounded(t, text, states[1..]);
    }
  }

  /** A lex of n characters takes at most 7n + 6 turns, pauses included. */
  lemma LexBounded(t: LexerTable, text: string, ivars: Ivars, states: seq<Lx>)
    requires states != [] && states[0] == Begin(t, ivars) && Turns(t, text, states)
    ensures |states| - 1 <= 7 * |text| + 6
  {
    TurnsBounded(t, text, states);
  }
}
