/**
 Which rule fires at a position of the text, and what each kind of firing leaves behind, said
 by positions, labelled characters and stacks.
 */
module CarmineFiring {
  import opened Common
  import opened CarmineTokens
  import opened CarmineIr
  import opened CarmineTable
  import opened CarmineEngine
  import opened CarmineSession
  import opened CarmineMixins

  // ---- which rule ----

  /** The first position of the text, or one behind a newline. */
  predicate LineStart(text: string, pos: nat) {
    pos == 0 || (pos <= |text| && text[pos - 1] == '\n')
  }

  /** The regex answers at `pos`, with spans that start there and stay inside the text. */
  predicate Answers(rule: Rule, text: string, pos: nat) {
    match rule.re(text, pos)
    case None => false
    case Some(spans) =>
      && spans != [] && spans[0].Some? && spans[0].value.0 == pos
      && forall i | 0 <= i < |spans| && spans[i].Some? :: spans[i].value.0 <= spans[i].value.1 <= |text|
  }

  /** A line-start rule applies at line starts only. */
  predicate Applies(rule: Rule, text: string, pos: nat) {
    Answers(rule, text, pos) && (rule.bol ==> LineStart(text, pos))
  }

  lemma AppliesIs(rule: Rule, text: string, pos: nat)
    requires pos <= |text|
    ensures Applies(rule, text, pos) <==> BolOk(rule, text, pos) && MatchAt(rule, text, pos).Some?
    ensures Applies(rule, text, pos) ==> MatchAt(rule, text, pos) == rule.re(text, pos)
  {
  }

  /** A rule list fires its first rule that applies, with the spans of its regex; when none applies, nothing fires. */
  lemma {:induction false} FirstApplicableFires(t: LexerTable, text: string, lx: Lx, rules: seq<(nat, nat)>, k: nat)
    requires InText(lx, text) && AllPlain(t, rules) && k <= |rules|
    requires forall i | 0 <= i < k :: PlainRule(t, rules[i]) && !Applies(Rules(t, rules[i].0)[rules[i].1], text, lx.pos)
    requires k < |rules| ==> PlainRule(t, rules[k]) && Applies(Rules(t, rules[k].0)[rules[k].1], text, lx.pos)
    ensures k == |rules| ==> FireFirst(t, text, lx, rules) == Ok(Miss)
    ensures k < |rules| ==>
              var (s, ri) := rules[k];
              && SpansOk(Rules(t, s)[ri].re(text, lx.pos).value, text, lx.pos)
              && FireFirst(t, text, lx, rules) == Fire(t, text, lx, s, ri, Rules(t, s)[ri].re(text, lx.pos).value)
    decreases k
  {
    hide Fire, Applies, BolOk, MatchAt;
    if k < |rules| {
      AppliesIs(Rules(t, rules[k].0)[rules[k].1], text, lx.pos);
    }
    if k > 0 {
      AppliesIs(Rules(t, rules[0].0)[rules[0].1], text, lx.pos);
      assert forall i | 0 <= i < k - 1 :: rules[1..][i] == rules[i + 1];
      FirstApplicableFires(t, text, lx, rules[1..], k - 1);
    }
  }

  /** The same through mixins, for a state of an acyclic table. */
  lemma StateFiresFirstApplicable(t: LexerTable, rank: seq<nat>, text: string, lx: Lx, s: nat, k: nat)
    requires Acyclic(t, rank) && InText(lx, text) && s < |t.states|
    requires var rules := Flat(t, rank, s);
             && k <= |rules| && (forall i | 0 <= i < |rules| :: PlainRule(t, rules[i]))
             && (forall i | 0 <= i < k :: !Applies(Rules(t, rules[i].0)[rules[i].1], text, lx.pos))
             && (k < |rules| ==> Applies(Rules(t, rules[k].0)[rules[k].1], text, lx.pos))
    ensures var rules := Flat(t, rank, s);
            if k == |rules| then Enter(t, text, lx, s, {}) == Ok(Miss)
            else
              var (s1, ri) := rules[k];
              && SpansOk(Rules(t, s1)[ri].re(text, lx.pos).value, text, lx.pos)
              && Enter(t, text, lx, s, {}) == Fire(t, text, lx, s1, ri, Rules(t, s1)[ri].re(text, lx.pos).value)
  {
    hide Fire, Applies, Enter, FireFirst;
    OneList(t, rank, text, lx, s);
    FirstApplicableFires(t, text, lx, Flat(t, rank, s), k);
  }

  /** A line-start rule that comes first in its state fires behind every newline where its regex answers. */
  lemma LineRuleFires(t: LexerTable, a: string, b: string, lx: Lx, state: nat, path: set<nat>)
    requires lx.pos == |a| + 1 && lx.nulls <= MAX_NULL_SCANS
    requires Rules(t, state) != [] && Rules(t, state)[0].bol && !Rules(t, state)[0].kind.KMixin?
    requires Answers(Rules(t, state)[0], a + "\n" + b, |a| + 1)
    ensures var text := a + "\n" + b;
            var spans := Rules(t, state)[0].re(text, |a| + 1).value;
            SpansOk(spans, text, lx.pos) && Step(t, text, lx, state, 0, path) == Fire(t, text, lx, state, 0, spans)
  {
    hide Fire;
    assert (a + "\n" + b)[|a|] == '\n';
    AppliesIs(Rules(t, state)[0], a + "\n" + b, |a| + 1);
  }

  /** It fires at the start of the text, too. */
  lemma LineRuleFiresFirst(t: LexerTable, text: string, lx: Lx, state: nat, path: set<nat>)
    requires lx.pos == 0 && lx.nulls <= MAX_NULL_SCANS
    requires Rules(t, state) != [] && Rules(t, state)[0].bol && !Rules(t, state)[0].kind.KMixin?
    requires Answers(Rules(t, state)[0], text, 0)
    ensures var spans := Rules(t, state)[0].re(text, 0).value;
            SpansOk(spans, text, lx.pos) && Step(t, text, lx, state, 0, path) == Fire(t, text, lx, state, 0, spans)
  {
    hide Fire;
    AppliesIs(Rules(t, state)[0], text, 0);
  }

  /** Behind any other character it is passed over. */
  lemma LineRuleSkipped(t: LexerTable, text: string, lx: Lx, state: nat, ri: nat, path: set<nat>)
    requires InText(lx, text) && lx.pos > 0 && text[lx.pos - 1] != '\n'
    requires ri < |Rules(t, state)| && Rules(t, state)[ri].bol && !Rules(t, state)[ri].kind.KMixin?
    ensures Step(t, text, lx, state, ri, path) == Step(t, text, lx, state, ri + 1, path)
  {
    hide Fire, MatchAt;
  }

  /** A rule without a line-start anchor fires wherever its regex answers. */
  lemma FreeRuleFires(t: LexerTable, text: string, lx: Lx, state: nat, ri: nat, path: set<nat>)
    requires InText(lx, text)
    requires ri < |Rules(t, state)| && !Rules(t, state)[ri].bol && !Rules(t, state)[ri].kind.KMixin?
    requires Answers(Rules(t, state)[ri], text, lx.pos)
    ensures var spans := Rules(t, state)[ri].re(text, lx.pos).value;
            SpansOk(spans, text, lx.pos) && Step(t, text, lx, state, ri, path) == Fire(t, text, lx, state, ri, spans)
  {
    hide Fire;
    AppliesIs(Rules(t, state)[ri], text, lx.pos);
  }

  // ---- the state stack ----

  predicate OnlyStack(lx: Lx, lx': Lx) {
    lx' == lx.(stack := lx'.stack)
  }

  lemma StackMoves(lx: Lx, n: nat, state: nat)
    ensures PushTop(lx).Ok? <==> lx.stack != []
    ensures PushTop(lx).Ok? ==> OnlyStack(lx, PushTop(lx).value) && PushTop(lx).value.stack == lx.stack + [Last(lx.stack)]
    ensures PopStates(lx, n).Ok? <==> n <= |lx.stack|
    ensures PopStates(lx, n).Ok? ==>
              OnlyStack(lx, PopStates(lx, n).value) && PopStates(lx, n).value.stack <= lx.stack && |PopStates(lx, n).value.stack| == |lx.stack| - n
    ensures Goto(lx, state).Ok? <==> lx.stack != []
    ensures Goto(lx, state).Ok? ==> OnlyStack(lx, Goto(lx, state).value) && Goto(lx, state).value.stack == Front(lx.stack) + [state]
  {
  }

  /** The moves of a plain token rule, one by one. */
  lemma OneMove(lx: Lx, s: nat)
    ensures ApplyNext(lx, []) == Ok(lx)
    ensures ApplyNext(lx, [NextPush(s)]) == Ok(lx.(stack := lx.stack + [s]))
    ensures lx.stack != [] ==> ApplyNext(lx, [NextPop]) == Ok(lx.(stack := Front(lx.stack)))
    ensures lx.stack != [] ==> ApplyNext(lx, [NextPushSelf]) == Ok(lx.(stack := lx.stack + [Last(lx.stack)]))
    ensures lx.stack == [] ==> ApplyNext(lx, [NextPop]) == Err(EmptyStack) && ApplyNext(lx, [NextPushSelf]) == Err(EmptyStack)
  {
    assert [NextPush(s)][1..] == [] && [NextPop][1..] == [] && [NextPushSelf][1..] == [];
    assert lx.stack[..|lx.stack|] == lx.stack;
  }

  function Bind<T>(r: Res<T>, f: T -> Res<T>): Res<T> {
    match r
    case Ok(x) => f(x)
    case Err(_) => r
  }

  /** Several moves happen from left to right. */
  lemma {:induction false} MovesInOrder(lx: Lx, a: seq<NextState>, b: seq<NextState>)
    ensures ApplyNext(lx, a + b) == Bind(ApplyNext(lx, a), (lx1: Lx) => ApplyNext(lx1, b))
    decreases |a|
  {
    hide Good, Parked;
    if a == [] {
      assert a + b == b;
    } else {
      assert (a + b)[0] == a[0] && (a + b)[1..] == a[1..] + b;
      match a[0]
      case NextPop =>
        if lx.stack != [] { MovesInOrder(PopStates(lx, 1).value, a[1..], b); }
      case NextPushSelf =>
        if lx.stack != [] { MovesInOrder(PushTop(lx).value, a[1..], b); }
      case NextPush(s) => MovesInOrder(lx.(stack := lx.stack + [s]), a[1..], b);
    }
  }

  // ---- what is emitted ----

  /** Beside one more emission, `val` under `tok`, nothing changed. */
  predicate Emitted(lx: Lx, lx': Lx, tok: TokenId, val: string) {
    && lx' == lx.(toks := lx'.toks, raw := lx'.raw)
    && (Good(lx) ==> Good(lx') && Labels(lx'.toks) == Labels(lx.toks) + Paint(tok, val))
  }

  lemma EmitToIs(lx: Lx, tok: TokenId, val: string)
    ensures Emitted(lx, EmitTo(lx, tok, val), tok, val)
  {
    if Good(lx) {
      hide Labels, Paint, Emit;
      EmptyIsCanonical();
      EmitAllStep([], lx.raw);
      EmitStep(lx.toks, tok, val);
    }
  }

  lemma EmptyIsCanonical()
    ensures Canonical([])
  {
  }

  /** The first set that lists the word names its token. */
  lemma {:induction false} ClassifyIs(sets: seq<(TokenId, set<string>)>, d: TokenId, word: string, k: nat)
    requires k <= |sets| && (forall i | 0 <= i < k :: word !in sets[i].1) && (k < |sets| ==> word in sets[k].1)
    ensures Classify(sets, d, word) == if k < |sets| then sets[k].0 else d
    decreases k
  {
    if k > 0 {
      assert forall i | 0 <= i < k - 1 :: sets[1..][i] == sets[i + 1];
      ClassifyIs(sets[1..], d, word, k - 1);
    }
  }

  /** Captures `first`, `first + 1`, ... under the ids in turn, absent ones left out. */
  function GroupLabels(toks: seq<TokenId>, groups: Groups, first: nat): seq<(TokenId, char)>
    decreases |toks|
  {
    if toks == [] then []
    else
      (if first < |groups| && groups[first].Some? then Paint(toks[0], groups[first].value) else [])
      + GroupLabels(toks[1..], groups, first + 1)
  }

  /** Beside emissions labelled `more`, nothing changed. */
  predicate EmittedLabels(lx: Lx, lx': Lx, more: seq<(TokenId, char)>) {
    && lx' == lx.(toks := lx'.toks, raw := lx'.raw)
    && (Good(lx) ==> Good(lx') && Labels(lx'.toks) == Labels(lx.toks) + more)
  }

  lemma {:induction false} GroupsDo(lx: Lx, toks: seq<TokenId>, groups: Groups, first: nat)
    ensures EmittedLabels(lx, EmitGroups(lx, toks, groups, first), GroupLabels(toks, groups, first))
    decreases |toks|
  {
    hide Labels, Paint, Emit, EmitTo, Good;
    if toks == [] {
      assert Labels(lx.toks) + [] == Labels(lx.toks);
    } else {
      var rest := GroupLabels(toks[1..], groups, first + 1);
      match GroupAt(groups, first)
      case None =>
        GroupsDo(lx, toks[1..], groups, first + 1);
        assert [] + rest == rest;
      case Some(v) =>
        EmitToIs(lx, toks[0], v);
        GroupsDo(EmitTo(lx, toks[0], v), toks[1..], groups, first + 1);
        Regroup(Labels(lx.toks), Paint(toks[0], v), rest);
    }
  }

  // ---- rule bodies ----

  /** Where a firing with these spans leaves position and null counter. */
  predicate Passes(lx: Lx, lx': Lx, spans: Spans)
    requires spans != [] && spans[0].Some?
  {
    lx'.pos == spans[0].value.1 && lx'.nulls == if spans[0].value.1 == lx.pos then lx.nulls + 1 else 0
  }

  /** A plain token rule emits the match under its token, moves the stack, and passes the match. */
  lemma TokenRuleDoes(t: LexerTable, text: string, lx: Lx, state: nat, ri: nat, spans: Spans)
    requires InText(lx, text) && ri < |Rules(t, state)| && SpansOk(spans, text, lx.pos) && Rules(t, state)[ri].kind.KTok?
    ensures var (tok, next) := (Rules(t, state)[ri].kind.tok, Rules(t, state)[ri].kind.next);
            match ApplyNext(lx, next)
            case Err(e) => Fire(t, text, lx, state, ri, spans) == Err(e)
            case Ok(moved) => exists lx' ::
              && Fire(t, text, lx, state, ri, spans) == Ok(Advance(lx')) && Passes(lx, lx', spans)
              && Emitted(lx, lx'.(stack := lx.stack, pos := lx.pos, nulls := lx.nulls), tok, text[lx.pos..spans[0].value.1])
              && lx'.stack == moved.stack
  {
    hide Good, EmitTo, Emitted;
    var (tok, next) := (Rules(t, state)[ri].kind.tok, Rules(t, state)[ri].kind.next);
    var whole := text[lx.pos..spans[0].value.1];
    var lx1 := EmitTo(lx, tok, whole);
    EmitToIs(lx, tok, whole);
    EmittedParts(lx, lx1, tok, whole);
    MovesLookAtStack(lx, lx1, next);
    var r := ApplyNext(lx1, next);
    if r.Ok? {
      var lx' := Bump(r.value, spans[0].value.1 - lx.pos);
      assert Fire(t, text, lx, state, ri, spans) == Ok(Advance(lx'));
      assert lx'.(stack := lx.stack, pos := lx.pos, nulls := lx.nulls) == lx1;
    }
  }

  lemma EmittedParts(lx: Lx, lx': Lx, tok: TokenId, val: string)
    requires Emitted(lx, lx', tok, val)
    ensures lx' == lx.(toks := lx'.toks, raw := lx'.raw)
  {
  }

  /** The moves depend on the stack, and change the stack, only. */
  lemma {:induction false} MovesLookAtStack(lx: Lx, lx1: Lx, next: seq<NextState>)
    requires lx1.stack == lx.stack
    ensures match ApplyNext(lx, next)
            case Err(e) => ApplyNext(lx1, next) == Err(e)
            case Ok(moved) => ApplyNext(lx1, next) == Ok(lx1.(stack := moved.stack))
    decreases |next|
  {
    hide Good, Parked;
    if next == [] {
    } else {
      match next[0]
      case NextPop =>
        if lx.stack != [] { MovesLookAtStack(PopStates(lx, 1).value, PopStates(lx1, 1).value, next[1..]); }
      case NextPushSelf =>
        if lx.stack != [] { MovesLookAtStack(PushTop(lx).value, PushTop(lx1).value, next[1..]); }
      case NextPush(s) => MovesLookAtStack(lx.(stack := lx.stack + [s]), lx1.(stack := lx1.stack + [s]), next[1..]);
    }
  }

  /** A word-list rule emits the match under the token of the first set that has it. */
  lemma WordRuleDoes(t: LexerTable, text: string, lx: Lx, state: nat, ri: nat, spans: Spans)
    requires InText(lx, text) && ri < |Rules(t, state)| && SpansOk(spans, text, lx.pos) && Rules(t, state)[ri].kind.KWordlist?
    ensures var (sets, d) := (Rules(t, state)[ri].kind.sets, Rules(t, state)[ri].kind.defaultTok);
            var word := text[lx.pos..spans[0].value.1];
            exists lx' ::
              && Fire(t, text, lx, state, ri, spans) == Ok(Advance(lx')) && Passes(lx, lx', spans)
              && Emitted(lx, lx'.(pos := lx.pos, nulls := lx.nulls), Classify(sets, d, word), word)
  {
    hide Good, EmitTo, Emitted, Classify;
    var (sets, d) := (Rules(t, state)[ri].kind.sets, Rules(t, state)[ri].kind.defaultTok);
    var word := text[lx.pos..spans[0].value.1];
    var lx1 := EmitTo(lx, Classify(sets, d, word), word);
    EmitToIs(lx, Classify(sets, d, word), word);
    EmittedParts(lx, lx1, Classify(sets, d, word), word);
    var lx' := Bump(lx1, spans[0].value.1 - lx.pos);
    assert Fire(t, text, lx, state, ri, spans) == Ok(Advance(lx'));
    assert lx'.(pos := lx.pos, nulls := lx.nulls) == lx1;
  }

  /** One action of a declarative body; what it does to the stack is StackMoves. */
  lemma ActionDoes(lx: Lx, act: Action, groups: Groups, whole: string)
    ensures var r := RunAction(lx, act, groups, whole);
            && (act.ActToken? ==> r.Ok? && Emitted(lx, r.value, act.tok, whole))
            && (act.ActGroups? ==> r.Ok? && EmittedLabels(lx, r.value, GroupLabels(act.toks, groups, 1)))
            && (act.ActPush? ==> r == Ok(lx.(stack := lx.stack + [act.state])))
            && (act.ActPushSelf? ==> r == PushTop(lx))
            && (act.ActPop? ==> r == PopStates(lx, act.n))
            && (act.ActGoto? ==> r == Goto(lx, act.state))
  {
    hide Good, EmitTo, Emitted, EmittedLabels, EmitGroups, GroupLabels;
    match act
    case ActToken(tok) => EmitToIs(lx, tok, whole);
    case ActGroups(toks) => GroupsDo(lx, toks, groups, 1);
    case _ =>
  }

  /** Actions happen from left to right. */
  lemma {:induction false} ActionsInOrder(lx: Lx, a: seq<Action>, b: seq<Action>, groups: Groups, whole: string)
    ensures RunActions(lx, a + b, groups, whole) == Bind(RunActions(lx, a, groups, whole), (lx1: Lx) => RunActions(lx1, b, groups, whole))
    decreases |a|
  {
    hide Good, Parked, RunAction;
    if a == [] {
      assert a + b == b;
    } else {
      assert (a + b)[0] == a[0] && (a + b)[1..] == a[1..] + b;
      var first := RunAction(lx, a[0], groups, whole);
      if first.Ok? {
        ActionsInOrder(first.value, a[1..], b, groups, whole);
      }
    }
  }

  /** A callback rule pauses: the match stays pending, its captures are shown as text, and nothing else changes. */
  lemma CallbackRulePauses(t: LexerTable, text: string, lx: Lx, state: nat, ri: nat, spans: Spans) returns (groups: Groups)
    requires InText(lx, text) && ri < |Rules(t, state)| && SpansOk(spans, text, lx.pos) && Rules(t, state)[ri].kind.KCallback?
    ensures Fire(t, text, lx, state, ri, spans) == Ok(Pause(lx.(pending := Some(spans[0].value.1 - lx.pos)), state, ri, groups))
    ensures |groups| == |spans|
    ensures forall i | 0 <= i < |spans| ::
              groups[i] == if spans[i].Some? then Some(text[spans[i].value.0..spans[i].value.1]) else None
  {
    hide RunBody, Good, GroupsOf;
    groups := GroupsOf(text, spans);
  }

  // ---- rounds in which no rule fires ----

  /** One character went out under the error id. */
  predicate Skipped(t: LexerTable, text: string, lx: Lx, lx': Lx, nulls: nat)
    requires lx.pos < |text|
  {
    lx'.pos == lx.pos + 1 && lx'.nulls == nulls
    && Emitted(lx, lx'.(pos := lx.pos, nulls := lx.nulls), t.errorTok, [text[lx.pos]])
  }

  lemma GetchDoes(t: LexerTable, text: string, lx: Lx, nulls: nat)
    requires lx.pos < |text|
    ensures Skipped(t, text, lx, ErrorGetch(t, text, lx.(nulls := nulls)), nulls)
  {
    EmitToIs(lx.(nulls := nulls), t.errorTok, [text[lx.pos]]);
  }

  /** After more than five null scans in a row a character is skipped and the count starts again. */
  lemma StuckSkips(t: LexerTable, text: string, lx: Lx)
    requires lx.pos < |text| && lx.nulls == 6
    ensures exists lx' :: OneRound(t, text, lx) == Ok(Next(lx')) && Skipped(t, text, lx, lx', 0)
  {
    hide Skipped, Enter;
    GetchDoes(t, text, lx, 0);
    var lx' := ErrorGetch(t, text, lx.(nulls := 0));
    assert OneRound(t, text, lx) == Ok(Next(lx'));
  }

  /**
   Where no rule of the top state applies, a character is skipped, unless a callback rule is
   among them: then the lex stops for that callback.
   */
  lemma NothingAppliesSkips(t: LexerTable, rank: seq<nat>, text: string, lx: Lx)
    requires Acyclic(t, rank) && lx.pos < |text| && lx.nulls <= 5 && lx.stack != [] && Last(lx.stack) < |t.states|
    requires forall i | 0 <= i < |Flat(t, rank, Last(lx.stack))| ::
               var r := Flat(t, rank, Last(lx.stack))[i]; PlainRule(t, r) && !Applies(Rules(t, r.0)[r.1], text, lx.pos)
    ensures match FirstCallback(t, Flat(t, rank, Last(lx.stack)))
            case Some(r) => OneRound(t, text, lx) == Err(CallbackRequired(StateName(t, r.0), r.1))
            case None => exists lx' :: OneRound(t, text, lx) == Ok(Next(lx')) && Skipped(t, text, lx, lx', lx.nulls)
  {
    hide Skipped, Enter, Applies, FindCallback, FirstCallback, FireFirst, Fire;
    var s := Last(lx.stack);
    OneList(t, rank, text, lx, s);
    StateFiresFirstApplicable(t, rank, text, lx, s, |Flat(t, rank, s)|);
    GetchDoes(t, text, lx, lx.nulls);
    assert lx.(nulls := lx.nulls) == lx;
    if FirstCallback(t, Flat(t, rank, s)).None? {
      assert OneRound(t, text, lx) == Ok(Next(ErrorGetch(t, text, lx)));
    }
  }

  // ---- callback operations ----

  /** What a callback's operation does to the paused lexer: names stand for the first state or the token that has them. */
  lemma CallbackOpDoes(t: LexerTable, lx: Lx, op: CallbackOp)
    ensures var r := PerformOp(t, lx, op);
            && (op.CbToken? && op.qualname in t.tokenIds ==> r.Ok? && Emitted(lx, r.value, t.tokenIds[op.qualname], op.value))
            && (op.CbToken? && op.qualname !in t.tokenIds ==> r.Err?)
            && (op.CbPush? && op.name.None? ==> r == PushTop(lx))
            && (op.CbPush? && op.name.Some? && op.name.value in t.stateNames ==>
                  exists id :: IsState(t, op.name.value, id) && r == Ok(lx.(stack := lx.stack + [id])))
            && (op.CbPush? && op.name.Some? && op.name.value !in t.stateNames ==> r == Err(UnknownState(op.name.value)))
            && (op.CbPop? ==> r == PopStates(lx, op.n))
            && (op.CbGoto? && op.target in t.stateNames ==> exists id :: IsState(t, op.target, id) && r == Goto(lx, id))
            && (op.CbGoto? && op.target !in t.stateNames ==> r == Err(UnknownState(op.target)))
  {
    hide Good, EmitTo, Emitted, StateId, IsState;
    match op
    case CbToken(q, v) => if q in t.tokenIds { EmitToIs(lx, t.tokenIds[q], v); }
    case CbPush(Some(name)) => NameIsState(t, name);
    case CbGoto(name) => NameIsState(t, name);
    case _ =>
  }

  lemma NameIsState(t: LexerTable, name: string)
    ensures name in t.stateNames ==> StateId(t, name).Some? && IsState(t, name, StateId(t, name).value)
    ensures name !in t.stateNames ==> StateId(t, name).None?
  {
    FirstNamed(t.stateNames, name, 0);
  }

  predicate IsState(t: LexerTable, name: string, id: nat) {
    id < |t.stateNames| && t.stateNames[id] == name && forall i | 0 <= i < id :: t.stateNames[i] != name
  }

  lemma {:induction false} FirstNamed(names: seq<string>, name: string, i: nat)
    requires i <= |names| && forall k | 0 <= k < i :: names[k] != name
    ensures match StateIdFrom(names, name, i)
            case None => name !in names
            case Some(id) => id < |names| && names[id] == name && forall k | 0 <= k < id :: names[k] != name
    decreases |names| - i
  {
    if i < |names| && names[i] != name {
      FirstNamed(names, name, i + 1);
    }
  }

  /** A lex begins at the start of the text, in the root state with the start states above it. */
  lemma BeginsAtRoot(t: LexerTable, ivars: Ivars)
    ensures var lx := Begin(t, ivars);
            && lx.pos == 0 && lx.nulls == 0 && lx.pending == None && lx.toks == [] && lx.ivars == ivars
            && lx.stack != [] && lx.stack[0] == t.root && lx.stack[1..] == t.startPush
  {
  }
}
