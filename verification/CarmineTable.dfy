/** Compiled lexer tables: states, rules, and the regex engine as an oracle. */
module CarmineTable {
  import opened Common
  import opened CarmineTokens
  import opened CarmineIr

  /** Capture spans; entry 0 is the whole match. */
  type Spans = seq<Option<(nat, nat)>>

  /** `captures_at`: what a pattern matches at a position of a text. */
  type Regex = (string, nat) -> Option<Spans>

  datatype NextState = NextPop | NextPushSelf | NextPush(state: nat)

  datatype Action =
    | ActGroups(toks: seq<TokenId>)
    | ActToken(tok: TokenId)
    | ActPush(state: nat)
    | ActPushSelf
    | ActPop(n: nat)
    | ActGoto(state: nat)

  datatype Kind =
    | KTok(tok: TokenId, next: seq<NextState>)
    | KActions(actions: seq<Action>)
    | KWordlist(sets: seq<(TokenId, set<string>)>, defaultTok: TokenId)
    | KIr(ops: seq<IrOp>)
    | KCallback
    | KMixin(state: nat)

  datatype Rule = Rule(re: Regex, bol: bool, kind: Kind)

  datatype LexerTable = LexerTable(
    states: seq<seq<Rule>>,
    stateNames: seq<string>,
    root: nat,
    startPush: seq<nat>,
    shortnames: seq<string>,
    tokenIds: map<string, TokenId>,
    textTok: TokenId,
    errorTok: TokenId)

  /** The contract of `captures_at`: spans inside the text, the whole match first and starting at `pos`. */
  predicate SpansOk(spans: Spans, text: string, pos: nat) {
    && |spans| > 0 && spans[0].Some? && spans[0].value.0 == pos
    && forall i | 0 <= i < |spans| :: spans[i].Some? ==> spans[i].value.0 <= spans[i].value.1 <= |text|
  }

  /** The oracle's answer; an answer outside its contract counts as no match, so every engine within the contract is covered. */
  function MatchAt(rule: Rule, text: string, pos: nat): (r: Option<Spans>)
    ensures r.Some? ==> SpansOk(r.value, text, pos)
  {
    match rule.re(text, pos)
    case None => None
    case Some(spans) => if SpansOk(spans, text, pos) then Some(spans) else None
  }

  /** The bol pre-check of a rule that begins with `^`. */
  predicate BolOk(rule: Rule, text: string, pos: nat) {
    !rule.bol || pos == 0 || (pos <= |text| && text[pos - 1] == '\n')
  }

  function GroupText(text: string, span: Option<(nat, nat)>): Option<string> {
    match span
    case Some((a, b)) => if a <= b <= |text| then Some(text[a..b]) else None
    case None => None
  }

  function GroupsOf(text: string, spans: Spans): (g: Groups)
    ensures |g| == |spans| && forall i | 0 <= i < |g| :: g[i] == GroupText(text, spans[i])
  {
    if spans == [] then [] else GroupsOf(text, Front(spans)) + [GroupText(text, Last(spans))]
  }

  function StateIdFrom(names: seq<string>, name: string, i: nat): Option<nat>
    requires i <= |names|
    decreases |names| - i
  {
    if i == |names| then None else if names[i] == name then Some(i) else StateIdFrom(names, name, i + 1)
  }

  function StateId(t: LexerTable, name: string): Option<nat> {
    StateIdFrom(t.stateNames, name, 0)
  }

  function StateName(t: LexerTable, s: nat): string {
    if s < |t.stateNames| then t.stateNames[s] else ""
  }

  function TokenIdOf(t: LexerTable, qualname: string): Option<TokenId> {
    if qualname in t.tokenIds then Some(t.tokenIds[qualname]) else None
  }

  function Rules(t: LexerTable, s: nat): seq<Rule> {
    if s < |t.states| then t.states[s] else []
  }
}
