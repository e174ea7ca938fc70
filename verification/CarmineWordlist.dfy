/**
 The keyword-classifier upgrade: a block that only asks whether the matched word equals
 literals or lies in word sets, and emits one token, is tabulated by running it.
 */
module CarmineWordlist {
  import opened Common
  import opened CarmineTokens
  import opened CarmineEngine

  /** The ways a block may name the matched word: `m[0]`, or a local. */
  datatype Subject = Zeroth(name: string) | Local(name: string)

  datatype Cond =
    | Include(words: seq<string>, arg: Subject)
    | Equals(subject: Subject, lit: string)
    | OtherCond

  /** The argument of a `token` call: a constant, or a choice by what the matched word is. */
  datatype TokArg =
    | Const(tok: TokenId)
    | Pick(cond: Cond, yes: TokArg, no: TokArg)

  datatype Tree =
    | Token(arg: TokArg)
    | TokenWithValue
    | Nothing
    | If(unless: bool, cond: Cond, yes: Tree, no: Tree)
    | Case(subject: Option<Subject>, whens: Whens)
    | OtherTree

  /** A `when` item is a string literal, or something else (None). */
  datatype Whens =
    | When(items: seq<Option<string>>, body: Tree, rest: Whens)
    | Otherwise(body: Tree)

  /** `|param| name = subject; …; body`. */
  datatype Classifier = Classifier(param: string, binds: seq<(string, Subject)>, body: Tree)

  // ---- the syntactic gate ----

  predicate IsWord(s: Subject, param: string, aliases: set<string>) {
    match s
    case Zeroth(name) => name == param
    case Local(name) => name in aliases
  }

  function CondLiterals(c: Cond, param: string, aliases: set<string>): Option<seq<string>> {
    match c
    case Include(_, arg) => if IsWord(arg, param, aliases) then Some([]) else None
    case Equals(s, lit) => if IsWord(s, param, aliases) then Some([lit]) else None
    case OtherCond => None
  }

  function Both(a: Option<seq<string>>, b: Option<seq<string>>): Option<seq<string>> {
    if a.Some? && b.Some? then Some(a.value + b.value) else None
  }

  function ItemLiterals(items: seq<Option<string>>): Option<seq<string>> {
    if items == [] then Some([])
    else if items[0].None? then None
    else Both(Some([items[0].value]), ItemLiterals(items[1..]))
  }

  /** `branch`: the literals of a tree of the accepted form. */
  function TreeLiterals(t: Tree, param: string, aliases: set<string>): Option<seq<string>> {
    match t
    case Token(_) => Some([])
    case TokenWithValue => Some([])
    case Nothing => Some([])
    case If(_, c, yes, no) =>
      Both(CondLiterals(c, param, aliases), Both(TreeLiterals(yes, param, aliases), TreeLiterals(no, param, aliases)))
    case Case(s, whens) =>
      if s.Some? && !IsWord(s.value, param, aliases) then None else WhenLiterals(whens, param, aliases)
    case OtherTree => None
  }

  function WhenLiterals(w: Whens, param: string, aliases: set<string>): Option<seq<string>> {
    match w
    case Otherwise(body) => TreeLiterals(body, param, aliases)
    case When(items, body, rest) =>
      Both(ItemLiterals(items), Both(TreeLiterals(body, param, aliases), WhenLiterals(rest, param, aliases)))
  }

  function BindAliases(binds: seq<(string, Subject)>, param: string, aliases: set<string>): Option<set<string>>
    decreases |binds|
  {
    if binds == [] then Some(aliases)
    else if !IsWord(binds[0].1, param, aliases) then None
    else BindAliases(binds[1..], param, aliases + {binds[0].0})
  }

  function Literals(c: Classifier): Option<seq<string>> {
    match BindAliases(c.binds, c.param, {})
    case None => None
    case Some(aliases) => TreeLiterals(c.body, c.param, aliases)
  }

  // ---- running a block ----

  /** Ruby values in such a block; `Probe` stands for the word in the capturing run. */
  datatype Val = Match | Probe | Str(s: string) | Nil

  type Locals = map<string, Val>

  /** A run ends with at most one token and the word sets the probe met, or it raises. */
  datatype Ran = Ran(tok: Option<TokenId>, captured: seq<seq<string>>) | Bail

  /** `Bail` as an absent value. */
  function Eval(s: Subject, env: Locals, word: Val): Option<Val> {
    match s
    case Local(name) => if name in env then Some(env[name]) else None
    case Zeroth(name) =>
      if name !in env then None
      else
        match env[name]
        case Match => Some(word)
        case Str(t) => Some(if t == [] then Nil else Str(t[..1]))
        case Probe => None
        case Nil => None
  }

  function Capture(sets: seq<seq<string>>, r: Ran): Ran {
    match r
    case Ran(tok, more) => Ran(tok, sets + more)
    case Bail => Bail
  }

  predicate Holds(c: Cond, v: Val) {
    match c
    case Include(words, _) => v.Str? && v.s in words
    case Equals(_, lit) => v == Str(lit)
    case OtherCond => false
  }

  function SubjectOf(c: Cond): Subject
    requires !c.OtherCond?
  {
    match c
    case Include(_, s) => s
    case Equals(s, _) => s
  }

  /** The sets an evaluation of the condition captures: the receiver of `include?` on the probe. */
  function Seen(c: Cond, v: Val): seq<seq<string>> {
    if c.Include? && v.Probe? then [c.words] else []
  }

  function RunArg(a: TokArg, env: Locals, word: Val): Ran {
    match a
    case Const(tok) => Ran(Some(tok), [])
    case Pick(c, yes, no) =>
      if c.OtherCond? then Bail
      else
        match Eval(SubjectOf(c), env, word)
        case None => Bail
        case Some(v) => Capture(Seen(c, v), if Holds(c, v) then RunArg(yes, env, word) else RunArg(no, env, word))
  }

  function Run(t: Tree, env: Locals, word: Val): Ran {
    match t
    case Token(arg) => RunArg(arg, env, word)
    case TokenWithValue => Bail
    case Nothing => Ran(None, [])
    case If(unless, c, yes, no) =>
      if c.OtherCond? then Bail
      else
        (match Eval(SubjectOf(c), env, word)
         case None => Bail
         case Some(v) => Capture(Seen(c, v), if Holds(c, v) != unless then Run(yes, env, word) else Run(no, env, word)))
    case Case(None, whens) => RunBare(whens, env, word)
    case Case(Some(s), whens) =>
      (match Eval(s, env, word)
       case None => Bail
       case Some(v) => RunWhens(whens, v, env, word))
    case OtherTree => Bail
  }

  function RunWhens(w: Whens, v: Val, env: Locals, word: Val): Ran {
    match w
    case Otherwise(body) => Run(body, env, word)
    case When(items, body, rest) =>
      if v.Str? && Some(v.s) in items then Run(body, env, word) else RunWhens(rest, v, env, word)
  }

  /** A `case` without a subject takes the first `when` with a truthy item, and a literal is one. */
  function RunBare(w: Whens, env: Locals, word: Val): Ran {
    match w
    case Otherwise(body) => Run(body, env, word)
    case When(items, body, rest) => if items != [] then Run(body, env, word) else RunBare(rest, env, word)
  }

  function RunBinds(binds: seq<(string, Subject)>, env: Locals, word: Val): Option<Locals>
    decreases |binds|
  {
    if binds == [] then Some(env)
    else
      match Eval(binds[0].1, env, word)
      case None => None
      case Some(v) => RunBinds(binds[1..], env[binds[0].0 := v], word)
  }

  function RunBlock(c: Classifier, word: Val): Ran {
    match RunBinds(c.binds, map[c.param := Match], word)
    case None => Bail
    case Some(env) => Run(c.body, env, word)
  }

  /** What the block does on a word: its one token, or no token, or an exception. */
  function TokenFor(c: Classifier, w: string): Option<TokenId> {
    match RunBlock(c, Str(w))
    case Ran(tok, _) => tok
    case Bail => None
  }

  // ---- comparisons the gate does not see ----

  /** The literals compared inside the argument of a `token` call. */
  function ArgHidden(a: TokArg): seq<string> {
    match a
    case Const(_) => []
    case Pick(c, yes, no) => (if c.Equals? then [c.lit] else []) + (ArgHidden(yes) + ArgHidden(no))
  }

  function Hidden(t: Tree): seq<string> {
    match t
    case Token(arg) => ArgHidden(arg)
    case If(_, _, yes, no) => Hidden(yes) + Hidden(no)
    case Case(_, whens) => HiddenIn(whens)
    case TokenWithValue => []
    case Nothing => []
    case OtherTree => []
  }

  function HiddenIn(w: Whens): seq<string> {
    match w
    case Otherwise(body) => Hidden(body)
    case When(_, body, rest) => Hidden(body) + HiddenIn(rest)
  }

  // ---- the probe's path ----

  /** The locals of the probe run with the word in place of the probe. */
  predicate Mirrors(probe: Locals, actual: Locals, w: string) {
    && probe.Keys == actual.Keys
    && forall k | k in probe :: actual[k] == (if probe[k].Probe? then Str(w) else probe[k]) && !probe[k].Str?
  }

  predicate InNone(sets: seq<seq<string>>, w: string) {
    forall i | 0 <= i < |sets| :: w !in sets[i]
  }

  lemma {:induction false} NotAnItem(items: seq<Option<string>>, w: string)
    requires ItemLiterals(items).Some? && w !in ItemLiterals(items).value
    ensures Some(w) !in items
  {
    if items == [] {
    } else {
      NotAnItem(items[1..], w);
    }
  }

  lemma {:induction false} ArgIsShared(a: TokArg, probe: Locals, actual: Locals, w: string)
    requires Mirrors(probe, actual, w) && w !in ArgHidden(a)
    requires RunArg(a, probe, Probe).Ran? && InNone(RunArg(a, probe, Probe).captured, w)
    ensures RunArg(a, actual, Str(w)).Ran? && RunArg(a, actual, Str(w)).tok == RunArg(a, probe, Probe).tok
    decreases a
  {
    match a
    case Const(_) =>
    case Pick(c, yes, no) =>
      var v := Eval(SubjectOf(c), probe, Probe).value;
      var inner := RunArg(no, probe, Probe);
      if c.Equals? {
        assert ([c.lit] + (ArgHidden(yes) + ArgHidden(no)))[0] == c.lit;
      } else if v.Probe? {
        assert Seen(c, v)[0] == c.words;
      }
      CapturedToo(Seen(c, v), inner.captured, w);
      ArgIsShared(no, probe, actual, w);
  }

  lemma {:induction false} PathIsShared(t: Tree, param: string, aliases: set<string>, probe: Locals, actual: Locals, w: string)
    requires Mirrors(probe, actual, w) && TreeLiterals(t, param, aliases).Some? && w !in TreeLiterals(t, param, aliases).value
    requires w !in Hidden(t)
    requires Run(t, probe, Probe).Ran? && InNone(Run(t, probe, Probe).captured, w)
    ensures Run(t, actual, Str(w)).Ran? && Run(t, actual, Str(w)).tok == Run(t, probe, Probe).tok
    decreases t
  {
    match t
    case If(unless, c, yes, no) =>
      var v := Eval(SubjectOf(c), probe, Probe).value;
      var next := if unless then yes else no;
      var inner := Run(next, probe, Probe);
      if c.Equals? {
        assert CondLiterals(c, param, aliases).value[0] == c.lit && c.lit in TreeLiterals(t, param, aliases).value;
      } else if v.Probe? {
        assert Seen(c, v)[0] == c.words;
      }
      assert Run(t, probe, Probe) == Capture(Seen(c, v), inner);
      CapturedToo(Seen(c, v), inner.captured, w);
      PathIsShared(next, param, aliases, probe, actual, w);
    case Case(None, whens) => BareIsShared(whens, param, aliases, probe, actual, w);
    case Case(Some(s), whens) =>
      WhensAreShared(whens, Eval(s, probe, Probe).value, Eval(s, actual, Str(w)).value, param, aliases, probe, actual, w);
    case Token(arg) => ArgIsShared(arg, probe, actual, w);
    case TokenWithValue =>
    case Nothing =>
    case OtherTree =>
  }

  lemma CapturedToo(a: seq<seq<string>>, b: seq<seq<string>>, w: string)
    requires InNone(a + b, w)
    ensures InNone(a, w) && InNone(b, w)
  {
    assert forall i | 0 <= i < |a| :: a[i] == (a + b)[i];
    assert forall i | 0 <= i < |b| :: b[i] == (a + b)[|a| + i];
  }

  lemma {:induction false} BareIsShared(whens: Whens, param: string, aliases: set<string>, probe: Locals, actual: Locals, w: string)
    requires Mirrors(probe, actual, w) && WhenLiterals(whens, param, aliases).Some? && w !in WhenLiterals(whens, param, aliases).value
    requires w !in HiddenIn(whens)
    requires RunBare(whens, probe, Probe).Ran? && InNone(RunBare(whens, probe, Probe).captured, w)
    ensures RunBare(whens, actual, Str(w)).Ran? && RunBare(whens, actual, Str(w)).tok == RunBare(whens, probe, Probe).tok
    decreases whens
  {
    match whens
    case Otherwise(body) => PathIsShared(body, param, aliases, probe, actual, w);
    case When(items, body, rest) =>
      if items != [] {
        PathIsShared(body, param, aliases, probe, actual, w);
      } else {
        BareIsShared(rest, param, aliases, probe, actual, w);
      }
  }

  lemma {:induction false} WhensAreShared(whens: Whens, v: Val, u: Val, param: string, aliases: set<string>, probe: Locals, actual: Locals, w: string)
    requires !v.Str? && (u == v || u == Str(w))
    requires Mirrors(probe, actual, w) && WhenLiterals(whens, param, aliases).Some? && w !in WhenLiterals(whens, param, aliases).value
    requires w !in HiddenIn(whens)
    requires RunWhens(whens, v, probe, Probe).Ran? && InNone(RunWhens(whens, v, probe, Probe).captured, w)
    ensures RunWhens(whens, u, actual, Str(w)).Ran? && RunWhens(whens, u, actual, Str(w)).tok == RunWhens(whens, v, probe, Probe).tok
    decreases whens
  {
    match whens
    case Otherwise(body) => PathIsShared(body, param, aliases, probe, actual, w);
    case When(items, body, rest) =>
      NotAnItem(items, w);
      WhensAreShared(rest, v, u, param, aliases, probe, actual, w);
  }

  lemma {:induction false} BindsMirror(binds: seq<(string, Subject)>, probe: Locals, actual: Locals, w: string)
    requires Mirrors(probe, actual, w) && RunBinds(binds, probe, Probe).Some?
    ensures RunBinds(binds, actual, Str(w)).Some? && Mirrors(RunBinds(binds, probe, Probe).value, RunBinds(binds, actual, Str(w)).value, w)
    decreases |binds|
  {
    if binds == [] {
    } else {
      var (name, s) := binds[0];
      var v, u := Eval(s, probe, Probe).value, Eval(s, actual, Str(w)).value;
      BindsMirror(binds[1..], probe[name := v], actual[name := u], w);
    }
  }

  /** A word outside every captured set and literal, hidden ones included, takes the probe's own path. */
  lemma UnlistedTakesProbePath(c: Classifier, w: string)
    requires Literals(c).Some? && w !in Literals(c).value && w !in Hidden(c.body)
    requires RunBlock(c, Probe).Ran? && InNone(RunBlock(c, Probe).captured, w)
    ensures TokenFor(c, w) == RunBlock(c, Probe).tok
  {
    var probe, actual := RunBinds(c.binds, map[c.param := Match], Probe), RunBinds(c.binds, map[c.param := Match], Str(w));
    BindsMirror(c.binds, map[c.param := Match], map[c.param := Match], w);
    PathIsShared(c.body, c.param, BindAliases(c.binds, c.param, {}).value, probe.value, actual.value, w);
  }

  // ---- the tabulation ----

  function Flat(sets: seq<seq<string>>): (r: seq<string>)
    ensures forall w :: w in r <==> exists i :: 0 <= i < |sets| && w in sets[i]
  {
    if sets == [] then []
    else
      assert sets == [sets[0]] + sets[1..];
      sets[0] + Flat(sets[1..])
  }

  /** The words that are run one by one: the literals and every captured set. */
  function Candidates(c: Classifier): seq<string> {
    match (Literals(c), RunBlock(c, Probe))
    case (Some(lits), Ran(_, captured)) => lits + Flat(captured)
    case _ => []
  }

  /** When a block is upgraded. */
  ghost predicate Accepts(c: Classifier) {
    && Literals(c).Some? && RunBlock(c, Probe).Ran? && RunBlock(c, Probe).tok.Some?
    && Candidates(c) != [] && forall w | w in Candidates(c) :: TokenFor(c, w).Some?
  }

  type Row = (TokenId, set<string>)

  /** Each word under its own token and no other; words of the default token under none. */
  predicate Tabulates(rows: seq<Row>, c: Classifier, words: seq<string>, defaultTok: TokenId) {
    && (forall i, w | 0 <= i < |rows| && w in rows[i].1 :: w in words && TokenFor(c, w) == Some(rows[i].0))
    && (forall w | w in words && TokenFor(c, w) != Some(defaultTok) :: exists i :: 0 <= i < |rows| && w in rows[i].1)
    && (forall i | 0 <= i < |rows| :: rows[i].0 != defaultTok)
  }

  lemma {:induction false} LookupFinds(rows: seq<Row>, defaultTok: TokenId, w: string)
    ensures (forall i | 0 <= i < |rows| :: w !in rows[i].1) ==> Classify(rows, defaultTok, w) == defaultTok
    ensures (exists i | 0 <= i < |rows| :: w in rows[i].1) ==>
              exists i | 0 <= i < |rows| :: w in rows[i].1 && Classify(rows, defaultTok, w) == rows[i].0
    decreases |rows|
  {
    if rows == [] {
    } else {
      LookupFinds(rows[1..], defaultTok, w);
      assert forall i | 1 <= i < |rows| :: rows[i] == rows[1..][i - 1];
      if w !in rows[0].1 && exists i | 0 <= i < |rows| :: w in rows[i].1 {
        var i :| 0 <= i < |rows[1..]| && w in rows[1..][i].1 && Classify(rows[1..], defaultTok, w) == rows[1..][i].0;
        assert rows[i + 1] == rows[1..][i];
      }
    }
  }

  /** Looking the word up gives the block's own token. */
  predicate ExactOn(c: Classifier, rows: seq<Row>, defaultTok: TokenId, w: string) {
    TokenFor(c, w) == Some(Classify(rows, defaultTok, w))
  }

  /** Every literal compared inside a token argument is a listed word, or gets the default token. */
  predicate HiddenHarmless(c: Classifier, defaultTok: TokenId) {
    forall i | 0 <= i < |Hidden(c.body)| ::
      Hidden(c.body)[i] in Candidates(c) || TokenFor(c, Hidden(c.body)[i]) == Some(defaultTok)
  }

  /** The table of the finished loop classifies every word as the block does, listed or not, but for the hidden literals. */
  lemma TableIsExact(c: Classifier, rows: seq<Row>, defaultTok: TokenId, w: string)
    requires Accepts(c) && RunBlock(c, Probe).tok == Some(defaultTok) && Tabulates(rows, c, Candidates(c), defaultTok)
    ensures w in Candidates(c) || w !in Hidden(c.body) ==> ExactOn(c, rows, defaultTok, w)
    ensures w !in Candidates(c) ==> Classify(rows, defaultTok, w) == defaultTok
  {
    hide RunBlock, Literals, TokenFor, Hidden;
    LookupFinds(rows, defaultTok, w);
    if w !in Candidates(c) && w !in Hidden(c.body) {
      UnlistedTakesProbePath(c, w);
    }
  }

  /** Exactly when the table is right about every word. */
  lemma ExactIffHarmless(c: Classifier, rows: seq<Row>, defaultTok: TokenId)
    requires Accepts(c) && RunBlock(c, Probe).tok == Some(defaultTok) && Tabulates(rows, c, Candidates(c), defaultTok)
    ensures (forall w :: ExactOn(c, rows, defaultTok, w)) <==> HiddenHarmless(c, defaultTok)
  {
    hide RunBlock, Literals, TokenFor, Hidden, Candidates, Accepts, Tabulates;
    forall w ensures w in Candidates(c) || w !in Hidden(c.body) ==> ExactOn(c, rows, defaultTok, w)
             ensures w !in Candidates(c) ==> Classify(rows, defaultTok, w) == defaultTok {
      TableIsExact(c, rows, defaultTok, w);
    }
    if HiddenHarmless(c, defaultTok) {
      forall w ensures ExactOn(c, rows, defaultTok, w) {
        if w in Hidden(c.body) && w !in Candidates(c) {
          var i :| 0 <= i < |Hidden(c.body)| && Hidden(c.body)[i] == w;
        }
      }
    } else {
      var i :| 0 <= i < |Hidden(c.body)| && Hidden(c.body)[i] !in Candidates(c) && TokenFor(c, Hidden(c.body)[i]) != Some(defaultTok);
      assert !ExactOn(c, rows, defaultTok, Hidden(c.body)[i]);
    }
  }

  /** `if KW.include?(m[0]) then token A else token(m[0] == "x" ? C : B) end`, with a keyword "k". */
  const HIDDEN := Classifier("m", [], If(false, Include(["k"], Zeroth("m")), Token(Const(0)),
                                         Token(Pick(Equals(Zeroth("m"), "x"), Const(2), Const(1)))))

  lemma HiddenRuns()
    ensures Literals(HIDDEN) == Some([]) && RunBlock(HIDDEN, Probe) == Ran(Some(1), [["k"]])
    ensures TokenFor(HIDDEN, "k") == Some(0) && TokenFor(HIDDEN, "x") == Some(2)
  {
    var If(_, c, yes, no) := HIDDEN.body;
    var none: seq<string>, env: Locals, sets: seq<seq<string>> := [], map["m" := Match], [["k"]];
    assert none + (none + none) == none && sets + [] == sets;
    assert TreeLiterals(yes, "m", {}) == Some(none) && TreeLiterals(no, "m", {}) == Some(none) && CondLiterals(c, "m", {}) == Some(none);
    assert Run(no, env, Probe) == Ran(Some(1), []) && Run(yes, env, Str("k")) == Ran(Some(0), []) && Run(no, env, Str("x")) == Ran(Some(2), []);
  }

  /** The block is accepted and gives "x" the token C; its table gives B. */
  lemma HiddenComparisonDiffers(rows: seq<Row>)
    ensures Accepts(HIDDEN) && RunBlock(HIDDEN, Probe).tok == Some(1) && TokenFor(HIDDEN, "x") == Some(2)
    ensures Tabulates(rows, HIDDEN, Candidates(HIDDEN), 1) ==> Classify(rows, 1, "x") == 1
  {
    hide Literals, RunBlock, TokenFor, Tabulates;
    HiddenRuns();
    var sets: seq<seq<string>> := [["k"]];
    assert sets[1..] == [] && Flat(sets) == ["k"];
    assert Candidates(HIDDEN) == ["k"];
    if Tabulates(rows, HIDDEN, Candidates(HIDDEN), 1) {
      TableIsExact(HIDDEN, rows, 1, "x");
    }
  }

  /** `rows` with `w` added under `tok`: in row k, or in a new last row. */
  predicate AddedAt(rows: seq<Row>, r: seq<Row>, tok: TokenId, w: string, k: nat) {
    if k < |rows| then rows[k].0 == tok && r == rows[k := (tok, rows[k].1 + {w})]
    else r == rows + [(tok, {w})]
  }

  method AddUnder(rows: seq<Row>, tok: TokenId, w: string) returns (r: seq<Row>, ghost at: nat)
    ensures AddedAt(rows, r, tok, w, at)
  {
    for k := 0 to |rows| {
      if rows[k].0 == tok {
        return rows[k := (tok, rows[k].1 + {w})], k;
      }
    }
    return rows + [(tok, {w})], |rows|;
  }

  lemma AddedTabulates(rows: seq<Row>, r: seq<Row>, c: Classifier, words: seq<string>, defaultTok: TokenId, w: string, k: nat)
    requires Tabulates(rows, c, words, defaultTok)
    requires TokenFor(c, w).Some? && TokenFor(c, w) != Some(defaultTok) && AddedAt(rows, r, TokenFor(c, w).value, w, k)
    ensures Tabulates(r, c, words + [w], defaultTok)
  {
    hide TokenFor;
    var at := if k < |rows| then k else |rows|;
    assert r[at].0 == TokenFor(c, w).value && w in r[at].1;
    forall v | v in words + [w] && TokenFor(c, v) != Some(defaultTok) ensures exists i :: 0 <= i < |r| && v in r[i].1 {
      if v != w {
        var i :| 0 <= i < |rows| && v in rows[i].1;
        assert v in r[i].1;
      }
    }
  }

  /** `try_wordlist`: accept exactly the tabulable blocks, and classify every word as they do, hidden comparisons permitting. */
  method TryWordlist(c: Classifier) returns (r: Option<(seq<Row>, TokenId)>)
    ensures r.Some? <==> Accepts(c)
    ensures r.Some? ==> forall w | w in Candidates(c) || w !in Hidden(c.body) :: ExactOn(c, r.value.0, r.value.1, w)
    ensures r.Some? ==> ((forall w :: ExactOn(c, r.value.0, r.value.1, w)) <==> HiddenHarmless(c, r.value.1))
  {
    hide RunBlock, Literals, TokenFor, Hidden, HiddenHarmless;
    var lits := Literals(c);
    if lits.None? {
      return None;
    }
    var probe := RunBlock(c, Probe);
    if probe.Bail? || probe.tok.None? {
      return None;
    }
    var defaultTok := probe.tok.value;
    var words := lits.value;
    for i := 0 to |probe.captured|
      invariant words + Flat(probe.captured[i..]) == Candidates(c)
    {
      assert probe.captured[i..][0] == probe.captured[i] && probe.captured[i..][1..] == probe.captured[i + 1..];
      assert words + (probe.captured[i] + Flat(probe.captured[i + 1..])) == words + probe.captured[i] + Flat(probe.captured[i + 1..]);
      words := words + probe.captured[i];
    }
    if words == [] {
      return None;
    }
    var rows: seq<Row> := [];
    for i := 0 to |words|
      invariant forall w | w in words[..i] :: TokenFor(c, w).Some?
      invariant Tabulates(rows, c, words[..i], defaultTok)
    {
      var tok := TokenFor(c, words[i]);
      assert words[..i + 1] == words[..i] + [words[i]];
      if tok.None? {
        return None;
      }
      if tok.value != defaultTok {
        ghost var before, at := rows, 0;
        rows, at := AddUnder(rows, tok.value, words[i]);
        AddedTabulates(before, rows, c, words[..i], defaultTok, words[i], at);
      }
    }
    assert words[..|words|] == words == Candidates(c);
    forall w | w in Candidates(c) || w !in Hidden(c.body) ensures ExactOn(c, rows, defaultTok, w) {
      TableIsExact(c, rows, defaultTok, w);
    }
    ExactIffHarmless(c, rows, defaultTok);
    r := Some((rows, defaultTok));
  }
}
