/**
 Rule search through mixins. On acyclic tables a state stands for a flat list of rules;
 the search fires the first of them that passes its checks, and the look for callback rules
 finds the first callback of the same list. On cyclic tables that look still ends, and it
 finds nothing exactly when no callback is reachable.
 */
module CarmineMixins {
  import opened Common
  import opened CarmineTable
  import opened CarmineEngine

  predicate MixinRule(t: LexerTable, s: nat, ri: nat, other: nat) {
    ri < |Rules(t, s)| && Rules(t, s)[ri].kind.KMixin? && Rules(t, s)[ri].kind.state == other
  }

  predicate CallbackRule(t: LexerTable, s: nat, ri: nat) {
    ri < |Rules(t, s)| && Rules(t, s)[ri].kind.KCallback?
  }

  // ---- acyclic tables ----

  function Rank(rank: seq<nat>, s: nat): nat {
    if s < |rank| then rank[s] else 0
  }

  /** Mixins are declared and rank below the state that mixes them in. */
  ghost predicate Acyclic(t: LexerTable, rank: seq<nat>) {
    forall s: nat, ri: nat, other: nat :: MixinRule(t, s, ri, other) ==> other < |t.states| && Rank(rank, other) < Rank(rank, s)
  }

  /** The rules of a state from index `ri` on, with mixins replaced by their rules. */
  ghost function FlatFrom(t: LexerTable, rank: seq<nat>, s: nat, ri: nat): seq<(nat, nat)>
    requires Acyclic(t, rank)
    decreases Rank(rank, s), if ri <= |Rules(t, s)| then |Rules(t, s)| - ri else 0
  {
    if ri >= |Rules(t, s)| then []
    else if Rules(t, s)[ri].kind.KMixin? then
      assert MixinRule(t, s, ri, Rules(t, s)[ri].kind.state);
      FlatFrom(t, rank, Rules(t, s)[ri].kind.state, 0) + FlatFrom(t, rank, s, ri + 1)
    else [(s, ri)] + FlatFrom(t, rank, s, ri + 1)
  }

  ghost function Flat(t: LexerTable, rank: seq<nat>, s: nat): seq<(nat, nat)>
    requires Acyclic(t, rank)
  {
    FlatFrom(t, rank, s, 0)
  }

  predicate PlainRule(t: LexerTable, r: (nat, nat)) {
    r.1 < |Rules(t, r.0)| && !Rules(t, r.0)[r.1].kind.KMixin?
  }

  predicate AllPlain(t: LexerTable, rules: seq<(nat, nat)>) {
    forall i | 0 <= i < |rules| :: PlainRule(t, rules[i])
  }

  /** Fire the first rule of a list that passes the line check and matches. */
  function FireFirst(t: LexerTable, text: string, lx: Lx, rules: seq<(nat, nat)>): Res<Hit>
    requires InText(lx, text) && AllPlain(t, rules)
    decreases |rules|
  {
    if rules == [] then Ok(Miss)
    else
      assert PlainRule(t, rules[0]);
      var rule := Rules(t, rules[0].0)[rules[0].1];
      if !BolOk(rule, text, lx.pos) || MatchAt(rule, text, lx.pos).None? then FireFirst(t, text, lx, rules[1..])
      else Fire(t, text, lx, rules[0].0, rules[0].1, MatchAt(rule, text, lx.pos).value)
  }

  lemma {:induction false} FlatPlain(t: LexerTable, rank: seq<nat>, s: nat, ri: nat)
    requires Acyclic(t, rank)
    ensures AllPlain(t, FlatFrom(t, rank, s, ri))
    decreases Rank(rank, s), if ri <= |Rules(t, s)| then |Rules(t, s)| - ri else 0
  {
    if ri < |Rules(t, s)| {
      FlatPlain(t, rank, s, ri + 1);
      if Rules(t, s)[ri].kind.KMixin? {
        assert MixinRule(t, s, ri, Rules(t, s)[ri].kind.state);
        FlatPlain(t, rank, Rules(t, s)[ri].kind.state, 0);
      }
    }
  }

  lemma {:induction false} FireFirstConcat(t: LexerTable, text: string, lx: Lx, a: seq<(nat, nat)>, b: seq<(nat, nat)>)
    requires InText(lx, text) && AllPlain(t, a) && AllPlain(t, b)
    ensures AllPlain(t, a + b)
    ensures FireFirst(t, text, lx, a + b)
         == if FireFirst(t, text, lx, a) == Ok(Miss) then FireFirst(t, text, lx, b) else FireFirst(t, text, lx, a)
    decreases |a|
  {
    hide Fire, BolOk;
    if a == [] {
      assert a + b == b;
    } else {
      assert (a + b)[0] == a[0] && (a + b)[1..] == a[1..] + b;
      assert PlainRule(t, a[0]);
      FireFirstConcat(t, text, lx, a[1..], b);
    }
  }

  /** The search with mixins is the search of the flat list. */
  lemma {:induction false} EnterIsFlat(t: LexerTable, rank: seq<nat>, text: string, lx: Lx, s: nat, path: set<nat>)
    requires Acyclic(t, rank) && InText(lx, text) && s < |t.states|
    requires forall p | p in path :: Rank(rank, p) > Rank(rank, s)
    ensures AllPlain(t, Flat(t, rank, s))
    ensures Enter(t, text, lx, s, path) == FireFirst(t, text, lx, Flat(t, rank, s))
    decreases Rank(rank, s), 1 + |Rules(t, s)|
  {
    hide Fire, BolOk;
    StepIsFlat(t, rank, text, lx, s, 0, path + {s});
  }

  lemma {:induction false} StepIsFlat(t: LexerTable, rank: seq<nat>, text: string, lx: Lx, s: nat, ri: nat, path: set<nat>)
    requires Acyclic(t, rank) && InText(lx, text) && ri <= |Rules(t, s)|
    requires forall p | p in path :: Rank(rank, p) >= Rank(rank, s)
    ensures AllPlain(t, FlatFrom(t, rank, s, ri))
    ensures Step(t, text, lx, s, ri, path) == FireFirst(t, text, lx, FlatFrom(t, rank, s, ri))
    decreases Rank(rank, s), |Rules(t, s)| - ri
  {
    hide Fire, BolOk;
    FlatPlain(t, rank, s, ri);
    if ri < |Rules(t, s)| {
      StepIsFlat(t, rank, text, lx, s, ri + 1, path);
      if Rules(t, s)[ri].kind.KMixin? {
        var other := Rules(t, s)[ri].kind.state;
        assert MixinRule(t, s, ri, other);
        EnterIsFlat(t, rank, text, lx, other, path);
        FireFirstConcat(t, text, lx, Flat(t, rank, other), FlatFrom(t, rank, s, ri + 1));
      } else {
        var flat := FlatFrom(t, rank, s, ri);
        assert flat[0] == (s, ri) && flat[1..] == FlatFrom(t, rank, s, ri + 1);
      }
    }
  }

  // ---- the first callback of the flat list ----

  function FirstCallback(t: LexerTable, rules: seq<(nat, nat)>): Option<(nat, nat)>
    decreases |rules|
  {
    if rules == [] then None
    else if CallbackRule(t, rules[0].0, rules[0].1) then Some(rules[0])
    else FirstCallback(t, rules[1..])
  }

  lemma {:induction false} FirstCallbackConcat(t: LexerTable, a: seq<(nat, nat)>, b: seq<(nat, nat)>)
    ensures FirstCallback(t, a + b)
         == if FirstCallback(t, a).Some? then FirstCallback(t, a) else FirstCallback(t, b)
    decreases |a|
  {
    if a == [] {
      assert a + b == b;
    } else {
      assert (a + b)[0] == a[0] && (a + b)[1..] == a[1..] + b;
      FirstCallbackConcat(t, a[1..], b);
    }
  }

  ghost predicate NoCallback(t: LexerTable, rank: seq<nat>, s: nat)
    requires Acyclic(t, rank)
  {
    FirstCallback(t, Flat(t, rank, s)).None?
  }

  /** Skipping states already seen loses nothing: they are under search themselves, or hold no callback. */
  lemma {:induction false} FindCallbackIsFlat(t: LexerTable, rank: seq<nat>, s: nat, seen: seq<nat>)
    requires Acyclic(t, rank) && s < |t.states|
    requires forall x | x in seen :: Rank(rank, x) > Rank(rank, s) || NoCallback(t, rank, x)
    ensures var (hit, seen1) := FindCallback(t, s, seen);
            && hit == FirstCallback(t, Flat(t, rank, s))
            && (hit.None? ==> forall x | x in seen1 :: x in seen || NoCallback(t, rank, x))
    decreases Rank(rank, s), 1 + |Rules(t, s)|
  {
    hide FirstCallback;
    if s !in seen {
      FindCallbackInIsFlat(t, rank, s, 0, seen + [s]);
    }
  }

  lemma {:induction false} FindCallbackInIsFlat(t: LexerTable, rank: seq<nat>, s: nat, ri: nat, seen: seq<nat>)
    requires Acyclic(t, rank) && ri <= |Rules(t, s)|
    requires forall x | x in seen :: Rank(rank, x) >= Rank(rank, s) || NoCallback(t, rank, x)
    ensures var (hit, seen1) := FindCallbackIn(t, s, ri, seen);
            && hit == FirstCallback(t, FlatFrom(t, rank, s, ri))
            && (hit.None? ==> forall x | x in seen1 :: x in seen || NoCallback(t, rank, x))
    decreases Rank(rank, s), |Rules(t, s)| - ri
  {
    hide NoCallback;
    if ri < |Rules(t, s)| {
      var flat := FlatFrom(t, rank, s, ri);
      match Rules(t, s)[ri].kind
      case KMixin(other) =>
        hide FirstCallback;
        assert MixinRule(t, s, ri, other);
        FindCallbackIsFlat(t, rank, other, seen);
        FirstCallbackConcat(t, Flat(t, rank, other), FlatFrom(t, rank, s, ri + 1));
        var (hit, seen1) := FindCallback(t, other, seen);
        if hit.None? {
          FindCallbackInIsFlat(t, rank, s, ri + 1, seen1);
        }
      case KCallback =>
        assert flat[0] == (s, ri);
      case _ =>
        assert flat[0] == (s, ri) && flat[1..] == FlatFrom(t, rank, s, ri + 1);
        FindCallbackInIsFlat(t, rank, s, ri + 1, seen);
    }
  }

  /** Both searches of a state, callback or not, go through one list of rules. */
  lemma OneList(t: LexerTable, rank: seq<nat>, text: string, lx: Lx, s: nat)
    requires Acyclic(t, rank) && InText(lx, text) && s < |t.states|
    ensures AllPlain(t, Flat(t, rank, s))
    ensures Enter(t, text, lx, s, {}) == FireFirst(t, text, lx, Flat(t, rank, s))
    ensures FindCallback(t, s, []).0 == FirstCallback(t, Flat(t, rank, s))
  {
    EnterIsFlat(t, rank, text, lx, s, {});
    FindCallbackIsFlat(t, rank, s, []);
  }

  // ---- cyclic tables ----

  /** `path` follows mixins. */
  ghost predicate MixinPath(t: LexerTable, path: seq<nat>) {
    path != [] && forall i | 0 <= i < |path| - 1 :: Mixes(t, path[i], path[i + 1])
  }

  ghost predicate Mixes(t: LexerTable, s: nat, other: nat) {
    exists ri :: MixinRule(t, s, ri, other)
  }

  ghost predicate HasCallback(t: LexerTable, s: nat) {
    exists ri :: CallbackRule(t, s, ri)
  }

  ghost predicate CallbackReachable(t: LexerTable, s: nat) {
    exists path :: MixinPath(t, path) && path[0] == s && HasCallback(t, Last(path))
  }

  /** The states added since `seen` are settled: no callback of their own, and every mixin already seen. */
  ghost predicate Settled(t: LexerTable, seen: seq<nat>, seen1: seq<nat>) {
    forall x | x in seen1 && x !in seen :: Closed(t, x, seen1)
  }

  ghost predicate Closed(t: LexerTable, x: nat, seen: seq<nat>) {
    && !HasCallback(t, x)
    && forall other: nat | Mixes(t, x, other) :: other in seen || other >= |t.states|
  }

  lemma {:induction false} NoneSettles(t: LexerTable, s: nat, seen: seq<nat>)
    requires FindCallback(t, s, seen).0.None?
    ensures var seen1 := FindCallback(t, s, seen).1;
            Settled(t, seen, seen1) && (s in seen1 || s >= |t.states|)
    decreases |StatesOf(|t.states|) - Members(seen)|, 0
  {
    if s !in seen && s < |t.states| {
      SeenGrows(t, seen, [s], s);
      NoneSettlesIn(t, s, 0, seen + [s]);
      var seen1 := FindCallback(t, s, seen).1;
      assert seen1[|seen|] == s;
      SettledRules(t, s, seen1);
      forall x | x in seen1 && x !in seen ensures Closed(t, x, seen1) {
        if x != s { assert x !in seen + [s]; }
      }
    }
  }

  ghost predicate RuleSettled(t: LexerTable, s: nat, ri: nat, seen: seq<nat>)
    requires ri < |Rules(t, s)|
  {
    match Rules(t, s)[ri].kind
    case KCallback => false
    case KMixin(other) => other in seen || other >= |t.states|
    case _ => true
  }

  lemma SettledRules(t: LexerTable, s: nat, seen: seq<nat>)
    requires forall ri: nat | ri < |Rules(t, s)| :: RuleSettled(t, s, ri, seen)
    ensures Closed(t, s, seen)
  {
    forall ri: nat ensures !CallbackRule(t, s, ri) {
      if ri < |Rules(t, s)| { assert RuleSettled(t, s, ri, seen); }
    }
    forall other: nat | Mixes(t, s, other) ensures other in seen || other >= |t.states| {
      var ri :| MixinRule(t, s, ri, other);
      assert RuleSettled(t, s, ri, seen);
    }
  }

  lemma ClosedGrows(t: LexerTable, seen: seq<nat>, seen1: seq<nat>, seen2: seq<nat>)
    requires seen <= seen1 <= seen2 && Settled(t, seen, seen1) && Settled(t, seen1, seen2)
    ensures Settled(t, seen, seen2)
  {
    forall x | x in seen2 && x !in seen ensures Closed(t, x, seen2) {
      if x in seen1 {
        assert Closed(t, x, seen1);
        forall other: nat | Mixes(t, x, other) ensures other in seen2 || other >= |t.states| {
          assert other in seen1 ==> other in seen2;
        }
      }
    }
  }

  lemma {:induction false} NoneSettlesIn(t: LexerTable, s: nat, ri: nat, seen: seq<nat>)
    requires FindCallbackIn(t, s, ri, seen).0.None?
    ensures var seen1 := FindCallbackIn(t, s, ri, seen).1;
            && Settled(t, seen, seen1)
            && forall r: nat | ri <= r < |Rules(t, s)| :: RuleSettled(t, s, r, seen1)
    decreases |StatesOf(|t.states|) - Members(seen)|, 1 + if ri <= |Rules(t, s)| then |Rules(t, s)| - ri else 0
  {
    if ri < |Rules(t, s)| {
      match Rules(t, s)[ri].kind
      case KCallback =>
      case KMixin(other) =>
        NoneSettles(t, other, seen);
        var seen1 := FindCallback(t, other, seen).1;
        SeenKeeps(t, seen, seen1);
        NoneSettlesIn(t, s, ri + 1, seen1);
        var seen2 := FindCallbackIn(t, s, ri, seen).1;
        ClosedGrows(t, seen, seen1, seen2);
        assert other in seen1 ==> other in seen2;
      case _ =>
        NoneSettlesIn(t, s, ri + 1, seen);
    }
  }

  lemma {:induction false} PathStays(t: LexerTable, seen: seq<nat>, path: seq<nat>)
    requires Settled(t, [], seen) && MixinPath(t, path) && (path[0] in seen || path[0] >= |t.states|)
    ensures !HasCallback(t, Last(path))
    decreases |path|
  {
    if path[0] < |t.states| {
      assert Closed(t, path[0], seen);
    }
    if |path| > 1 {
      assert Mixes(t, path[0], path[1]);
      var rest := path[1..];
      forall i | 0 <= i < |rest| - 1 ensures Mixes(t, rest[i], rest[i + 1]) {
        assert Mixes(t, path[i + 1], path[i + 2]);
      }
      PathStays(t, seen, rest);
    }
  }

  /** A callback that was found is reachable. */
  lemma {:induction false} FoundIsReachable(t: LexerTable, s: nat, seen: seq<nat>) returns (path: seq<nat>)
    requires FindCallback(t, s, seen).0.Some?
    ensures var (x, ri) := FindCallback(t, s, seen).0.value;
            MixinPath(t, path) && path[0] == s && Last(path) == x && CallbackRule(t, x, ri)
    decreases |StatesOf(|t.states|) - Members(seen)|, 0
  {
    SeenGrows(t, seen, [s], s);
    path := FoundIsReachableIn(t, s, 0, seen + [s]);
  }

  lemma {:induction false} FoundIsReachableIn(t: LexerTable, s: nat, ri: nat, seen: seq<nat>) returns (path: seq<nat>)
    requires FindCallbackIn(t, s, ri, seen).0.Some?
    ensures var (x, r) := FindCallbackIn(t, s, ri, seen).0.value;
            MixinPath(t, path) && path[0] == s && Last(path) == x && CallbackRule(t, x, r)
    decreases |StatesOf(|t.states|) - Members(seen)|, 1 + if ri <= |Rules(t, s)| then |Rules(t, s)| - ri else 0
  {
    match Rules(t, s)[ri].kind
    case KCallback => path := [s];
    case KMixin(other) =>
      var (hit, seen1) := FindCallback(t, other, seen);
      if hit.Some? {
        var tail := FoundIsReachable(t, other, seen);
        path := [s] + tail;
        assert MixinRule(t, s, ri, other);
        forall i | 0 <= i < |path| - 1 ensures Mixes(t, path[i], path[i + 1]) {
          if i > 0 { assert Mixes(t, tail[i - 1], tail[i]); }
        }
      } else {
        SeenKeeps(t, seen, seen1);
        path := FoundIsReachableIn(t, s, ri + 1, seen1);
      }
    case _ => path := FoundIsReachableIn(t, s, ri + 1, seen);
  }

  /** On any table the look for a callback finds one exactly when one is reachable through mixins. */
  lemma FindsExactlyReachable(t: LexerTable, s: nat)
    ensures FindCallback(t, s, []).0.Some? <==> CallbackReachable(t, s)
  {
    if FindCallback(t, s, []).0.Some? {
      var path := FoundIsReachable(t, s, []);
      var (x, ri) := FindCallback(t, s, []).0.value;
      assert CallbackRule(t, Last(path), ri);
    } else {
      NoneSettles(t, s, []);
      forall path | MixinPath(t, path) && path[0] == s ensures !HasCallback(t, Last(path)) {
        PathStays(t, FindCallback(t, s, []).1, path);
      }
    }
  }
}
