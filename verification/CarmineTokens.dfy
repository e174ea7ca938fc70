/**
 The token buffer. `emit` drops empty values and merges a value into the last token when
 the ids agree, so the buffer is at all times the canonical form of what was emitted.
 */
module CarmineTokens {
  import opened Common

  type TokenId = nat
  type Tokens = seq<(TokenId, string)>

  function Emit(toks: Tokens, tok: TokenId, val: string): Tokens {
    if val == [] then toks
    else if toks != [] && Last(toks).0 == tok then toks[|toks| - 1 := (tok, Last(toks).1 + val)]
    else toks + [(tok, val)]
  }

  function EmitAll(toks: Tokens, more: Tokens): Tokens
    decreases |more|
  {
    if more == [] then toks else EmitAll(Emit(toks, more[0].0, more[0].1), more[1..])
  }

  /** The buffer that a list of emissions leaves behind. */
  function Consolidate(raw: Tokens): Tokens {
    EmitAll([], raw)
  }

  /** No empty value, no two neighbours with one id. */
  predicate Canonical(toks: Tokens) {
    && (forall i | 0 <= i < |toks| :: toks[i].1 != [])
    && (forall i | 0 <= i < |toks| - 1 :: toks[i].0 != toks[i + 1].0)
  }

  function Paint(tok: TokenId, val: string): (r: seq<(TokenId, char)>)
    ensures |r| == |val| && forall i | 0 <= i < |r| :: r[i] == (tok, val[i])
  {
    seq(|val|, i requires 0 <= i < |val| => (tok, val[i]))
  }

  /** Every emitted character with its token id. */
  function Labels(toks: Tokens): seq<(TokenId, char)> {
    if toks == [] then [] else Labels(Front(toks)) + Paint(Last(toks).0, Last(toks).1)
  }

  /** The emitted text. */
  function Text(toks: Tokens): string {
    if toks == [] then [] else Text(Front(toks)) + Last(toks).1
  }

  lemma EmitStep(toks: Tokens, tok: TokenId, val: string)
    requires Canonical(toks)
    ensures Canonical(Emit(toks, tok, val))
    ensures Labels(Emit(toks, tok, val)) == Labels(toks) + Paint(tok, val)
    ensures Text(Emit(toks, tok, val)) == Text(toks) + val
  {
    var e := Emit(toks, tok, val);
    if val != [] {
      assert Front(e) == if toks != [] && Last(toks).0 == tok then Front(toks) else toks;
      if toks != [] && Last(toks).0 == tok {
        var v := Last(toks).1;
        assert Paint(tok, v) + Paint(tok, val) == Paint(tok, v + val);
        assert Text(Front(toks)) + (v + val) == Text(Front(toks)) + v + val;
        assert Labels(Front(toks)) + (Paint(tok, v) + Paint(tok, val)) == Labels(Front(toks)) + Paint(tok, v) + Paint(tok, val);
      }
    } else {
      assert Paint(tok, val) == [];
    }
  }

  lemma LabelsLast(toks: Tokens)
    requires toks != []
    ensures Labels(toks) == Labels(Front(toks)) + Paint(Last(toks).0, Last(toks).1)
    ensures Text(toks) == Text(Front(toks)) + Last(toks).1
  {
    hide Paint;
  }

  lemma LabelsOne(tok: (TokenId, string))
    ensures Labels([tok]) == Paint(tok.0, tok.1) && Text([tok]) == tok.1
  {
    hide Paint;
    assert Front([tok]) == [] && Last([tok]) == tok;
  }

  lemma {:induction false} ConsLabels(first: (TokenId, string), rest: Tokens)
    ensures Labels([first] + rest) == Paint(first.0, first.1) + Labels(rest)
    ensures Text([first] + rest) == first.1 + Text(rest)
  {
    var all := [first] + rest;
    if rest == [] {
      LabelsOne(first);
      assert all == [first] && Labels([]) == [] && Text([]) == [];
    } else {
      hide Labels, Text, Paint;
      assert Front(all) == [first] + Front(rest) && Last(all) == Last(rest);
      ConsLabels(first, Front(rest));
      LabelsLast(all);
      LabelsLast(rest);
      Regroup(Paint(first.0, first.1), Labels(Front(rest)), Paint(Last(rest).0, Last(rest).1));
      Regroup(first.1, Text(Front(rest)), Last(rest).1);
    }
  }

  lemma EmitAllNothing(toks: Tokens)
    ensures EmitAll(toks, []) == toks
    ensures Labels(toks) + Labels([]) == Labels(toks) && Text(toks) + Text([]) == Text(toks)
  {
  }

  lemma Uncons(more: Tokens)
    requires more != []
    ensures Labels(more) == Paint(more[0].0, more[0].1) + Labels(more[1..]) && Text(more) == more[0].1 + Text(more[1..])
  {
    hide Labels, Text, Paint;
    ConsLabels(more[0], more[1..]);
    assert more == [more[0]] + more[1..];
  }

  lemma {:induction false} EmitAllStep(toks: Tokens, more: Tokens)
    requires Canonical(toks)
    ensures Canonical(EmitAll(toks, more))
    ensures Labels(EmitAll(toks, more)) == Labels(toks) + Labels(more)
    ensures Text(EmitAll(toks, more)) == Text(toks) + Text(more)
    decreases |more|
  {
    hide Canonical, Labels, Text, Paint, Emit;
    if more == [] {
      EmitAllNothing(toks);
    } else {
      var (t, v) := more[0];
      EmitStep(toks, t, v);
      EmitAllStep(Emit(toks, t, v), more[1..]);
      Uncons(more);
      Regroup(Labels(toks), Paint(t, v), Labels(more[1..]));
      Regroup(Text(toks), v, Text(more[1..]));
    }
  }

  /** The labelling of the characters leaves only one canonical buffer. */
  lemma {:induction false} CanonicalUnique(x: Tokens, y: Tokens)
    requires Canonical(x) && Canonical(y) && Labels(x) == Labels(y)
    ensures x == y
    decreases |x|
  {
    if x == [] || y == [] {
    } else {
      LastRun(x, y);
      CanonicalUnique(Front(x), Front(y));
      assert x == Front(x) + [Last(x)] && y == Front(y) + [Last(y)];
    }
  }

  /** The labelling ends in a longest run of `n` characters of one id. */
  predicate EndsInRun(all: seq<(TokenId, char)>, tok: TokenId, n: nat) {
    && 0 < n <= |all|
    && (forall i | |all| - n <= i < |all| :: all[i].0 == tok)
    && (n < |all| ==> all[|all| - n - 1].0 != tok)
  }

  lemma OneLongestRun(all: seq<(TokenId, char)>, a: TokenId, n: nat, b: TokenId, m: nat)
    requires EndsInRun(all, a, n) && EndsInRun(all, b, m)
    ensures a == b && n == m
  {
    assert all[|all| - 1].0 == a == b;
  }

  /** The last character carries the id of the last token. */
  lemma LastLabel(x: Tokens)
    requires x != [] && Last(x).1 != []
    ensures Labels(x) != [] && Last(Labels(x)).0 == Last(x).0
  {
    hide Labels, Paint;
    LabelsLast(x);
  }

  lemma NeighboursDiffer(x: Tokens)
    requires |x| > 1 && Canonical(x)
    ensures Last(Front(x)).1 != [] && Last(Front(x)).0 != Last(x).0
  {
    assert Last(Front(x)) == x[|x| - 2];
  }

  lemma RunAtEnd(front: seq<(TokenId, char)>, tok: TokenId, v: string)
    requires v != [] && (front != [] ==> Last(front).0 != tok)
    ensures var all := front + Paint(tok, v);
            EndsInRun(all, tok, |v|) && all[|all| - |v|..] == Paint(tok, v) && all[..|all| - |v|] == front
  {
    hide Paint;
    var all := front + Paint(tok, v);
    if front != [] {
      assert all[|all| - |v| - 1] == Last(front);
    }
  }

  /** The last token covers exactly the longest run of its id at the end of the labelling. */
  lemma LastIsLongestRun(x: Tokens)
    requires x != [] && Canonical(x)
    ensures var (all, n) := (Labels(x), |Last(x).1|);
            && EndsInRun(all, Last(x).0, n)
            && all[|all| - n..] == Paint(Last(x).0, Last(x).1) && all[..|all| - n] == Labels(Front(x))
  {
    assert Last(x).1 != [] && Labels([]) == [];
    hide Labels, Paint, Canonical, EndsInRun;
    LabelsLast(x);
    if |x| > 1 {
      NeighboursDiffer(x);
      LastLabel(Front(x));
    }
    RunAtEnd(Labels(Front(x)), Last(x).0, Last(x).1);
  }

  lemma LastRun(x: Tokens, y: Tokens)
    requires x != [] && y != [] && Canonical(x) && Canonical(y) && Labels(x) == Labels(y)
    ensures Last(x) == Last(y) && Labels(Front(x)) == Labels(Front(y))
  {
    hide Labels, Paint, Canonical, EndsInRun;
    LastIsLongestRun(x);
    LastIsLongestRun(y);
    OneLongestRun(Labels(x), Last(x).0, |Last(x).1|, Last(y).0, |Last(y).1|);
    SamePaint(Last(x).0, Last(x).1, Last(y).1);
  }

  lemma SamePaint(tok: TokenId, v: string, w: string)
    requires Paint(tok, v) == Paint(tok, w)
    ensures v == w
  {
    forall i | 0 <= i < |v| ensures v[i] == w[i] {
      assert Paint(tok, v)[i] == (tok, v[i]) && Paint(tok, w)[i] == (tok, w[i]);
    }
  }

  lemma {:induction false} EmitAllConcat(toks: Tokens, a: Tokens, b: Tokens)
    ensures EmitAll(toks, a + b) == EmitAll(EmitAll(toks, a), b)
    decreases |a|
  {
    if a == [] {
      assert a + b == b;
    } else {
      assert (a + b)[0] == a[0] && (a + b)[1..] == a[1..] + b;
      EmitAllConcat(Emit(toks, a[0].0, a[0].1), a[1..], b);
    }
  }

  /** Splicing a consolidated stream is splicing the emissions it came from. */
  lemma SpliceConsolidated(toks: Tokens, raw: Tokens)
    requires Canonical(toks)
    ensures EmitAll(toks, Consolidate(raw)) == EmitAll(toks, raw)
  {
    EmitAllStep([], raw);
    EmitAllStep(toks, raw);
    EmitAllStep(toks, Consolidate(raw));
    assert [] + Labels(raw) == Labels(raw);
    CanonicalUnique(EmitAll(toks, Consolidate(raw)), EmitAll(toks, raw));
  }
}
