/**
 Includes are expanded at compile time. Whenever a token list with an include parses, it
 parses to the same nodes and needs as the list with the included tokens spliced in place
 of the tag, however deep inside `if` and `for` blocks the tag stands.
 */
module LiquidusInclude {
  import opened Common
  import opened LiquidusText
  import opened LiquidusSyntax
  import opened LiquidusGrammar

  predicate SuffixOf<T(==)>(rest: seq<T>, all: seq<T>) {
    |rest| <= |all| && rest == all[|all| - |rest|..]
  }

  lemma SuffixOfSelf<T>(all: seq<T>)
    ensures SuffixOf(all, all)
  {
  }

  lemma SuffixOfTail<T>(rest: seq<T>, all: seq<T>)
    requires all != [] && SuffixOf(rest, all[1..])
    ensures SuffixOf(rest, all) && |rest| < |all|
  {
  }

  lemma SuffixOfSuffix<T>(rest: seq<T>, mid: seq<T>, all: seq<T>)
    requires SuffixOf(rest, mid) && SuffixOf(mid, all)
    ensures SuffixOf(rest, all) && |rest| <= |mid|
  {
  }

  /** What is left after a block is a suffix of what was there before; at top level nothing is left. */
  lemma {:induction false} RestIsSuffix(sc: Scope, toks: seq<Tok>, stop: Option<string>, needs: seq<VarNeed>)
    requires ParseNodes(sc, toks, stop, needs).Ok?
    ensures var p := ParseNodes(sc, toks, stop, needs).value;
            && SuffixOf(p.rest, toks)
            && (stop.Some? ==> |p.rest| < |toks|)
            && (stop.None? ==> p.rest == [])
    decreases if sc.depth < MAX_INCLUDE_DEPTH then MAX_INCLUDE_DEPTH - sc.depth else 0, |toks|
  {
    hide ParseOutput, ParseCond, ParseForHead, FirstWord, TagArg, IncludedTokens, SuffixOf;
    if toks == [] {
      SuffixOfSelf(toks);
    } else {
      SuffixOfSelf(toks[1..]);
      var rest := ParseNodes(sc, toks, stop, needs).value.rest;
      match toks[0]
      case TextTok(_) =>
        RestIsSuffix(sc, toks[1..], stop, needs);
        SuffixOfTail(rest, toks);
      case OutputTok(inner) =>
        RestIsSuffix(sc, toks[1..], stop, ParseOutput(sc.loops, needs, inner).value.1);
        SuffixOfTail(rest, toks);
      case TagTok(inner) =>
        var word := FirstWord(inner);
        var arg := TagArg(inner, word);
        if stop == Some(word) {
        } else if word == "if" {
          var (_, needs1) := ParseCond(sc.loops, needs, arg).value;
          RestIsSuffix(sc, toks[1..], Some("endif"), needs1);
          var b := ParseNodes(sc, toks[1..], Some("endif"), needs1).value;
          RestIsSuffix(sc, b.rest, stop, b.needs);
          SuffixOfSuffix(rest, b.rest, toks[1..]);
        } else if word == "for" {
          var (head, needs1) := ParseForHead(sc.loops, needs, arg).value;
          var inside := sc.(loops := sc.loops + [Binding(head.variable, head.collection)]);
          RestIsSuffix(inside, toks[1..], Some("endfor"), needs1);
          var b := ParseNodes(inside, toks[1..], Some("endfor"), needs1).value;
          RestIsSuffix(sc, b.rest, stop, b.needs);
          SuffixOfSuffix(rest, b.rest, toks[1..]);
        } else {
          var b := ParseNodes(sc.(depth := sc.depth + 1), IncludedTokens(sc, arg).value, None, needs).value;
          RestIsSuffix(sc, toks[1..], stop, b.needs);
        }
        SuffixOfTail(rest, toks);
    }
  }

  /** The included tokens do not depend on where the tag stands, only on the depth check. */
  lemma IncludedShallower(sc: Scope, other: Scope, arg: string)
    requires other.lookup == sc.lookup && other.depth <= sc.depth
    ensures IncludedTokens(sc, arg).Ok? || other.depth == sc.depth ==> IncludedTokens(other, arg) == IncludedTokens(sc, arg)
  {
  }

  /** What parses below some includes parses to the same result with fewer includes around it. */
  lemma {:induction false} ParsesShallower(sc: Scope, depth: nat, toks: seq<Tok>, stop: Option<string>, needs: seq<VarNeed>)
    requires depth <= sc.depth && ParseNodes(sc, toks, stop, needs).Ok?
    ensures ParseNodes(sc.(depth := depth), toks, stop, needs) == ParseNodes(sc, toks, stop, needs)
    decreases if sc.depth < MAX_INCLUDE_DEPTH then MAX_INCLUDE_DEPTH - sc.depth else 0, |toks|
  {
    hide ParseOutput, ParseCond, ParseForHead, FirstWord, TagArg, IncludedTokens;
    var up := sc.(depth := depth);
    if toks == [] {
    } else {
      match toks[0]
      case TextTok(_) => ParsesShallower(sc, depth, toks[1..], stop, needs);
      case OutputTok(inner) => ParsesShallower(sc, depth, toks[1..], stop, ParseOutput(sc.loops, needs, inner).value.1);
      case TagTok(inner) =>
        var word := FirstWord(inner);
        var arg := TagArg(inner, word);
        if stop == Some(word) {
        } else if word == "if" {
          var (_, needs1) := ParseCond(sc.loops, needs, arg).value;
          ParsesShallower(sc, depth, toks[1..], Some("endif"), needs1);
          var b := ParseNodes(sc, toks[1..], Some("endif"), needs1).value;
          ParsesShallower(sc, depth, b.rest, stop, b.needs);
        } else if word == "for" {
          var (head, needs1) := ParseForHead(sc.loops, needs, arg).value;
          var inside := sc.(loops := sc.loops + [Binding(head.variable, head.collection)]);
          ParsesShallower(inside, depth, toks[1..], Some("endfor"), needs1);
          assert inside.(depth := depth) == up.(loops := up.loops + [Binding(head.variable, head.collection)]);
          var b := ParseNodes(inside, toks[1..], Some("endfor"), needs1).value;
          ParsesShallower(sc, depth, b.rest, stop, b.needs);
        } else {
          IncludedShallower(sc, up, arg);
          var deeper := sc.(depth := sc.depth + 1);
          var sub := IncludedTokens(sc, arg).value;
          ParsesShallower(deeper, depth + 1, sub, None, needs);
          assert deeper.(depth := depth + 1) == up.(depth := up.depth + 1);
          ParsesShallower(sc, depth, toks[1..], stop, ParseNodes(deeper, sub, None, needs).value.needs);
        }
    }
  }

  /** A closed block is not affected by tokens added behind it. */
  lemma {:induction false} BlockThenMore(sc: Scope, toks: seq<Tok>, stop: Option<string>, needs: seq<VarNeed>, more: seq<Tok>)
    requires stop.Some? && ParseNodes(sc, toks, stop, needs).Ok?
    ensures var p := ParseNodes(sc, toks, stop, needs).value;
            ParseNodes(sc, toks + more, stop, needs) == Ok(p.(rest := p.rest + more))
    decreases if sc.depth < MAX_INCLUDE_DEPTH then MAX_INCLUDE_DEPTH - sc.depth else 0, |toks|
  {
    hide ParseOutput, ParseCond, ParseForHead, FirstWord, TagArg, IncludedTokens;
    assert (toks + more)[0] == toks[0] && (toks + more)[1..] == toks[1..] + more;
    match toks[0]
    case TextTok(_) => BlockThenMore(sc, toks[1..], stop, needs, more);
    case OutputTok(inner) => BlockThenMore(sc, toks[1..], stop, ParseOutput(sc.loops, needs, inner).value.1, more);
    case TagTok(inner) =>
      var word := FirstWord(inner);
      var arg := TagArg(inner, word);
      if stop == Some(word) {
      } else if word == "if" {
        var (_, needs1) := ParseCond(sc.loops, needs, arg).value;
        BlockThenMore(sc, toks[1..], Some("endif"), needs1, more);
        var b := ParseNodes(sc, toks[1..], Some("endif"), needs1).value;
        BlockThenMore(sc, b.rest, stop, b.needs, more);
      } else if word == "for" {
        var (head, needs1) := ParseForHead(sc.loops, needs, arg).value;
        var inside := sc.(loops := sc.loops + [Binding(head.variable, head.collection)]);
        BlockThenMore(inside, toks[1..], Some("endfor"), needs1, more);
        var b := ParseNodes(inside, toks[1..], Some("endfor"), needs1).value;
        BlockThenMore(sc, b.rest, stop, b.needs, more);
      } else {
        var b := ParseNodes(sc.(depth := sc.depth + 1), IncludedTokens(sc, arg).value, None, needs).value;
        BlockThenMore(sc, toks[1..], stop, b.needs, more);
      }
  }

  /** A complete token list followed by `more` parses to its nodes followed by those of `more`. */
  lemma {:induction false} CompleteThenMore(sc: Scope, toks: seq<Tok>, stop: Option<string>, needs: seq<VarNeed>, more: seq<Tok>)
    requires BlockEnd(stop) && ParseNodes(sc, toks, None, needs).Ok?
    ensures var p := ParseNodes(sc, toks, None, needs).value;
            ParseNodes(sc, toks + more, stop, needs) == Prepend(p.nodes, ParseNodes(sc, more, stop, p.needs))
    decreases |toks|
  {
    hide ParseOutput, ParseCond, ParseForHead, FirstWord, TagArg, IncludedTokens;
    if toks == [] {
      assert toks + more == more;
      PrependNothing(ParseNodes(sc, more, stop, needs));
    } else {
      assert (toks + more)[0] == toks[0] && (toks + more)[1..] == toks[1..] + more;
      match toks[0]
      case TextTok(t) =>
        CompleteThenMore(sc, toks[1..], stop, needs, more);
        var p := ParseNodes(sc, toks[1..], None, needs).value;
        PrependTwice([Text(t)], p.nodes, ParseNodes(sc, more, stop, p.needs));
      case OutputTok(inner) =>
        var (node, needs1) := ParseOutput(sc.loops, needs, inner).value;
        CompleteThenMore(sc, toks[1..], stop, needs1, more);
        var p := ParseNodes(sc, toks[1..], None, needs1).value;
        PrependTwice([node], p.nodes, ParseNodes(sc, more, stop, p.needs));
      case TagTok(inner) =>
        var word := FirstWord(inner);
        var arg := TagArg(inner, word);
        if word == "if" {
          var (cond, needs1) := ParseCond(sc.loops, needs, arg).value;
          BlockThenMore(sc, toks[1..], Some("endif"), needs1, more);
          var b := ParseNodes(sc, toks[1..], Some("endif"), needs1).value;
          CompleteThenMore(sc, b.rest, stop, b.needs, more);
          var p := ParseNodes(sc, b.rest, None, b.needs).value;
          PrependTwice([If(cond, b.nodes)], p.nodes, ParseNodes(sc, more, stop, p.needs));
        } else if word == "for" {
          var (head, needs1) := ParseForHead(sc.loops, needs, arg).value;
          var inside := sc.(loops := sc.loops + [Binding(head.variable, head.collection)]);
          BlockThenMore(inside, toks[1..], Some("endfor"), needs1, more);
          var b := ParseNodes(inside, toks[1..], Some("endfor"), needs1).value;
          CompleteThenMore(sc, b.rest, stop, b.needs, more);
          var p := ParseNodes(sc, b.rest, None, b.needs).value;
          PrependTwice([For(head.variable, head.collection, head.limit, b.nodes)], p.nodes, ParseNodes(sc, more, stop, p.needs));
        } else {
          var b := ParseNodes(sc.(depth := sc.depth + 1), IncludedTokens(sc, arg).value, None, needs).value;
          CompleteThenMore(sc, toks[1..], stop, b.needs, more);
          var p := ParseNodes(sc, toks[1..], None, b.needs).value;
          PrependTwice(b.nodes, p.nodes, ParseNodes(sc, more, stop, p.needs));
        }
    }
  }

  /** `p` with the include tag in its rest, if the parse stopped before it, replaced by `sub`. */
  function Spliced(p: Parsed, sub: seq<Tok>, b: seq<Tok>): Parsed {
    if |p.rest| > |b| then p.(rest := p.rest[..|p.rest| - |b| - 1] + sub + b) else p
  }

  function Around(a: seq<Tok>, middle: seq<Tok>, b: seq<Tok>): seq<Tok> {
    a + middle + b
  }

  lemma AroundNext(a: seq<Tok>, middle: seq<Tok>, b: seq<Tok>)
    requires a != []
    ensures var whole := Around(a, middle, b);
            whole != [] && whole[0] == a[0] && whole[1..] == Around(a[1..], middle, b) && |whole| == |a| + |middle| + |b|
  {
  }

  lemma SplicedNow(a: seq<Tok>, tag: string, b: seq<Tok>, sub: seq<Tok>, needs: seq<VarNeed>)
    ensures var whole := Around(a, [TagTok(tag)], b);
            && |whole| > |b|
            && Spliced(Parsed([], whole, needs), sub, b) == Parsed([], Around(a, sub, b), needs)
  {
    var whole := Around(a, [TagTok(tag)], b);
    assert whole[..|whole| - |b| - 1] == a;
  }

  lemma SplicedPrepend(nodes: seq<Node>, p: Parsed, sub: seq<Tok>, b: seq<Tok>)
    ensures Prepend(nodes, Ok(Spliced(p, sub, b))) == Ok(Spliced(p.(nodes := nodes + p.nodes), sub, b))
    ensures Spliced(p, sub, b).needs == p.needs && Spliced(p, sub, b).nodes == p.nodes
  {
  }

  /** The tag is the next token. */
  lemma SpliceHere(sc: Scope, tag: string, b: seq<Tok>, stop: Option<string>, needs: seq<VarNeed>)
    requires BlockEnd(stop) && FirstWord(tag) == "include"
    requires ParseNodes(sc, [TagTok(tag)] + b, stop, needs).Ok?
    ensures IncludedTokens(sc, TagArg(tag, "include")).Ok?
    ensures ParseNodes(sc, IncludedTokens(sc, TagArg(tag, "include")).value + b, stop, needs)
         == ParseNodes(sc, [TagTok(tag)] + b, stop, needs)
  {
    hide ParseOutput, ParseCond, ParseForHead, FirstWord, TagArg, IncludedTokens;
    assert ([TagTok(tag)] + b)[0] == TagTok(tag) && ([TagTok(tag)] + b)[1..] == b;
    var sub := IncludedTokens(sc, TagArg(tag, "include")).value;
    ParsesShallower(sc.(depth := sc.depth + 1), sc.depth, sub, None, needs);
    assert sc.(depth := sc.depth + 1).(depth := sc.depth) == sc;
    CompleteThenMore(sc, sub, stop, needs, b);
  }

  /** Splicing at any place in a block, for every way the block may end before or after that place. */
  lemma {:induction false} SpliceAnywhere(sc: Scope, a: seq<Tok>, tag: string, b: seq<Tok>, sub: seq<Tok>, stop: Option<string>, needs: seq<VarNeed>)
    requires BlockEnd(stop) && FirstWord(tag) == "include"
    requires IncludedTokens(sc, TagArg(tag, "include")).Ok? ==> sub == IncludedTokens(sc, TagArg(tag, "include")).value
    requires ParseNodes(sc, Around(a, [TagTok(tag)], b), stop, needs).Ok?
    ensures var p := ParseNodes(sc, Around(a, [TagTok(tag)], b), stop, needs).value;
            && (|p.rest| <= |b| ==> IncludedTokens(sc, TagArg(tag, "include")).Ok?)
            && ParseNodes(sc, Around(a, sub, b), stop, needs) == Ok(Spliced(p, sub, b))
    decreases |a|, 1
  {
    hide ParseOutput, ParseCond, ParseForHead, FirstWord, TagArg, IncludedTokens;
    if a == [] {
      assert Around(a, [TagTok(tag)], b) == [TagTok(tag)] + b && Around(a, sub, b) == sub + b;
      SpliceHere(sc, tag, b, stop, needs);
      assert ([TagTok(tag)] + b)[0] == TagTok(tag) && ([TagTok(tag)] + b)[1..] == b;
    } else {
      AroundNext(a, [TagTok(tag)], b);
      AroundNext(a, sub, b);
      SpliceLater(sc, a, tag, b, sub, stop, needs);
    }
  }

  lemma {:induction false} SpliceLater(sc: Scope, a: seq<Tok>, tag: string, b: seq<Tok>, sub: seq<Tok>, stop: Option<string>, needs: seq<VarNeed>)
    requires a != [] && BlockEnd(stop) && FirstWord(tag) == "include"
    requires IncludedTokens(sc, TagArg(tag, "include")).Ok? ==> sub == IncludedTokens(sc, TagArg(tag, "include")).value
    requires ParseNodes(sc, Around(a, [TagTok(tag)], b), stop, needs).Ok?
    ensures var p := ParseNodes(sc, Around(a, [TagTok(tag)], b), stop, needs).value;
            && (|p.rest| <= |b| ==> IncludedTokens(sc, TagArg(tag, "include")).Ok?)
            && ParseNodes(sc, Around(a, sub, b), stop, needs) == Ok(Spliced(p, sub, b))
    decreases |a|, 0
  {
    hide ParseOutput, ParseCond, ParseForHead, FirstWord, TagArg, IncludedTokens, Around, Spliced;
    AroundNext(a, [TagTok(tag)], b);
    AroundNext(a, sub, b);
    match a[0]
    case TextTok(text) =>
      SpliceAnywhere(sc, a[1..], tag, b, sub, stop, needs);
      SplicedPrepend([Text(text)], ParseNodes(sc, Around(a[1..], [TagTok(tag)], b), stop, needs).value, sub, b);
    case OutputTok(text) =>
      var (node, needs1) := ParseOutput(sc.loops, needs, text).value;
      SpliceAnywhere(sc, a[1..], tag, b, sub, stop, needs1);
      SplicedPrepend([node], ParseNodes(sc, Around(a[1..], [TagTok(tag)], b), stop, needs1).value, sub, b);
    case TagTok(text) =>
      var word := FirstWord(text);
      var arg := TagArg(text, word);
      if stop == Some(word) {
        SplicedNow(a[1..], tag, b, sub, needs);
      } else if word == "if" {
        var (cond, needs1) := ParseCond(sc.loops, needs, arg).value;
        SpliceBlock(sc, sc, a[1..], tag, b, sub, Some("endif"), stop, needs1);
        var p := ParseNodes(sc, Around(a[1..], [TagTok(tag)], b), Some("endif"), needs1).value;
        SplicedPrepend([], p, sub, b);
        SplicedPrepend([If(cond, p.nodes)], ParseNodes(sc, p.rest, stop, p.needs).value, sub, b);
      } else if word == "for" {
        var (head, needs1) := ParseForHead(sc.loops, needs, arg).value;
        var inside := sc.(loops := sc.loops + [Binding(head.variable, head.collection)]);
        SpliceBlock(sc, inside, a[1..], tag, b, sub, Some("endfor"), stop, needs1);
        var p := ParseNodes(inside, Around(a[1..], [TagTok(tag)], b), Some("endfor"), needs1).value;
        SplicedPrepend([], p, sub, b);
        SplicedPrepend([For(head.variable, head.collection, head.limit, p.nodes)], ParseNodes(sc, p.rest, stop, p.needs).value, sub, b);
      } else {
        var other := IncludedTokens(sc, arg).value;
        var p := ParseNodes(sc.(depth := sc.depth + 1), other, None, needs).value;
        SpliceAnywhere(sc, a[1..], tag, b, sub, stop, p.needs);
        SplicedPrepend(p.nodes, ParseNodes(sc, Around(a[1..], [TagTok(tag)], b), stop, p.needs).value, sub, b);
      }
  }

  /** An inner block and what follows it: the tag stands inside that block or behind it. */
  lemma {:induction false} SpliceBlock(sc: Scope, inside: Scope, a: seq<Tok>, tag: string, b: seq<Tok>, sub: seq<Tok>,
                                       innerStop: Option<string>, stop: Option<string>, needs: seq<VarNeed>)
    requires BlockEnd(stop) && BlockEnd(innerStop) && innerStop.Some? && FirstWord(tag) == "include"
    requires inside.lookup == sc.lookup && inside.depth == sc.depth
    requires IncludedTokens(sc, TagArg(tag, "include")).Ok? ==> sub == IncludedTokens(sc, TagArg(tag, "include")).value
    requires ParseNodes(inside, Around(a, [TagTok(tag)], b), innerStop, needs).Ok?
    requires (var p := ParseNodes(inside, Around(a, [TagTok(tag)], b), innerStop, needs).value;
              ParseNodes(sc, p.rest, stop, p.needs).Ok?)
    ensures var p := ParseNodes(inside, Around(a, [TagTok(tag)], b), innerStop, needs).value;
            var p' := ParseNodes(inside, Around(a, sub, b), innerStop, needs);
            var q := ParseNodes(sc, p.rest, stop, p.needs).value;
            && p' == Ok(Spliced(p, sub, b))
            && ParseNodes(sc, p'.value.rest, stop, p.needs) == Ok(Spliced(q, sub, b))
            && (|q.rest| <= |b| ==> IncludedTokens(sc, TagArg(tag, "include")).Ok?)
    decreases |a|, 2
  {
    hide ParseNodes, FirstWord, TagArg, IncludedTokens;
    var whole := Around(a, [TagTok(tag)], b);
    IncludedShallower(sc, inside, TagArg(tag, "include"));
    SpliceAnywhere(inside, a, tag, b, sub, innerStop, needs);
    var p := ParseNodes(inside, whole, innerStop, needs).value;
    RestIsSuffix(inside, whole, innerStop, needs);
    if |p.rest| > |b| {
      var ahead := p.rest[..|p.rest| - |b| - 1];
      assert p.rest == Around(ahead, [TagTok(tag)], b) by {
        var k := |whole| - |p.rest|;
        assert p.rest == whole[k..] && ahead == whole[k..|a|];
        assert whole[|a|..] == [TagTok(tag)] + b;
      }
      SpliceAnywhere(sc, ahead, tag, b, sub, stop, p.needs);
    } else {
      RestIsSuffix(sc, p.rest, stop, p.needs);
    }
  }

  /** Including is splicing: same nodes, same needs, whatever surrounds the tag. */
  lemma IncludeIsSplice(sc: Scope, a: seq<Tok>, tag: string, b: seq<Tok>, needs: seq<VarNeed>)
    requires FirstWord(tag) == "include"
    requires ParseNodes(sc, Around(a, [TagTok(tag)], b), None, needs).Ok?
    ensures var sub := IncludedTokens(sc, TagArg(tag, "include"));
            && sub.Ok?
            && ParseNodes(sc, Around(a, sub.value, b), None, needs) == ParseNodes(sc, Around(a, [TagTok(tag)], b), None, needs)
  {
    var found := IncludedTokens(sc, TagArg(tag, "include"));
    SpliceAnywhere(sc, a, tag, b, if found.Ok? then found.value else [], None, needs);
    RestIsSuffix(sc, Around(a, [TagTok(tag)], b), None, needs);
  }
}
