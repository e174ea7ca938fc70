/**
 What the lexer computes, said without it: a source lexes exactly when it is a list of texts,
 outputs and tags written out one after the other, and then to that list.
 */
module LiquidusLexing {
  import opened Common
  import opened LiquidusText
  import opened LiquidusTextLaws
  import opened LiquidusSyntax
  import opened LiquidusGrammar

  // ---- writing tokens out ----

  function Opener(isTag: bool): string {
    if isTag then "{%" else "{{"
  }

  function Closer(isTag: bool): string {
    if isTag then "%}" else "}}"
  }

  function Slot(isTag: bool, inner: string): string {
    Opener(isTag) + inner + Closer(isTag)
  }

  /** A token with its inner text as it stands between the braces. */
  function Shown(tok: Tok): string {
    match tok
    case TextTok(t) => t
    case OutputTok(inner) => Slot(false, inner)
    case TagTok(inner) => Slot(true, inner)
  }

  function ShownAll(toks: seq<Tok>): string {
    if toks == [] then [] else Shown(toks[0]) + ShownAll(toks[1..])
  }

  /** The token the parser sees. */
  function Trimmed(tok: Tok): Tok {
    match tok
    case TextTok(_) => tok
    case OutputTok(inner) => OutputTok(Trim(inner))
    case TagTok(inner) => TagTok(Trim(inner))
  }

  function TrimmedAll(toks: seq<Tok>): seq<Tok> {
    if toks == [] then [] else [Trimmed(toks[0])] + TrimmedAll(toks[1..])
  }

  /** No opener in a text, and none that its last character would start. */
  predicate TextOk(t: string, more: bool) {
    && t != [] && (forall i: nat | i < |t| :: !OccursAt(t, "{{", i) && !OccursAt(t, "{%", i))
    && (more ==> Last(t) != '{')
  }

  /** No closer inside, none that the last character would start, and no whitespace control. */
  predicate InnerOk(isTag: bool, inner: string) {
    && (forall i: nat | i < |inner| :: !OccursAt(inner, Closer(isTag), i))
    && (inner != [] ==> inner[0] != '-' && Last(inner) != '-' && (!isTag ==> Last(inner) != '}'))
  }

  predicate TokOk(tok: Tok, more: bool) {
    match tok
    case TextTok(t) => TextOk(t, more)
    case OutputTok(inner) => InnerOk(false, inner)
    case TagTok(inner) => InnerOk(true, inner)
  }

  /** Spaces at the ends and no closing brace character: such an inner text is fine. */
  lemma PlainInner(isTag: bool, inner: string)
    requires inner != [] && Closer(isTag)[0] !in inner && inner[0] == ' ' && Last(inner) == ' '
    ensures InnerOk(isTag, inner)
  {
    forall i: nat | i < |inner| ensures !OccursAt(inner, Closer(isTag), i) {
      if i + 2 <= |inner| {
        NotAt(inner, Closer(isTag), i, 0);
      }
    }
  }

  /** Tokens that can be told apart again once written out. */
  predicate WellShown(toks: seq<Tok>) {
    toks == [] ||
    (&& TokOk(toks[0], |toks| > 1)
     && (|toks| > 1 && toks[0].TextTok? ==> !toks[1].TextTok?)
     && WellShown(toks[1..]))
  }

  // ---- one segment ----

  lemma OpenerFound(lead: string, isTag: bool, after: string)
    requires lead == [] || TextOk(lead, true)
    ensures NextOpener(lead + Opener(isTag) + after) == Some((|lead|, isTag))
  {
    var s, n := lead + Opener(isTag) + after, |lead|;
    NotBefore(lead, isTag, after);
    assert s[n..n + 2] == Opener(isTag);
    NotAt(s, Opener(!isTag), n, 1);
    hide Find;
    FindAt(s, Opener(isTag), n);
    FindLater(s, Opener(!isTag), n);
  }

  lemma NotBefore(lead: string, isTag: bool, after: string)
    requires lead == [] || TextOk(lead, true)
    ensures var s := lead + Opener(isTag) + after;
            forall i: nat, b: bool | i < |lead| :: !OccursAt(s, Opener(b), i)
  {
    hide OccursAt, TextOk;
    var s := lead + Opener(isTag) + after;
    Regroup(lead, Opener(isTag), after);
    forall i: nat, b: bool | i < |lead| ensures !OccursAt(s, Opener(b), i) {
      NotInLead(lead, Opener(isTag) + after, i);
    }
  }

  lemma NotInLead(lead: string, after: string, i: nat)
    requires TextOk(lead, true) && i < |lead|
    ensures !OccursAt(lead + after, "{{", i) && !OccursAt(lead + after, "{%", i)
  {
    var s := lead + after;
    if i + 2 <= |lead| {
      assert s[i..i + 2] == lead[i..i + 2];
      assert !OccursAt(lead, "{{", i) && !OccursAt(lead, "{%", i);
    } else if i + 2 <= |s| {
      NotAt(s, "{{", i, 0);
      NotAt(s, "{%", i, 0);
    }
  }

  lemma CloserFound(isTag: bool, inner: string, after: string)
    requires InnerOk(isTag, inner)
    ensures Find(inner + Closer(isTag) + after, Closer(isTag)) == Some(|inner|)
  {
    var s, c := inner + Closer(isTag) + after, Closer(isTag);
    forall i: nat | i < |inner| ensures !OccursAt(s, c, i) {
      if i + 2 <= |inner| {
        assert s[i..i + 2] == inner[i..i + 2];
        assert !OccursAt(inner, c, i);
      } else {
        NotAt(s, c, i, if isTag then 1 else 0);
      }
    }
    assert s[|inner|..|inner| + 2] == c;
    FindAt(s, c, |inner|);
  }

  function SlotTok(isTag: bool, inner: string): Tok {
    if isTag then TagTok(Trim(inner)) else OutputTok(Trim(inner))
  }

  /** The segment, once its opener and its closer are found. */
  lemma SegmentCut(s: string, lead: string, isTag: bool, inner: string, after: string, rest: string)
    requires s != [] && NextOpener(s) == Some((|lead|, isTag)) && s[..|lead|] == lead && s[|lead| + 2..] == after
    requires Find(after, Closer(isTag)) == Some(|inner|) && after[..|inner|] == inner && after[|inner| + 2..] == rest
    requires inner != [] ==> inner[0] != '-' && Last(inner) != '-'
    ensures LexSegment(s) == Ok(((if lead == [] then [] else [TextTok(lead)]) + [SlotTok(isTag, inner)], rest))
  {
    hide Trim, Find, NextOpener;
  }

  lemma SlotParts(lead: string, isTag: bool, inner: string, rest: string)
    ensures lead + Slot(isTag, inner) + rest == lead + Opener(isTag) + (inner + Closer(isTag) + rest)
  {
    hide Opener, Closer;
  }

  lemma TwoEach(isTag: bool)
    ensures |Opener(isTag)| == 2 && |Closer(isTag)| == 2
  {
  }

  /** A text, possibly empty, then an output or a tag. */
  lemma SegmentOf(lead: string, isTag: bool, inner: string, rest: string)
    requires lead == [] || TextOk(lead, true)
    requires InnerOk(isTag, inner)
    ensures LexSegment(lead + Slot(isTag, inner) + rest)
         == Ok(((if lead == [] then [] else [TextTok(lead)]) + [SlotTok(isTag, inner)], rest))
  {
    hide Trim, Find, NextOpener, TextOk, InnerOk, LexSegment, Slot, Opener, Closer, SlotTok;
    var after := inner + Closer(isTag) + rest;
    var s := lead + Opener(isTag) + after;
    SlotParts(lead, isTag, inner, rest);
    TwoEach(isTag);
    OpenerFound(lead, isTag, after);
    CloserFound(isTag, inner, rest);
    Sections(lead, Opener(isTag), after);
    Sections(inner, Closer(isTag), rest);
    InnerEnds(isTag, inner);
    SegmentCut(s, lead, isTag, inner, after, rest);
  }

  lemma InnerEnds(isTag: bool, inner: string)
    requires InnerOk(isTag, inner)
    ensures inner != [] ==> inner[0] != '-' && Last(inner) != '-'
  {
  }

  lemma SegmentOfText(t: string)
    requires TextOk(t, false)
    ensures LexSegment(t) == Ok(([TextTok(t)], []))
  {
    assert forall i: nat :: !OccursAt(t, "{{", i) && !OccursAt(t, "{%", i);
    FindNowhere(t, "{{");
    FindNowhere(t, "{%");
  }

  // ---- whole sources ----

  lemma LexFirst(lead: string, isTag: bool, inner: string, rest: string)
    requires lead == [] || TextOk(lead, true)
    requires InnerOk(isTag, inner) && Lex(rest).Ok?
    ensures Lex(lead + Slot(isTag, inner) + rest)
         == Ok((if lead == [] then [] else [TextTok(lead)]) + [SlotTok(isTag, inner)] + Lex(rest).value)
  {
    hide LexSegment, TextOk, InnerOk, Trim;
    SegmentOf(lead, isTag, inner, rest);
  }

  /** Tokens written out lex to themselves, inner texts trimmed. */
  lemma {:induction false} LexShown(toks: seq<Tok>)
    requires WellShown(toks)
    ensures Lex(ShownAll(toks)) == Ok(TrimmedAll(toks))
    decreases |toks|
  {
    hide Lex, TextOk, InnerOk, Trim;
    if toks == [] {
      LexNothing();
    } else {
      match toks[0]
      case TextTok(t) =>
        if |toks| == 1 {
          LexText(t);
          assert toks == [TextTok(t)];
          OneText(t);
        } else {
          var (isTag, inner) := if toks[1].TagTok? then (true, toks[1].inner) else (false, toks[1].inner);
          assert toks[1..][1..] == toks[2..];
          LexShown(toks[2..]);
          LexFirst(t, isTag, inner, ShownAll(toks[2..]));
          Regroup(t, Slot(isTag, inner), ShownAll(toks[2..]));
          TextNotEmpty(t);
          assert [TextTok(t)] + [SlotTok(isTag, inner)] + TrimmedAll(toks[2..])
              == [TextTok(t)] + ([SlotTok(isTag, inner)] + TrimmedAll(toks[2..]));
        }
      case _ =>
        var (isTag, inner) := (toks[0].TagTok?, toks[0].inner);
        LexShown(toks[1..]);
        LexFirst([], isTag, inner, ShownAll(toks[1..]));
        assert [] + Slot(isTag, inner) == Slot(isTag, inner);
        assert Shown(toks[0]) == Slot(isTag, inner) && Trimmed(toks[0]) == SlotTok(isTag, inner);
        NothingAhead([SlotTok(isTag, inner)]);
    }
  }

  lemma OneText(t: string)
    ensures ShownAll([TextTok(t)]) == t && TrimmedAll([TextTok(t)]) == [TextTok(t)]
  {
    assert [TextTok(t)][1..] == [] && t + [] == t;
  }

  lemma NothingAhead<T>(s: seq<T>)
    ensures [] + s == s
  {
  }

  lemma TextNotEmpty(t: string)
    requires TextOk(t, true)
    ensures t != []
  {
  }

  lemma LexNothing()
    ensures Lex("") == Ok([])
  {
  }

  lemma LexText(t: string)
    requires TextOk(t, false)
    ensures Lex(t) == Ok([TextTok(t)])
  {
    hide LexSegment;
    SegmentOfText(t);
    LexNothing();
    assert t != [] && [TextTok(t)] + [] == [TextTok(t)];
  }

  /** A segment that lexes is a text, possibly empty, then an output or a tag; or a text up to the end. */
  lemma SegmentIs(s: string) returns (lead: string, slot: Option<(bool, string)>, rest: string)
    requires s != [] && LexSegment(s).Ok?
    ensures slot.None? ==> s == lead && rest == [] && TextOk(lead, false)
    ensures slot.Some? ==>
              var (isTag, inner) := slot.value;
              && s == lead + Slot(isTag, inner) + rest && InnerOk(isTag, inner)
              && (lead == [] || TextOk(lead, true))
  {
    hide Trim, OccursAt, Find;
    match NextOpener(s)
    case None =>
      lead, slot, rest := s, None, [];
      NoOpener(s);
    case Some((at, isTag)) =>
      var inner;
      lead, inner, rest := SlotIs(s, at, isTag);
      slot := Some((isTag, inner));
  }

  lemma NoOpener(s: string)
    requires s != [] && NextOpener(s).None?
    ensures TextOk(s, false)
  {
    FindIsFirst(s, "{{");
    FindIsFirst(s, "{%");
  }

  lemma FirstOpener(s: string, at: nat, isTag: bool)
    requires NextOpener(s) == Some((at, isTag))
    ensures OccursAt(s, Opener(isTag), at)
    ensures forall i: nat | i < at :: !OccursAt(s, "{{", i) && !OccursAt(s, "{%", i)
    ensures s == s[..at] + (Opener(isTag) + s[at + 2..])
  {
    hide OccursAt;
    FindIsFirst(s, "{{");
    FindIsFirst(s, "{%");
    CutAt(s, Opener(isTag), at);
  }

  lemma SlotIs(s: string, at: nat, isTag: bool) returns (lead: string, inner: string, rest: string)
    requires s != [] && LexSegment(s).Ok? && NextOpener(s) == Some((at, isTag))
    ensures s == lead + Slot(isTag, inner) + rest && InnerOk(isTag, inner)
    ensures lead == [] || TextOk(lead, true)
  {
    hide LexSegment, OccursAt, Find, NextOpener, InnerOk, TextOk, Opener, Closer, Slot;
    lead := s[..at];
    var body := s[at + 2..];
    var close := SlotCloses(s, at, isTag);
    inner, rest := body[..close], body[close + 2..];
    FirstOpener(s, at, isTag);
    InnerIs(isTag, body, close);
    if at > 0 {
      LeadIs(s, at, isTag);
    }
    Assemble(s, lead, isTag, body, inner, rest);
  }

  lemma Assemble(s: string, lead: string, isTag: bool, body: string, inner: string, rest: string)
    requires s == lead + (Opener(isTag) + body) && body == inner + (Closer(isTag) + rest)
    ensures s == lead + Slot(isTag, inner) + rest
  {
    hide Opener, Closer;
  }

  lemma SegmentCloses(s: string, at: nat, isTag: bool)
    requires s != [] && LexSegment(s).Ok? && NextOpener(s) == Some((at, isTag))
    ensures Find(s[at + 2..], Closer(isTag)).Some?
    ensures var body := s[at + 2..];
            var inner := body[..Find(body, Closer(isTag)).value];
            inner != [] ==> inner[0] != '-' && Last(inner) != '-'
  {
    hide Trim, NextOpener, Find;
  }

  lemma SlotCloses(s: string, at: nat, isTag: bool) returns (close: nat)
    requires s != [] && LexSegment(s).Ok? && NextOpener(s) == Some((at, isTag))
    ensures var body := s[at + 2..];
            && OccursAt(body, Closer(isTag), close) && (forall i: nat | i < close :: !OccursAt(body, Closer(isTag), i))
            && close + 2 <= |body| && body == body[..close] + (Closer(isTag) + body[close + 2..])
            && (body[..close] != [] ==> body[..close][0] != '-' && Last(body[..close]) != '-')
  {
    hide LexSegment, NextOpener, Find, OccursAt;
    var body := s[at + 2..];
    SegmentCloses(s, at, isTag);
    close := Find(body, Closer(isTag)).value;
    FindIsFirst(body, Closer(isTag));
    CutAt(body, Closer(isTag), close);
  }

  lemma CutAt(s: string, sub: string, at: nat)
    requires OccursAt(s, sub, at)
    ensures at + |sub| <= |s| && s == s[..at] + (sub + s[at + |sub|..])
  {
  }

  lemma TwoAt(s: string, i: nat, c: char)
    requires i + 1 < |s| && s[i] == s[i + 1] == c
    ensures OccursAt(s, [c, c], i)
  {
  }

  lemma InnerIs(isTag: bool, body: string, close: nat)
    requires OccursAt(body, Closer(isTag), close) && forall i: nat | i < close :: !OccursAt(body, Closer(isTag), i)
    requires var inner := body[..close]; inner != [] ==> inner[0] != '-' && Last(inner) != '-'
    ensures InnerOk(isTag, body[..close])
  {
    var inner := body[..close];
    forall i: nat | i < |inner| ensures !OccursAt(inner, Closer(isTag), i) {
      if i + 2 <= |inner| {
        assert inner[i..i + 2] == body[i..i + 2];
        assert !OccursAt(body, Closer(isTag), i);
      }
    }
    if inner != [] && !isTag && Last(inner) == '}' {
      assert body[close] == body[close..close + 2][0];
      TwoAt(body, close - 1, '}');
      assert false;
    }
  }

  lemma LeadIs(s: string, at: nat, isTag: bool)
    requires at > 0 && OccursAt(s, Opener(isTag), at)
    requires forall i: nat | i < at :: !OccursAt(s, "{{", i) && !OccursAt(s, "{%", i)
    ensures TextOk(s[..at], true)
  {
    var lead := s[..at];
    forall i: nat | i < |lead| ensures !OccursAt(lead, "{{", i) && !OccursAt(lead, "{%", i) {
      if i + 2 <= |lead| {
        assert lead[i..i + 2] == s[i..i + 2];
        assert !OccursAt(s, "{{", i) && !OccursAt(s, "{%", i);
      }
    }
    if Last(lead) == '{' {
      assert s[at] == s[at..at + 2][0];
      TwoAt(s, at - 1, '{');
      assert false;
    }
  }

  /** Every source that lexes is a list of tokens written out. */
  lemma {:induction false} SourceIsShown(source: string) returns (toks: seq<Tok>)
    requires Lex(source).Ok?
    ensures WellShown(toks) && ShownAll(toks) == source
    decreases |source|
  {
    hide TextOk, InnerOk, Trim;
    if source == [] {
      toks := [];
    } else {
      hide LexSegment;
      var lead, slot, rest := SegmentIs(source);
      match slot
      case None =>
        toks := [TextTok(lead)];
        assert toks[1..] == [] && lead + [] == lead;
      case Some((isTag, inner)) =>
        LexRest(lead, isTag, inner, rest);
        var more := SourceIsShown(rest);
        toks := SlotThen(isTag, inner, more);
        if lead != [] {
          toks := TextThen(lead, toks);
        } else {
          assert [] + Slot(isTag, inner) == Slot(isTag, inner);
        }
        Regroup(lead, Slot(isTag, inner), rest);
    }
  }

  lemma LexRest(lead: string, isTag: bool, inner: string, rest: string)
    requires lead == [] || TextOk(lead, true)
    requires InnerOk(isTag, inner) && Lex(lead + Slot(isTag, inner) + rest).Ok?
    ensures |rest| < |lead + Slot(isTag, inner) + rest| && Lex(rest).Ok?
  {
    hide LexSegment, TextOk, InnerOk, Trim;
    SegmentOf(lead, isTag, inner, rest);
  }

  lemma SlotThen(isTag: bool, inner: string, more: seq<Tok>) returns (toks: seq<Tok>)
    requires InnerOk(isTag, inner) && WellShown(more)
    ensures WellShown(toks) && ShownAll(toks) == Slot(isTag, inner) + ShownAll(more)
    ensures toks != [] && !toks[0].TextTok?
  {
    toks := [if isTag then TagTok(inner) else OutputTok(inner)] + more;
    assert toks[1..] == more;
  }

  lemma TextThen(lead: string, more: seq<Tok>) returns (toks: seq<Tok>)
    requires TextOk(lead, true) && WellShown(more) && more != [] && !more[0].TextTok?
    ensures WellShown(toks) && ShownAll(toks) == lead + ShownAll(more)
  {
    toks := [TextTok(lead)] + more;
    assert toks[1..] == more;
  }

  /** The tokens of a source are exactly those it is written from. */
  lemma LexExactly(source: string, items: seq<Tok>)
    ensures Lex(source) == Ok(items) <==>
            exists toks :: WellShown(toks) && ShownAll(toks) == source && TrimmedAll(toks) == items
  {
    hide Lex, WellShown, ShownAll, TrimmedAll;
    if Lex(source).Ok? {
      var toks := SourceIsShown(source);
      LexShown(toks);
    }
    forall toks | WellShown(toks) && ShownAll(toks) == source ensures Lex(source) == Ok(TrimmedAll(toks)) {
      LexShown(toks);
    }
  }
}
