/** The HTML formatter, and the decoder that shows nothing is lost in it. */
module CarmineHtml {
  import opened Common
  import opened CarmineTokens
  import opened CarmineTable
  import opened CarmineEngine
  import opened CarmineSession
  import opened CarmineCoverage
  import opened CarmineNames

  function Open(): string { "<span class=\"" }

  function Tail(): string { "\">" }

  function Close(): string { "</span>" }

  function EscapeChar(c: char): string {
    match c
    case '&' => "&amp;"
    case '<' => "&lt;"
    case '>' => "&gt;"
    case _ => [c]
  }

  function Escape(v: string): string {
    if v == [] then [] else EscapeChar(v[0]) + Escape(v[1..])
  }

  predicate Special(c: char) {
    c == '&' || c == '<' || c == '>'
  }

  /** The two paths of `escape_into` agree. */
  lemma {:induction false} FastPathAgrees(v: string)
    requires forall i | 0 <= i < |v| :: !Special(v[i])
    ensures Escape(v) == v
  {
    if v == [] {
    } else {
      FastPathAgrees(v[1..]);
      assert v == [v[0]] + v[1..];
    }
  }

  /** `escape_into`: values without a special character are appended whole. */
  method EscapeInto(out: string, v: string) returns (r: string)
    ensures r == out + Escape(v)
  {
    var plain := true;
    for i := 0 to |v|
      invariant plain <==> forall k | 0 <= k < i :: !Special(v[k])
    {
      plain := plain && !Special(v[i]);
    }
    if plain {
      FastPathAgrees(v);
      return out + v;
    }
    r := out;
    for i := 0 to |v|
      invariant out + Escape(v) == r + Escape(v[i..])
    {
      assert r + (EscapeChar(v[i]) + Escape(v[i + 1..])) == r + EscapeChar(v[i]) + Escape(v[i + 1..]);
      r := r + EscapeChar(v[i]);
    }
  }

  // ---- writing ----

  function Span(t: LexerTable, tok: (TokenId, string)): string
    requires tok.0 < |t.shortnames|
  {
    if tok.0 == t.textTok then Escape(tok.1)
    else Open() + t.shortnames[tok.0] + Tail() + Escape(tok.1) + Close()
  }

  function Html(t: LexerTable, toks: Tokens): string
    requires HasNames(t, toks)
  {
    if toks == [] then [] else Span(t, toks[0]) + Html(t, toks[1..])
  }

  method WriteToken(t: LexerTable, tok: (TokenId, string), out: string) returns (r: string)
    requires tok.0 < |t.shortnames|
    ensures r == out + Span(t, tok)
  {
    hide Open, Tail, Close, Escape;
    r := out;
    if tok.0 == t.textTok {
      r := EscapeInto(r, tok.1);
    } else {
      r := r + Open();
      r := r + t.shortnames[tok.0];
      r := r + Tail();
      r := EscapeInto(r, tok.1);
      r := r + Close();
    }
  }

  lemma HtmlRest(t: LexerTable, toks: Tokens, i: nat, before: string)
    requires HasNames(t, toks) && i < |toks|
    ensures before + Html(t, toks[i..]) == before + Span(t, toks[i]) + Html(t, toks[i + 1..])
  {
    hide Span;
    assert toks[i..][0] == toks[i] && toks[i..][1..] == toks[i + 1..];
  }

  method Write(t: LexerTable, toks: Tokens, out: string) returns (r: string)
    requires HasNames(t, toks)
    ensures r == out + Html(t, toks)
  {
    assert toks[0..] == toks && toks[|toks|..] == [] && Html(t, []) == [];
    hide Html, Span;
    r := out;
    for i := 0 to |toks|
      invariant r + Html(t, toks[i..]) == out + Html(t, toks)
    {
      HtmlRest(t, toks, i, r);
      r := WriteToken(t, toks[i], r);
    }
  }

  lemma {:induction false} HtmlConcat(t: LexerTable, a: Tokens, b: Tokens)
    requires HasNames(t, a) && HasNames(t, b)
    ensures HasNames(t, a + b) && Html(t, a + b) == Html(t, a) + Html(t, b)
    decreases |a|
  {
    hide Span;
    if a == [] {
      assert a + b == b;
    } else {
      assert (a + b)[0] == a[0] && (a + b)[1..] == a[1..] + b;
      HtmlConcat(t, a[1..], b);
    }
  }

  /** Escaping goes character by character. */
  lemma {:induction false} EscapeConcat(a: string, b: string)
    ensures Escape(a + b) == Escape(a) + Escape(b)
    decreases |a|
  {
    if a == [] {
      assert a + b == b;
    } else {
      assert (a + b)[0] == a[0] && (a + b)[1..] == a[1..] + b;
      EscapeConcat(a[1..], b);
    }
  }

  /** The three characters with a meaning in HTML become entities where they stand, the others stay. */
  lemma EscapesInPlace(a: string, c: char, b: string)
    ensures c == '&' ==> Escape(a + [c] + b) == Escape(a) + "&amp;" + Escape(b)
    ensures c == '<' ==> Escape(a + [c] + b) == Escape(a) + "&lt;" + Escape(b)
    ensures c == '>' ==> Escape(a + [c] + b) == Escape(a) + "&gt;" + Escape(b)
    ensures c !in "&<>" ==> Escape(a + [c] + b) == Escape(a) + [c] + Escape(b)
    ensures Escape([]) == []
  {
    assert [c][1..] == [] && Escape([c]) == EscapeChar(c) + Escape([]) == EscapeChar(c);
    hide Escape;
    EscapeConcat(a, [c]);
    EscapeConcat(a + [c], b);
  }

  /** A token stands on its page as its escaped value inside a span of its class, text without a span, whatever stands around. */
  lemma ShownInPlace(t: LexerTable, a: Tokens, tok: TokenId, v: string, b: Tokens)
    requires HasNames(t, a) && HasNames(t, b) && tok < |t.shortnames|
    ensures var page := a + [(tok, v)] + b;
            && HasNames(t, page)
            && (tok == t.textTok ==> Html(t, page) == Html(t, a) + Escape(v) + Html(t, b))
            && (tok != t.textTok ==> Html(t, page) == Html(t, a) + "<span class=\"" + t.shortnames[tok] + "\">" + Escape(v) + "</span>" + Html(t, b))
  {
    hide Html, Escape;
    HtmlOfOne(t, (tok, v));
    HtmlConcat(t, a, [(tok, v)]);
    HtmlConcat(t, a + [(tok, v)], b);
  }

  // ---- decoding ----

  /** A piece of highlighted text: the class it is shown with, None for plain text. */
  type Piece = (Option<string>, string)

  function Unescape(s: string): string {
    if s == [] then []
    else if "&amp;" <= s then ['&'] + Unescape(s[5..])
    else if "&lt;" <= s then ['<'] + Unescape(s[4..])
    else if "&gt;" <= s then ['>'] + Unescape(s[4..])
    else [s[0]] + Unescape(s[1..])
  }

  function IndexOf(c: char, s: string): (n: nat)
    ensures n <= |s| && c !in s[..n] && (n < |s| ==> s[n] == c)
  {
    if s == [] || s[0] == c then 0
    else
      var n := 1 + IndexOf(c, s[1..]);
      assert s[..n] == [s[0]] + s[1..][..n - 1];
      n
  }

  /** Read formatted text back; None when it is not the output of the formatter. */
  function Decode(s: string): Option<seq<Piece>>
    decreases |s|
  {
    if s == [] then Some([])
    else if s[0] != '<' then
      var n := IndexOf('<', s);
      Prepend((None, Unescape(s[..n])), Decode(s[n..]))
    else if !(Open() <= s) then None
    else DecodeSpan(s[|Open()|..])
  }

  function DecodeSpan(s: string): Option<seq<Piece>>
    decreases |s|
  {
    var q := IndexOf('"', s);
    if !(Tail() <= s[q..]) then None
    else
      var body := s[q + 2..];
      var n := IndexOf('<', body);
      if !(Close() <= body[n..]) then None
      else Prepend((Some(s[..q]), Unescape(body[..n])), Decode(body[n + |Close()|..]))
  }

  function Prepend(p: Piece, rest: Option<seq<Piece>>): Option<seq<Piece>> {
    match rest
    case None => None
    case Some(ps) => Some([p] + ps)
  }

  /** What a reader of the page sees. */
  function Pieces(t: LexerTable, toks: Tokens): seq<Piece>
    requires HasNames(t, toks)
  {
    if toks == [] then []
    else
      [(if toks[0].0 == t.textTok then None else Some(t.shortnames[toks[0].0]), toks[0].1)] + Pieces(t, toks[1..])
  }

  lemma UnescapeStep(c: char, rest: string)
    ensures Unescape(EscapeChar(c) + rest) == [c] + Unescape(rest)
  {
    var e := EscapeChar(c);
    var s := e + rest;
    assert s[0] == e[0] && s[|e|..] == rest && e <= s;
    if Special(c) {
      assert s[1] == e[1] && s[2] == e[2];
    }
  }

  lemma {:induction false} UnescapeEscape(v: string)
    ensures Unescape(Escape(v)) == v && '<' !in Escape(v)
    ensures v != [] ==> Escape(v) != []
  {
    hide Unescape;
    if v == [] {
      assert Unescape([]) == [] by { EmptyUnescape(); }
    } else {
      UnescapeEscape(v[1..]);
      UnescapeStep(v[0], Escape(v[1..]));
      assert '<' !in EscapeChar(v[0]);
      assert v == [v[0]] + v[1..];
    }
  }

  lemma EmptyUnescape()
    ensures Unescape([]) == []
  {
  }

  lemma IndexAfter(c: char, a: string, b: string)
    requires c !in a && (b == [] || b[0] == c)
    ensures IndexOf(c, a + b) == |a| && (a + b)[..|a|] == a && (a + b)[|a|..] == b
  {
    hide IndexOf;
    var s := a + b;
    assert forall i | 0 <= i < |a| :: s[i] == a[i] != c;
    if b != [] {
      assert forall n | |a| < n <= |s| :: s[..n][|a|] == c;
    }
  }

  predicate QuoteFree(t: LexerTable) {
    forall i | 0 <= i < |t.shortnames| :: '"' !in t.shortnames[i]
  }

  lemma Marks()
    ensures |Tail()| == 2 && Tail()[0] == '"' && Close() != [] && Close()[0] == '<'
  {
  }

  lemma DecodeTail(name: string, v: string, rest: string)
    requires '"' !in name
    ensures DecodeSpan(name + (Tail() + (Escape(v) + (Close() + rest)))) == Prepend((Some(name), v), Decode(rest))
  {
    hide Decode, Escape, Prepend, IndexOf, Unescape, Tail, Close;
    Marks();
    var body := Escape(v) + (Close() + rest);
    var s := name + (Tail() + body);
    IndexAfter('"', name, Tail() + body);
    assert s[|name| + 2..] == body;
    assert Tail() <= s[|name|..];
    DecodeBody(v, rest);
  }

  /** The escaped value ends at the closing tag. */
  lemma DecodeBody(v: string, rest: string)
    ensures var body := Escape(v) + (Close() + rest);
            && IndexOf('<', body) == |Escape(v)| && Unescape(body[..|Escape(v)|]) == v
            && Close() <= body[|Escape(v)|..] && body[|Escape(v)| + |Close()|..] == rest
  {
    hide Escape, IndexOf, Unescape, Tail, Close;
    Marks();
    var body := Escape(v) + (Close() + rest);
    UnescapeEscape(v);
    IndexAfter('<', Escape(v), Close() + rest);
    assert body[|Escape(v)|..] == Close() + rest;
  }

  lemma DecodeOneSpan(name: string, v: string, rest: string)
    requires '"' !in name
    ensures Decode(Open() + name + Tail() + Escape(v) + Close() + rest) == Prepend((Some(name), v), Decode(rest))
  {
    hide Tail, Close, Escape, DecodeSpan, Prepend;
    var s := name + (Tail() + (Escape(v) + (Close() + rest)));
    var all := Open() + s;
    DecodeTail(name, v, rest);
    assert Open() + name + Tail() + Escape(v) + Close() + rest == all by { hide Open; }
    assert all[0] == Open()[0] && Open() <= all && all[|Open()|..] == s;
    assert Decode(all) == DecodeSpan(s);
  }

  /** Decoding what `write` wrote gives back every token: its class, or plain text, and its value. */
  lemma {:induction false} WriteIsInvertible(t: LexerTable, toks: Tokens)
    requires HasNames(t, toks) && QuoteFree(t) && Canonical(toks)
    ensures Decode(Html(t, toks)) == Some(Pieces(t, toks))
  {
    if toks == [] {
    } else {
      var (tok, v) := toks[0];
      var rest := Html(t, toks[1..]);
      WriteIsInvertible(t, toks[1..]);
      if tok != t.textTok {
        DecodeOneSpan(t.shortnames[tok], v, rest);
      } else {
        UnescapeEscape(v);
        assert |toks| > 1 ==> toks[1].0 != tok && rest[0] == Open()[0];
        IndexAfter('<', Escape(v), rest);
        assert (Escape(v) + rest)[0] == Escape(v)[0];
      }
    }
  }

  // ---- the lexer's own streams ----

  lemma {:induction false} OneShotCanonical(t: LexerTable, text: string, cb: Callback, lx: Lx, pauses: nat)
    requires Good(lx) && lx.pos <= |text| && lx.nulls <= MAX_NULL_SCANS + 1
    ensures OneShot(t, text, cb, lx, pauses).Ok? ==> Canonical(OneShot(t, text, cb, lx, pauses).value)
    decreases Measure(text, lx)
  {
    hide Run, Perform, ApplyCallbackOps, StateName;
    var step := Run(t, text, lx);
    if step.Ok? {
      var lx1 := step.value.lx;
      if step.value.Done? {
        EmitAllStep([], lx1.raw);
      } else {
        var ops := cb(pauses, StateName(t, step.value.state), step.value.rule, step.value.groups);
        if ops.Ok? {
          var lx2 := Perform(t, lx1, ops.value);
          if lx2.Ok? && ApplyCallbackOps(t, lx2.value, []).Ok? {
            OneShotCanonical(t, text, cb, ApplyCallbackOps(t, lx2.value, []).value, pauses + 1);
          }
        }
      }
    }
  }

  /** On a table the loader accepts, every stream `lex` returns has a page. */
  lemma LexHasNames(t: LexerTable, text: string, cb: Callback)
    requires Named(t) && OneShot(t, text, cb, Begin(t, map[]), 0).Ok?
    ensures HasNames(t, OneShot(t, text, cb, Begin(t, map[]), 0).value)
  {
    hide OneShot, Named;
    StreamNamed(t, text, cb, Begin(t, map[]), 0);
  }

  /** The page of a text; None when the lex fails. */
  function Highlight(t: LexerTable, text: string, cb: Callback): Option<string>
    requires Named(t)
  {
    match OneShot(t, text, cb, Begin(t, map[]), 0)
    case Err(_) => None
    case Ok(toks) =>
      LexHasNames(t, text, cb);
      Some(Html(t, toks))
  }

  /** Highlighting is invertible: every stream `lex` returns can be read back from its HTML. */
  lemma HighlightingIsInvertible(t: LexerTable, text: string, cb: Callback)
    requires Named(t) && QuoteFree(t) && OneShot(t, text, cb, Begin(t, map[]), 0).Ok?
    ensures var toks := OneShot(t, text, cb, Begin(t, map[]), 0).value;
            && HasNames(t, toks) && Highlight(t, text, cb) == Some(Html(t, toks))
            && Decode(Html(t, toks)) == Some(Pieces(t, toks))
  {
    hide OneShot, Decode, Html, Pieces, Named;
    LexHasNames(t, text, cb);
    OneShotCanonical(t, text, cb, Begin(t, map[]), 0);
    WriteIsInvertible(t, OneShot(t, text, cb, Begin(t, map[]), 0).value);
  }

  function Values(ps: seq<Piece>): string {
    if ps == [] then [] else ps[0].1 + Values(ps[1..])
  }

  lemma {:induction false} ValuesAreText(t: LexerTable, toks: Tokens)
    requires HasNames(t, toks)
    ensures Values(Pieces(t, toks)) == Text(toks)
  {
    if toks == [] {
    } else {
      ValuesAreText(t, toks[1..]);
      ConsLabels(toks[0], toks[1..]);
      assert toks == [toks[0]] + toks[1..];
    }
  }

  /** For a covering table, the page without its spans and escapes is the source text. */
  lemma PageHoldsSource(t: LexerTable, text: string, cb: Callback)
    requires Named(t) && QuoteFree(t) && TableCovers(t) && CallbackCovers(cb)
    requires OneShot(t, text, cb, Begin(t, map[]), 0).Ok?
    ensures var page := Highlight(t, text, cb);
            page.Some? && Decode(page.value).Some? && Values(Decode(page.value).value) == text
  {
    hide OneShot, TableCovers, CallbackCovers, Decode, Html, Named;
    var toks := OneShot(t, text, cb, Begin(t, map[]), 0).value;
    HighlightingIsInvertible(t, text, cb);
    SessionLossless(t, text, cb);
    ValuesAreText(t, toks);
  }

  lemma HtmlOfOne(t: LexerTable, tok: (TokenId, string))
    requires tok.0 < |t.shortnames|
    ensures Html(t, [tok]) == Span(t, tok) && |Pieces(t, [tok])| == 1
  {
    hide Span;
    assert [tok][1..] == [] && Span(t, tok) + [] == Span(t, tok);
  }

  lemma HtmlOfTwo(t: LexerTable, first: (TokenId, string), second: (TokenId, string))
    requires first.0 < |t.shortnames| && second.0 < |t.shortnames|
    ensures Html(t, [first, second]) == Span(t, first) + Span(t, second) && |Pieces(t, [first, second])| == 2
  {
    hide Span;
    HtmlOfOne(t, second);
    assert [first, second][1..] == [second];
  }

  /** Why quotes are excluded: a class name with a quote can pass for the markup of two tokens. */
  lemma QuotesAreAmbiguous(t: LexerTable)
    requires t.shortnames == ["x", "y", "x" + Tail() + "a" + Close() + Open() + "y"] && t.textTok > 2
    ensures HasNames(t, [(2, "v")]) && HasNames(t, [(0, "a"), (1, "v")])
    ensures Html(t, [(2, "v")]) == Html(t, [(0, "a"), (1, "v")])
    ensures Pieces(t, [(2, "v")]) != Pieces(t, [(0, "a"), (1, "v")])
  {
    hide Open, Tail, Close, Escape;
    assert Escape("a") == "a" by { FastPathAgrees("a"); }
    HtmlOfOne(t, (2, "v"));
    HtmlOfTwo(t, (0, "a"), (1, "v"));
  }
}
