/**
 Two templates for which the reported needs are not enough: a loop variable shadowed by a
 loop over another collection, and the size of a bare loop item. They show that neither
 condition of the sufficiency theorem can be dropped.
 */
module LiquidusLimits {
  import opened Common
  import opened LiquidusText
  import opened LiquidusSyntax
  import opened LiquidusGrammar
  import opened LiquidusDemand
  import opened LiquidusMerge
  import opened LiquidusRender
  import opened LiquidusSoundness
  import opened LiquidusTextLaws
  import opened LiquidusLexing
  import opened LiquidusPrinting

  // ---- sources of one-letter names ----

  predicate Letter(s: string) {
    s == "a" || s == "b" || s == "p" || s == "x"
  }

  /** A loop over a supplied one-letter collection. */
  lemma LetterHead(loops: seq<Binding>, c: string)
    requires (c == "a" || c == "b") && forall i | 0 <= i < |loops| :: loops[i].variable == "p"
    ensures HeadOk(loops, "p", c, None) && PrintHead("p", c, None) == "p in " + c
  {
    SplitWhole(c, '.');
    assert Segments(Supplied(c, false)) == [c];
    assert 'r' in "reversed" && 'o' in "offset";
    FindAbsent(c, "reversed");
    FindAbsent(c, "offset");
    assert "p" + " in " + c + [] == "p in " + c;
  }

  // ---- shadowing ----

  /** The field read is attached to the outer collection `a`, although the renderer reads it from items of `b`. */
  function ShadowTemplate(): Template {
    Template(
      [For("p", "a", None, [For("p", "b", None, [Output(Var(Loop("p", Some("x"), false)), [])])])],
      [VarNeed("a", None, false, ["x"]), VarNeed("b", None, false, [])])
  }

  const SHADOW_SOURCE: string := "{% for p in a %}" + ("{% for p in b %}" + ("{{ p.x }}" + ("{% endfor %}" + "{% endfor %}")))

  function ShadowTokens(): seq<Tok> {
    [TagTok("for p in a")] + ([TagTok("for p in b")] + ([OutputTok("p.x")] + ([TagTok("endfor")] + ([TagTok("endfor")] + []))))
  }

  lemma FieldOk(loops: seq<Binding>)
    requires loops == [Binding("p", "a"), Binding("p", "b")]
    ensures var e := Var(Loop("p", Some("x"), false)); ExprOk(loops, e) && PrintOutput(e, []) == "p.x"
  {
    var ref := Loop("p", Some("x"), false);
    assert Segments(ref) == ["p", "x"];
    assert Join(["p", "x"], ".") == "p.x" by { assert ["p", "x"][1..] == ["x"]; assert "p" + "." + "x" == "p.x"; }
    assert loops[0].variable == "p" && "p.x" + [] == "p.x";
  }

  lemma ShadowOk()
    ensures NodesOk([], ShadowTemplate().nodes) && TokensOf(ShadowTemplate().nodes) == ShadowTokens()
  {
    hide HeadOk, PrintHead, ExprOk, PrintOutput, LiteralsOk;
    var outer := [] + [Binding("p", "a")];
    var both := outer + [Binding("p", "b")];
    LetterHead([], "a");
    LetterHead(outer, "b");
    FieldOk(both);
    var field := Output(Var(Loop("p", Some("x"), false)), []);
    var inner := For("p", "b", None, [field]);
    assert "for " + ("p in " + "a") == "for p in a" && "for " + ("p in " + "b") == "for p in b";
    assert FiltersOk([]) && !SizeFirst(field.expr, []);
    assert NodesOk(both, []) && NodesOk(both, [field]) && NodesOk(outer, []) && NodesOk(outer, [inner]);
    var none: seq<Tok> := [];
    assert TokensOf([]) == none && TokensOf([field]) == [OutputTok("p.x")] + none;
    assert TokensOf([inner]) == [TagTok("for p in b")] + (TokensOf([field]) + [TagTok("endfor")]) + none;
  }

  lemma ShadowNeeds()
    ensures NodesNeeds([], [], ShadowTemplate().nodes) == ShadowTemplate().needs
  {
    var both := [] + [Binding("p", "a")] + [Binding("p", "b")];
    var a, b := VarNeed("a", None, false, []), VarNeed("b", None, false, []);
    var needs := [] + [a] + [b];
    var field := Output(Var(Loop("p", Some("x"), false)), []);
    var inner := For("p", "b", None, [field]);
    assert OutermostBinding(both, "p") == Some("a");
    assert Front(needs) == [a] && LastNeed(needs, "a") == Some(0) && [] + ["x"] == ["x"];
    assert AttachField(needs, "a", "x") == ShadowTemplate().needs;
    assert NodesNeeds(both, needs, [field]) == ShadowTemplate().needs;
    assert NodesNeeds([] + [Binding("p", "a")], [] + [a], [inner]) == ShadowTemplate().needs;
  }

  lemma Nothing()
    ensures WellShown(Padded([])) && ShownAll(Padded([])) == ""
  {
  }

  /** One more output or tag in front, written as `shown`. */
  lemma SlotAhead(tok: Tok, rest: seq<Tok>, shown: string)
    requires !tok.TextTok? && Closer(tok.TagTok?)[0] !in tok.inner && WellShown(Padded(rest))
    requires shown == Slot(tok.TagTok?, " " + tok.inner + " ")
    ensures WellShown(Padded([tok] + rest)) && ShownAll(Padded([tok] + rest)) == shown + ShownAll(Padded(rest))
  {
    hide InnerOk;
    PlainInner(tok.TagTok?, " " + tok.inner + " ");
    assert ([tok] + rest)[1..] == rest;
    var all := [Pad(tok)] + Padded(rest);
    assert all[1..] == Padded(rest);
  }

  lemma ForSlots()
    ensures Slot(true, " " + "for p in a" + " ") == "{% for p in a %}"
    ensures Slot(true, " " + "for p in b" + " ") == "{% for p in b %}"
    ensures '%' !in "for p in a" && '%' !in "for p in b"
  {
  }

  lemma OtherSlots()
    ensures Slot(true, " " + "endfor" + " ") == "{% endfor %}" && '%' !in "endfor"
    ensures Slot(false, " " + "p.x" + " ") == "{{ p.x }}" && '}' !in "p.x"
    ensures Slot(false, " " + "p.size" + " ") == "{{ p.size }}" && '}' !in "p.size"
  {
  }

  lemma ShadowText()
    ensures WellShown(Padded(ShadowTokens())) && ShownAll(Padded(ShadowTokens())) == SHADOW_SOURCE
  {
    hide WellShown, ShownAll, Padded, Slot;
    ForSlots();
    OtherSlots();
    var t1 := [TagTok("endfor")] + [];
    var t2 := [TagTok("endfor")] + t1;
    var t3 := [OutputTok("p.x")] + t2;
    Nothing();
    SlotAhead(TagTok("endfor"), [], "{% endfor %}");
    SlotAhead(TagTok("endfor"), t1, "{% endfor %}");
    SlotAhead(OutputTok("p.x"), t2, "{{ p.x }}");
    SlotAhead(TagTok("for p in b"), t3, "{% for p in b %}");
    SlotAhead(TagTok("for p in a"), [TagTok("for p in b")] + t3, "{% for p in a %}");
    assert "{% endfor %}" + "" == "{% endfor %}";
  }

  lemma MergeTwo(fa: seq<string>)
    ensures Merge([VarNeed("a", None, false, fa), VarNeed("b", None, false, [])])
         == [VarNeed("a", None, false, fa), VarNeed("b", None, false, [])]
  {
    var a, b := VarNeed("a", None, false, fa), VarNeed("b", None, false, []);
    assert StrLe("a", "b");
    assert SortByPath([b]) == [b];
    assert [a, b][1..] == [b];
    assert SortByPath([a, b]) == [a, b];
    assert DedupStep([], a) == [a] && DedupStep([a], b) == [a, b];
    assert Dedup([a, b], []) == [a, b] && Dedup([a], [b]) == [a, b];
  }

  lemma ShadowCompiles(lookup: string -> Option<string>)
    ensures Compile(SHADOW_SOURCE, lookup) == Ok(ShadowTemplate())
  {
    hide ParseTemplate, Merge, NodesOk, TokensOf, WellShown, ShownAll, Padded, ShadowTokens, NodesNeeds;
    ShadowOk();
    ShadowText();
    ShadowNeeds();
    SourceReadBack(ShadowTemplate().nodes, lookup);
    MergeTwo(["x"]);
  }

  lemma ShadowShape()
    ensures NoItemSize(ShadowTemplate().nodes) && !ConsistentLoops([], ShadowTemplate().nodes)
  {
    var loops := [] + [Binding("p", "a")] + [Binding("p", "b")];
    assert loops[0].variable == loops[1].variable && loops[0].collection != loops[1].collection;
    assert !ConsistentLoops([] + [Binding("p", "a")], ShadowTemplate().nodes[0].body);
  }

  /** With a shadowing loop over another collection, the reported needs do not determine the output. */
  lemma ShadowingDefeatsNeeds(lookup: string -> Option<string>, ft: FilterTable)
    returns (full: Values, cut: Values)
    ensures Compile(SHADOW_SOURCE, lookup) == Ok(ShadowTemplate())
    ensures NoItemSize(ShadowTemplate().nodes) && !ConsistentLoops([], ShadowTemplate().nodes)
    ensures CutTo(ShadowTemplate().needs, full, cut)
    ensures Render(ft, ShadowTemplate(), full) == Ok("1") && Render(ft, ShadowTemplate(), cut) == Ok("")
  {
    hide Compile, ConsistentLoops, NoItemSize, RenderNodes;
    ShadowCompiles(lookup);
    ShadowShape();
    var one, none := Map([("x", Str("1"))]), Map([]);
    full := map["a" := Array([none]), "b" := Array([one])];
    cut := map["a" := Array([none]), "b" := Array([none])];
    InnerLoop(ft, full, "a", "b", none, one, "1");
    InnerLoop(ft, cut, "a", "b", none, none, "");
  }

  /** One pass of the outer loop around one pass of the inner one. */
  lemma InnerLoop(ft: FilterTable, values: Values, a: string, b: string, x: LValue, y: LValue, written: string)
    requires a in values && values[a] == Array([x]) && b in values && values[b] == Array([y])
    requires y.FieldOrNil("x") == if written == "" then Nil else Str(written)
    ensures RenderNodes(ft, values, [For("p", a, None, [For("p", b, None, [Output(Var(Loop("p", Some("x"), false)), [])])])], []) == Ok(written)
  {
    var field := Output(Var(Loop("p", Some("x"), false)), []);
    var inner := For("p", b, None, [field]);
    var f1 := [] + [Frame("p", x)];
    var f2 := f1 + [Frame("p", y)];
    assert InnermostFrame(f2, "p") == Some(y);
    assert RenderNode(ft, values, field, f2) == Ok(written);
    One(ft, values, field, f2, written);
    OnePass(ft, values, "p", y, [field], f1, written);
    One(ft, values, inner, f1, written);
    OnePass(ft, values, "p", x, [inner], [], written);
    One(ft, values, For("p", a, None, [inner]), [], written);
  }

  lemma One(ft: FilterTable, values: Values, node: Node, frames: seq<Frame>, written: string)
    requires RenderNode(ft, values, node, frames) == Ok(written)
    ensures RenderNodes(ft, values, [node], frames) == Ok(written)
  {
    assert [node][1..] == [] && written + "" == written;
    assert RenderNodes(ft, values, [], frames) == Ok("");
  }

  lemma OnePass(ft: FilterTable, values: Values, v: string, item: LValue, body: seq<Node>, frames: seq<Frame>, written: string)
    requires RenderNodes(ft, values, body, frames + [Frame(v, item)]) == Ok(written)
    ensures RenderItems(ft, values, v, [item], body, frames) == Ok(written)
  {
    assert [item][1..] == [] && written + "" == written;
    assert RenderItems(ft, values, v, [], body, frames) == Ok("");
  }

  // ---- the size of a bare item ----

  function SizeTemplate(): Template {
    Template([For("p", "a", None, [Output(Var(Loop("p", None, true)), [])])], [VarNeed("a", None, false, [])])
  }

  const SIZE_SOURCE: string := "{% for p in a %}" + ("{{ p.size }}" + "{% endfor %}")

  function SizeTokens(): seq<Tok> {
    [TagTok("for p in a")] + ([OutputTok("p.size")] + ([TagTok("endfor")] + []))
  }

  lemma SizeExprOk(loops: seq<Binding>)
    requires loops == [Binding("p", "a")]
    ensures var e := Var(Loop("p", None, true)); ExprOk(loops, e) && PrintOutput(e, []) == "p.size"
  {
    var ref := Loop("p", None, true);
    assert Segments(ref) == ["p", "size"];
    assert Join(["p", "size"], ".") == "p.size" by { assert ["p", "size"][1..] == ["size"]; assert "p" + "." + "size" == "p.size"; }
    assert loops[0].variable == "p" && "p.size" + [] == "p.size";
  }

  lemma SizeOk()
    ensures NodesOk([], SizeTemplate().nodes) && TokensOf(SizeTemplate().nodes) == SizeTokens()
    ensures NodesNeeds([], [], SizeTemplate().nodes) == SizeTemplate().needs
  {
    hide HeadOk, PrintHead, ExprOk, PrintOutput, LiteralsOk;
    var inside := [] + [Binding("p", "a")];
    LetterHead([], "a");
    SizeExprOk(inside);
    var size := Output(Var(Loop("p", None, true)), []);
    assert "for " + ("p in " + "a") == "for p in a";
    assert FiltersOk([]) && NodesOk(inside, []) && NodesOk(inside, [size]);
    var none: seq<Tok> := [];
    assert TokensOf([]) == none && TokensOf([size]) == [OutputTok("p.size")] + none;
    var needs := [] + [VarNeed("a", None, false, [])];
    assert NodesNeeds(inside, needs, [size]) == needs == SizeTemplate().needs;
  }

  lemma SizeText()
    ensures WellShown(Padded(SizeTokens())) && ShownAll(Padded(SizeTokens())) == SIZE_SOURCE
  {
    hide WellShown, ShownAll, Padded, Slot;
    ForSlots();
    OtherSlots();
    Nothing();
    SlotAhead(TagTok("endfor"), [], "{% endfor %}");
    SlotAhead(OutputTok("p.size"), [TagTok("endfor")] + [], "{{ p.size }}");
    SlotAhead(TagTok("for p in a"), [OutputTok("p.size")] + ([TagTok("endfor")] + []), "{% for p in a %}");
    assert "{% endfor %}" + "" == "{% endfor %}";
  }

  lemma SizeCompiles(lookup: string -> Option<string>)
    ensures Compile(SIZE_SOURCE, lookup) == Ok(SizeTemplate())
  {
    hide ParseTemplate, Merge, NodesOk, TokensOf, WellShown, ShownAll, Padded, SizeTokens, NodesNeeds;
    SizeOk();
    SizeText();
    SourceReadBack(SizeTemplate().nodes, lookup);
    MergeOne(VarNeed("a", None, false, []));
  }

  lemma MergeOne(n: VarNeed)
    ensures Merge([n]) == [n]
  {
    assert SortByPath([]) == [] && SortByPath([n]) == [n];
    assert DedupStep([], n) == [n] && Dedup([n], []) == [n];
  }

  /** The size of a bare loop item counts pairs that no need asks for. */
  lemma ItemSizeDefeatsNeeds(lookup: string -> Option<string>, ft: FilterTable)
    returns (full: Values, cut: Values)
    ensures Compile(SIZE_SOURCE, lookup) == Ok(SizeTemplate())
    ensures ConsistentLoops([], SizeTemplate().nodes) && !NoItemSize(SizeTemplate().nodes)
    ensures CutTo(SizeTemplate().needs, full, cut)
    ensures Render(ft, SizeTemplate(), full) == Ok("1") && Render(ft, SizeTemplate(), cut) == Ok("0")
  {
    hide Compile, RenderNodes;
    SizeCompiles(lookup);
    var one, none := Map([("x", Str("1"))]), Map([]);
    full := map["a" := Array([one])];
    cut := map["a" := Array([none])];
    SizeLoop(ft, full, one);
    SizeLoop(ft, cut, none);
  }

  lemma SizeLoop(ft: FilterTable, values: Values, item: LValue)
    requires "a" in values && values["a"] == Array([item]) && item.Map? && |item.pairs| < 10
    ensures RenderNodes(ft, values, SizeTemplate().nodes, []) == Ok(NatToString(|item.pairs|))
  {
    var size := Output(Var(Loop("p", None, true)), []);
    var f := [] + [Frame("p", item)];
    assert InnermostFrame(f, "p") == Some(item);
    var written := NatToString(|item.pairs|);
    assert RenderNode(ft, values, size, f) == Ok(written);
    One(ft, values, size, f, written);
    OnePass(ft, values, "p", item, [size], [], written);
    One(ft, values, For("p", "a", None, [size]), [], written);
  }
}
