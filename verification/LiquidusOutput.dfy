/**
 Laws of the output: what a condition, a loop, a comparison, a filter chain and a value
 contribute to the rendered text, wherever they stand in a template.
 */
module LiquidusOutput {
  import opened Common
  import opened LiquidusText
  import opened LiquidusTextLaws
  import opened LiquidusSyntax
  import opened LiquidusRender

  /** Nodes render one after the other; the first decline is the result. */
  lemma {:induction false} RenderConcat(ft: FilterTable, values: Values, a: seq<Node>, b: seq<Node>, frames: seq<Frame>)
    ensures var all := RenderNodes(ft, values, a + b, frames);
            match RenderNodes(ft, values, a, frames)
            case Err(e) => all == Err(e)
            case Ok(s) => all == Prefixed(s, RenderNodes(ft, values, b, frames))
    decreases |a|
  {
    hide RenderNode;
    if a == [] {
      assert a + b == b;
      PrefixNothing(RenderNodes(ft, values, b, frames));
    } else {
      assert (a + b)[0] == a[0] && (a + b)[1..] == a[1..] + b;
      RenderConcat(ft, values, a[1..], b, frames);
      var first, rest, more := RenderNode(ft, values, a[0], frames), RenderNodes(ft, values, a[1..], frames), RenderNodes(ft, values, b, frames);
      if first.Ok? && rest.Ok? && more.Ok? {
        Regroup(first.value, rest.value, more.value);
      }
    }
  }

  lemma OneNode(ft: FilterTable, values: Values, node: Node, frames: seq<Frame>)
    ensures RenderNodes(ft, values, [node], frames) == RenderNode(ft, values, node, frames)
  {
    hide RenderNode;
    assert [node][1..] == [] && RenderNodes(ft, values, [], frames) == Ok("");
    var first := RenderNode(ft, values, node, frames);
    if first.Ok? {
      assert first.value + "" == first.value;
    }
  }

  /** Nodes with one rendering can stand for each other anywhere in a list. */
  lemma Replace(ft: FilterTable, values: Values, a: seq<Node>, x: seq<Node>, y: seq<Node>, b: seq<Node>, frames: seq<Frame>)
    requires RenderNodes(ft, values, x, frames) == RenderNodes(ft, values, y, frames)
    ensures RenderNodes(ft, values, a + x + b, frames) == RenderNodes(ft, values, a + y + b, frames)
  {
    hide RenderNodes;
    RenderConcat(ft, values, a, x, frames);
    RenderConcat(ft, values, a, y, frames);
    RenderConcat(ft, values, a + x, b, frames);
    RenderConcat(ft, values, a + y, b, frames);
  }

  // ---- conditions ----

  /** A block whose condition holds renders as its body in its place. */
  lemma IfHolds(ft: FilterTable, values: Values, a: seq<Node>, c: Cond, body: seq<Node>, b: seq<Node>, frames: seq<Frame>)
    requires EvalCond(values, frames, c) == Ok(true)
    ensures RenderNodes(ft, values, a + [If(c, body)] + b, frames) == RenderNodes(ft, values, a + body + b, frames)
  {
    OneNode(ft, values, If(c, body), frames);
    Replace(ft, values, a, [If(c, body)], body, b, frames);
  }

  /** A block whose condition fails renders as nothing. */
  lemma IfFails(ft: FilterTable, values: Values, a: seq<Node>, c: Cond, body: seq<Node>, b: seq<Node>, frames: seq<Frame>)
    requires EvalCond(values, frames, c) == Ok(false)
    ensures RenderNodes(ft, values, a + [If(c, body)] + b, frames) == RenderNodes(ft, values, a + b, frames)
  {
    OneNode(ft, values, If(c, body), frames);
    assert RenderNodes(ft, values, [], frames) == Ok("");
    Replace(ft, values, a, [If(c, body)], [], b, frames);
    assert a + [] + b == a + b;
  }

  /** A condition that declines declines the template, unless something before it did. */
  lemma IfDeclines(ft: FilterTable, values: Values, a: seq<Node>, c: Cond, body: seq<Node>, b: seq<Node>, frames: seq<Frame>)
    requires EvalCond(values, frames, c).Err?
    ensures var before, all := RenderNodes(ft, values, a, frames), RenderNodes(ft, values, a + [If(c, body)] + b, frames);
            all == if before.Err? then before else Err(EvalCond(values, frames, c).error)
  {
    hide EvalCond;
    OneNode(ft, values, If(c, body), frames);
    RenderConcat(ft, values, a, [If(c, body)], frames);
    RenderConcat(ft, values, a + [If(c, body)], b, frames);
  }

  /** A bare condition fails on nil and false only. */
  lemma TruthyIs(values: Values, frames: seq<Frame>, e: Expr, v: LValue)
    requires Eval(values, frames, e) == Ok(v)
    ensures EvalCond(values, frames, Truthy(e)) == Ok(true) <==> v != Nil && v != Bool(false)
    ensures EvalCond(values, frames, Truthy(e)) == Ok(false) <==> v == Nil || v == Bool(false)
  {
  }

  /** Integers compare as numbers. */
  lemma IntegersCompare(values: Values, frames: seq<Frame>, l: Expr, r: Expr, m: int, n: int)
    requires Eval(values, frames, l) == Ok(Int(m)) && Eval(values, frames, r) == Ok(Int(n))
    ensures EvalCond(values, frames, Compare(l, Gt, r)) == Ok(m > n)
    ensures EvalCond(values, frames, Compare(l, Lt, r)) == Ok(m < n)
    ensures EvalCond(values, frames, Compare(l, Ge, r)) == Ok(m >= n)
    ensures EvalCond(values, frames, Compare(l, Le, r)) == Ok(m <= n)
    ensures EvalCond(values, frames, Compare(l, Eq, r)) == Ok(m == n)
    ensures EvalCond(values, frames, Compare(l, Ne, r)) == Ok(m != n)
  {
    hide Eval;
  }

  /** Strings are equal or not; an order on them declines. */
  lemma StringsCompare(values: Values, frames: seq<Frame>, l: Expr, r: Expr, s: string, t: string)
    requires Eval(values, frames, l) == Ok(Str(s)) && Eval(values, frames, r) == Ok(Str(t))
    ensures EvalCond(values, frames, Compare(l, Eq, r)) == Ok(s == t)
    ensures EvalCond(values, frames, Compare(l, Ne, r)) == Ok(s != t)
    ensures forall op :: op != Eq && op != Ne ==> EvalCond(values, frames, Compare(l, op, r)).Err?
  {
    hide Eval;
  }

  /** Nil equals nil only. */
  lemma NilCompares(values: Values, frames: seq<Frame>, l: Expr, r: Expr, v: LValue)
    requires Eval(values, frames, l) == Ok(Nil) && Eval(values, frames, r) == Ok(v)
    ensures EvalCond(values, frames, Compare(l, Eq, r)) == Ok(v == Nil) && EvalCond(values, frames, Compare(r, Eq, l)) == Ok(v == Nil)
    ensures EvalCond(values, frames, Compare(l, Ne, r)) == Ok(v != Nil) && EvalCond(values, frames, Compare(r, Ne, l)) == Ok(v != Nil)
  {
    hide Eval;
  }

  // ---- loops ----

  function Flatten(pieces: seq<string>): string {
    if pieces == [] then [] else pieces[0] + Flatten(pieces[1..])
  }

  lemma {:induction false} ItemsConcatenate(ft: FilterTable, values: Values, v: string, items: seq<LValue>, body: seq<Node>,
                                            frames: seq<Frame>, pieces: seq<string>)
    requires |pieces| == |items|
    requires forall i | 0 <= i < |items| :: RenderNodes(ft, values, body, frames + [Frame(v, items[i])]) == Ok(pieces[i])
    ensures RenderItems(ft, values, v, items, body, frames) == Ok(Flatten(pieces))
    decreases |items|
  {
    hide RenderNodes;
    if items == [] {
    } else {
      ItemsConcatenate(ft, values, v, items[1..], body, frames, pieces[1..]);
    }
  }

  lemma {:induction false} ItemsDecline(ft: FilterTable, values: Values, v: string, items: seq<LValue>, body: seq<Node>,
                                        frames: seq<Frame>, k: nat)
    requires k < |items| && RenderNodes(ft, values, body, frames + [Frame(v, items[k])]).Err?
    requires forall i | 0 <= i < k :: RenderNodes(ft, values, body, frames + [Frame(v, items[i])]).Ok?
    ensures RenderItems(ft, values, v, items, body, frames) == Err(RenderNodes(ft, values, body, frames + [Frame(v, items[k])]).error)
    decreases k
  {
    hide RenderNodes;
    if k > 0 {
      assert forall i | 0 <= i < k - 1 :: items[1..][i] == items[i + 1];
      ItemsDecline(ft, values, v, items[1..], body, frames, k - 1);
    }
  }

  /** A loop renders its body for the items up to the limit, in order; the first item that declines is the result. */
  lemma ForConcatenates(ft: FilterTable, values: Values, v: string, collection: string, limit: Option<nat>, body: seq<Node>,
                        frames: seq<Frame>, items: seq<LValue>, pieces: seq<Res<string>>)
    requires collection in values && values[collection] == Array(items)
    requires |pieces| == if limit.Some? then Min(limit.value, |items|) else |items|
    requires forall i | 0 <= i < |pieces| :: RenderNodes(ft, values, body, frames + [Frame(v, items[i])]) == pieces[i]
    ensures var r := RenderNode(ft, values, For(v, collection, limit, body), frames);
            if forall i | 0 <= i < |pieces| :: pieces[i].Ok?
            then r == Ok(Flatten(seq(|pieces|, i requires 0 <= i < |pieces| && pieces[i].Ok? => pieces[i].value)))
            else exists k :: 0 <= k < |pieces| && pieces[k].Err? && r == Err(pieces[k].error) && forall i | 0 <= i < k :: pieces[i].Ok?
  {
    hide RenderNodes, RenderItems;
    var n := |pieces|;
    assert LoopItems(values, collection, limit) == Ok(items[..n]) by {
      assert items[..|items|] == items;
    }
    if forall i | 0 <= i < n :: pieces[i].Ok? {
      ItemsConcatenate(ft, values, v, items[..n], body, frames, seq(n, i requires 0 <= i < n && pieces[i].Ok? => pieces[i].value));
    } else {
      var k := FirstErr(pieces);
      ItemsDecline(ft, values, v, items[..n], body, frames, k);
    }
  }

  lemma {:induction false} FirstErr<T>(pieces: seq<Res<T>>) returns (k: nat)
    requires exists i :: 0 <= i < |pieces| && pieces[i].Err?
    ensures k < |pieces| && pieces[k].Err? && forall i | 0 <= i < k :: pieces[i].Ok?
  {
    k := 0;
    while pieces[k].Ok?
      invariant k < |pieces| && forall i | 0 <= i < k :: pieces[i].Ok?
      invariant exists i :: k <= i < |pieces| && pieces[i].Err?
      decreases |pieces| - k
    {
      k := k + 1;
    }
  }

  /** A nil collection has no items. */
  lemma ForOverNil(ft: FilterTable, values: Values, v: string, collection: string, limit: Option<nat>, body: seq<Node>, frames: seq<Frame>)
    requires collection in values && values[collection] == Nil
    ensures RenderNode(ft, values, For(v, collection, limit, body), frames) == Ok("")
  {
  }

  /** A loop over nothing supplied, or over anything else than an array or nil, declines. */
  lemma ForDeclines(ft: FilterTable, values: Values, v: string, collection: string, limit: Option<nat>, body: seq<Node>, frames: seq<Frame>)
    requires collection in values ==> !values[collection].Array? && !values[collection].Nil?
    ensures RenderNode(ft, values, For(v, collection, limit, body), frames).Err?
  {
  }

  /** Inside its loop a variable is the item at hand; the others are what they were outside. */
  lemma LoopVariable(values: Values, frames: seq<Frame>, v: string, item: LValue, u: string, field: Option<string>)
    ensures var inside := frames + [Frame(v, item)];
            && Eval(values, inside, Var(Loop(v, None, false))) == Ok(item)
            && (u != v ==> Eval(values, inside, Var(Loop(u, field, false))) == Eval(values, frames, Var(Loop(u, field, false))))
  {
    var inside := frames + [Frame(v, item)];
    assert Last(inside) == Frame(v, item) && Front(inside) == frames;
  }

  /** The size of an item, or of a field of it, counts its characters, items or pairs; numbers, booleans and nil have none. */
  lemma LoopSize(values: Values, frames: seq<Frame>, v: string, item: LValue, field: Option<string>)
    ensures var of := if field.Some? then item.FieldOrNil(field.value) else item;
            var r := Eval(values, frames + [Frame(v, item)], Var(Loop(v, field, true)));
            match of
            case Str(s) => r == Ok(Int(|s|))
            case Array(items) => r == Ok(Int(|items|))
            case Map(pairs) => r == Ok(Int(|pairs|))
            case _ => r.Err?
  {
    LoopVariable(values, frames, v, item, v, None);
  }

  /** A variable of no enclosing loop declines. */
  lemma {:induction false} OutOfScope(values: Values, frames: seq<Frame>, v: string, field: Option<string>, size: bool)
    requires forall i | 0 <= i < |frames| :: frames[i].variable != v
    ensures Eval(values, frames, Var(Loop(v, field, size))).Err?
    decreases |frames|
  {
    if frames != [] {
      OutOfScope(values, Front(frames), v, field, size);
    }
  }

  /** A literal is its own value. */
  lemma LiteralsAre(values: Values, frames: seq<Frame>, s: string, n: int)
    ensures Eval(values, frames, StrLit(s)) == Ok(Str(s)) && Eval(values, frames, IntLit(n)) == Ok(Int(n))
  {
  }

  /** A field of the item is the value of its first pair with that name, else nil. */
  lemma LoopField(values: Values, frames: seq<Frame>, v: string, pairs: seq<(string, LValue)>, field: string)
    ensures var r := Eval(values, frames + [Frame(v, Map(pairs))], Var(Loop(v, Some(field), false)));
            if forall i | 0 <= i < |pairs| :: pairs[i].0 != field then r == Ok(Nil)
            else exists i :: 0 <= i < |pairs| && pairs[i].0 == field && r == Ok(pairs[i].1) && forall j | 0 <= j < i :: pairs[j].0 != field
  {
    LoopVariable(values, frames, v, Map(pairs), v, None);
    FirstPair(pairs, field);
  }

  /** A field is the value of the first pair with its name. */
  lemma {:induction false} FirstPair(pairs: seq<(string, LValue)>, name: string)
    ensures match FieldOf(pairs, name)
            case None => forall i | 0 <= i < |pairs| :: pairs[i].0 != name
            case Some(v) => exists i :: 0 <= i < |pairs| && pairs[i] == (name, v) && forall j | 0 <= j < i :: pairs[j].0 != name
  {
    if pairs == [] {
    } else if pairs[0].0 == name {
      assert pairs[0] == (name, pairs[0].1);
    } else {
      FirstPair(pairs[1..], name);
      if FieldOf(pairs, name).Some? {
        var i :| 0 <= i < |pairs[1..]| && pairs[1..][i] == (name, FieldOf(pairs, name).value) && forall j | 0 <= j < i :: pairs[1..][j].0 != name;
        assert pairs[i + 1] == (name, FieldOf(pairs, name).value);
        assert forall j | 0 < j < i + 1 :: pairs[j] == pairs[1..][j - 1];
      }
    }
  }

  // ---- outputs ----

  lemma {:induction false} FiltersThen(ft: FilterTable, fs: seq<FilterCall>, f: FilterCall, v: LValue)
    ensures var all := ApplyFilters(ft, fs + [f], v);
            match ApplyFilters(ft, fs, v)
            case Err(e) => all == Err(e)
            case Ok(w) => all == ApplyFilter(ft, f, w)
    decreases |fs|
  {
    hide ApplyFilter;
    if fs == [] {
      assert [] + [f] == [f] && [f][1..] == [];
    } else {
      assert (fs + [f])[0] == fs[0] && (fs + [f])[1..] == fs[1..] + [f];
      var w := ApplyFilter(ft, fs[0], v);
      if w.Ok? {
        FiltersThen(ft, fs[1..], f, w.value);
      }
    }
  }

  /** Filters run from left to right: the last one works on what the ones before it made, and its result is shown. */
  lemma LastFilter(ft: FilterTable, values: Values, e: Expr, fs: seq<FilterCall>, f: FilterCall, frames: seq<Frame>,
                   v: LValue, w: LValue, shown: Expr)
    requires Eval(values, frames, e) == Ok(v) && ApplyFilters(ft, fs, v) == Ok(w)
    requires !w.Array? && !w.Map? && f.name != "size"
    ensures var r, applied := RenderNode(ft, values, Output(e, fs + [f]), frames), ft.apply(f.name, w, f.args);
            && (applied.Err? ==> r == Err(applied.error))
            && (applied.Ok? && Eval(values, frames, shown) == applied ==> r == RenderNode(ft, values, Output(shown, []), frames))
  {
    hide Eval, WriteValue;
    FiltersThen(ft, fs, f, v);
  }

  /** The `size` filter counts characters, items and pairs, none in nil; the other filters decline arrays and maps. */
  lemma FilterOn(ft: FilterTable, args: seq<Expr>, name: string, s: string, items: seq<LValue>, pairs: seq<(string, LValue)>)
    ensures ApplyFilter(ft, FilterCall("size", args), Str(s)) == Ok(Int(|s|))
    ensures ApplyFilter(ft, FilterCall("size", args), Array(items)) == Ok(Int(|items|))
    ensures ApplyFilter(ft, FilterCall("size", args), Map(pairs)) == Ok(Int(|pairs|))
    ensures ApplyFilter(ft, FilterCall("size", args), Nil) == Ok(Int(0))
    ensures name != "size" ==>
              ApplyFilter(ft, FilterCall(name, args), Array(items)).Err? && ApplyFilter(ft, FilterCall(name, args), Map(pairs)).Err?
  {
  }

  /** A path reads what is supplied under it, and declines when nothing is. */
  lemma SuppliedReads(values: Values, frames: seq<Frame>, path: string)
    ensures var r := Eval(values, frames, Var(Supplied(path, false)));
            if path in values then r == Ok(values[path]) else r.Err?
  {
  }

  /** What a value looks like: nothing for nil, a string as it is, the name of a boolean, the digits of an integer; the rest declines. */
  lemma ValueShows(ft: FilterTable, values: Values, e: Expr, frames: seq<Frame>, v: LValue)
    requires Eval(values, frames, e) == Ok(v)
    ensures var r := RenderNode(ft, values, Output(e, []), frames);
            match v
            case Nil => r == Ok("")
            case Str(s) => r == Ok(s)
            case Bool(b) => r == Ok(if b then "true" else "false")
            case Int(n) =>
              && r.Ok? && ParseInteger(r.value, n, n) == Some(n)
              && r.value != [] && (|r.value| > 1 ==> r.value[0] != '0') && (|r.value| > 2 && n < 0 ==> r.value[1] != '0')
              && (if n >= 0 then AllDigits(r.value) else r.value[0] == '-' && |r.value| > 1 && AllDigits(r.value[1..]))
            case _ => r.Err?
  {
    hide Eval, IntToString, ParseInteger;
    if v.Int? {
      IntegerReadBack(v.n, v.n, v.n);
    }
  }

  /** `size` counts characters, items and pairs; a companion under `path#size` goes first. */
  lemma SizeShows(values: Values, path: string, s: string, items: seq<LValue>, pairs: seq<(string, LValue)>, n: int)
    requires path in values
    ensures var r := Eval(values, [], Var(Supplied(path, true)));
            if path + "#size" in values && values[path + "#size"] == Int(n) then r == Ok(Int(n))
            else if path + "#size" in values && values[path + "#size"].Int? then r.Ok?
            else
              && (values[path] == Str(s) ==> r == Ok(Int(|s|)))
              && (values[path] == Array(items) ==> r == Ok(Int(|items|)))
              && (values[path] == Map(pairs) ==> r == Ok(Int(|pairs|)))
  {
  }

  /** Text goes out as it is. */
  lemma TextShows(ft: FilterTable, values: Values, t: string, frames: seq<Frame>)
    ensures RenderNodes(ft, values, [Text(t)], frames) == Ok(t)
  {
    OneNode(ft, values, Text(t), frames);
  }
}
