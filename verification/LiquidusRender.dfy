/** The liquidus renderer: what a template writes for supplied values, or why it declines. */
module LiquidusRender {
  import opened Common
  import opened LiquidusText
  import opened LiquidusSyntax

  type Values = map<string, LValue>

  /**
   The filters other than `size`: their result on an input that is neither an array nor a
   map, and the reason they give for declining an array or a map, which depends on the
   filter and its literal arguments only.
   */
  datatype FilterTable = FilterTable(
    apply: (string, LValue, seq<Expr>) -> Res<LValue>,
    refusal: (string, seq<Expr>) -> string)

  datatype Frame = Frame(variable: string, item: LValue)

  function Lookup(values: Values, path: string): Res<LValue> {
    if path in values then Ok(values[path]) else Err("missing-supplied-value")
  }

  function SizeOf(v: LValue): Res<LValue> {
    match v
    case Array(items) => Ok(Int(|items|))
    case Str(s) => Ok(Int(|s|))
    case Map(pairs) => Ok(Int(|pairs|))
    case _ => Err("size-of-non-collection")
  }

  function SizeKey(path: string): string {
    path + "#size"
  }

  /** Loop variables resolve from the innermost frame outwards. */
  function InnermostFrame(frames: seq<Frame>, name: string): Option<LValue> {
    if frames == [] then None
    else if Last(frames).variable == name then Some(Last(frames).item)
    else InnermostFrame(Front(frames), name)
  }

  function EvalSupplied(values: Values, path: string, size: bool): Res<LValue> {
    var v :- Lookup(values, path);
    if !size then Ok(v)
    else if SizeKey(path) in values && values[SizeKey(path)].Int? then Ok(values[SizeKey(path)])
    else SizeOf(v)
  }

  function Eval(values: Values, frames: seq<Frame>, e: Expr): Res<LValue> {
    match e
    case StrLit(s) => Ok(Str(s))
    case IntLit(n) => Ok(Int(n))
    case Var(Supplied(path, size)) => EvalSupplied(values, path, size)
    case Var(Loop(v, field, size)) =>
      match InnermostFrame(frames, v)
      case None => Err("loop-var-out-of-scope")
      case Some(item) =>
        var base := if field.Some? then item.FieldOrNil(field.value) else item;
        if size then SizeOf(base) else Ok(base)
  }

  function CompareInts(op: CmpOp, a: int, b: int): bool {
    match op
    case Gt => a > b
    case Lt => a < b
    case Ge => a >= b
    case Le => a <= b
    case Eq => a == b
    case Ne => a != b
  }

  function CompareValues(op: CmpOp, l: LValue, r: LValue): Res<bool> {
    if l.Int? && r.Int? then Ok(CompareInts(op, l.n, r.n))
    else if l.Str? && r.Str? && (op == Eq || op == Ne) then Ok((l.s == r.s) == (op == Eq))
    else if (l.Nil? || r.Nil?) && (op == Eq || op == Ne) then Ok((l.Nil? && r.Nil?) == (op == Eq))
    else Err("compare-shape")
  }

  function EvalCond(values: Values, frames: seq<Frame>, c: Cond): Res<bool> {
    match c
    case Truthy(e) =>
      var v :- Eval(values, frames, e);
      Ok(v != Nil && v != Bool(false))
    case Compare(lhs, op, rhs) =>
      var l :- Eval(values, frames, lhs);
      var r :- Eval(values, frames, rhs);
      CompareValues(op, l, r)
  }

  /** Filter `size` measures anything countable; every other filter declines on arrays and maps. */
  function ApplyFilter(ft: FilterTable, f: FilterCall, v: LValue): Res<LValue> {
    if f.name == "size" then
      match v
      case Array(items) => Ok(Int(|items|))
      case Str(s) => Ok(Int(|s|))
      case Map(pairs) => Ok(Int(|pairs|))
      case Nil => Ok(Int(0))
      case _ => Err("size-shape")
    else if v.Array? || v.Map? then Err(ft.refusal(f.name, f.args))
    else ft.apply(f.name, v, f.args)
  }

  function ApplyFilters(ft: FilterTable, filters: seq<FilterCall>, v: LValue): Res<LValue> {
    if filters == [] then Ok(v)
    else
      var w :- ApplyFilter(ft, filters[0], v);
      ApplyFilters(ft, filters[1..], w)
  }

  function WriteValue(v: LValue): Res<string> {
    match v
    case Nil => Ok("")
    case Bool(b) => Ok(if b then "true" else "false")
    case Int(n) => Ok(IntToString(n))
    case Str(s) => Ok(s)
    case _ => Err("output-shape")
  }

  /** The items a loop visits: a nil collection has none, any other scalar declines. */
  function LoopItems(values: Values, collection: string, limit: Option<nat>): Res<seq<LValue>> {
    var c :- Lookup(values, collection);
    match c
    case Array(items) => Ok(if limit.Some? && limit.value < |items| then items[..limit.value] else items)
    case Nil => Ok([])
    case _ => Err("for-over-non-array")
  }

  function RenderNode(ft: FilterTable, values: Values, node: Node, frames: seq<Frame>): Res<string>
    decreases node, 2
  {
    match node
    case Text(t) => Ok(t)
    case Output(e, filters) =>
      var v :- Eval(values, frames, e);
      var w :- ApplyFilters(ft, filters, v);
      WriteValue(w)
    case If(c, body) =>
      var holds :- EvalCond(values, frames, c);
      if holds then RenderNodes(ft, values, body, frames) else Ok("")
    case For(v, collection, limit, body) =>
      var items :- LoopItems(values, collection, limit);
      RenderItems(ft, values, v, items, body, frames)
  }

  function RenderItems(ft: FilterTable, values: Values, variable: string, items: seq<LValue>, body: seq<Node>, frames: seq<Frame>): Res<string>
    decreases body, |items| + 1
  {
    if items == [] then Ok("")
    else
      var first :- RenderNodes(ft, values, body, frames + [Frame(variable, items[0])]);
      var rest :- RenderItems(ft, values, variable, items[1..], body, frames);
      Ok(first + rest)
  }

  function RenderNodes(ft: FilterTable, values: Values, nodes: seq<Node>, frames: seq<Frame>): Res<string>
    decreases nodes, 0
  {
    if nodes == [] then Ok("")
    else
      var first :- RenderNode(ft, values, nodes[0], frames);
      var rest :- RenderNodes(ft, values, nodes[1..], frames);
      Ok(first + rest)
  }

  function Render(ft: FilterTable, t: Template, values: Values): Res<string> {
    RenderNodes(ft, values, t.nodes, [])
  }

  // ---- the same walk with a growing buffer and a frame stack ----

  function Prefixed(written: string, r: Res<string>): Res<string> {
    match r
    case Ok(s) => Ok(written + s)
    case Err(_) => r
  }

  lemma PrefixNothing(r: Res<string>)
    ensures Prefixed("", r) == r
  {
    if r.Ok? {
      assert "" + r.value == r.value;
    }
  }

  lemma PrefixEmpty(written: string)
    ensures Prefixed(written, Ok("")) == Ok(written)
  {
    assert written + "" == written;
  }

  /** The next node's piece joins what is written. */
  lemma PrefixNode(ft: FilterTable, values: Values, nodes: seq<Node>, frames: seq<Frame>, written: string)
    requires nodes != []
    ensures var all := Prefixed(written, RenderNodes(ft, values, nodes, frames));
            match RenderNode(ft, values, nodes[0], frames)
            case Err(e) => all == Err(e)
            case Ok(piece) => all == Prefixed(written + piece, RenderNodes(ft, values, nodes[1..], frames))
  {
    hide RenderNode;
    var (first, rest) := (RenderNode(ft, values, nodes[0], frames), RenderNodes(ft, values, nodes[1..], frames));
    if first.Ok? && rest.Ok? {
      Regroup(written, first.value, rest.value);
    }
  }

  /** The next item's piece joins what is written. */
  lemma PrefixItem(ft: FilterTable, values: Values, variable: string, items: seq<LValue>, body: seq<Node>, frames: seq<Frame>, written: string)
    requires items != []
    ensures var all := Prefixed(written, RenderItems(ft, values, variable, items, body, frames));
            match RenderNodes(ft, values, body, frames + [Frame(variable, items[0])])
            case Err(e) => all == Err(e)
            case Ok(piece) => all == Prefixed(written + piece, RenderItems(ft, values, variable, items[1..], body, frames))
  {
    hide RenderNodes;
    var first := RenderNodes(ft, values, body, frames + [Frame(variable, items[0])]);
    var rest := RenderItems(ft, values, variable, items[1..], body, frames);
    if first.Ok? && rest.Ok? {
      Regroup(written, first.value, rest.value);
    }
  }

  class RenderState {
    var out: string
    var frames: seq<Frame>

    constructor ()
      ensures out == "" && frames == []
    {
      out, frames := "", [];
    }

    /** Appends what the nodes write and leaves the frame stack as it was, also when it declines. */
    method Walk(ft: FilterTable, values: Values, nodes: seq<Node>) returns (r: Res<()>)
      modifies this
      ensures frames == old(frames)
      ensures var spec := RenderNodes(ft, values, nodes, old(frames));
              match r
              case Ok(_) => spec.Ok? && out == old(out) + spec.value
              case Err(e) => spec == Err(e)
      decreases nodes, 0
    {
      ghost var spec := RenderNodes(ft, values, nodes, frames);
      ghost var written := "";
      assert nodes[0..] == nodes && nodes[|nodes|..] == [];
      PrefixNothing(spec);
      for i := 0 to |nodes|
        invariant frames == old(frames) && out == old(out) + written
        invariant Prefixed(written, RenderNodes(ft, values, nodes[i..], frames)) == spec
      {
        var node := nodes[i];
        assert nodes[i..][0] == node && nodes[i..][1..] == nodes[i + 1..];
        PrefixNode(ft, values, nodes[i..], frames, written);
        var step := Visit(ft, values, node);
        if step.Err? {
          return step;
        }
        ghost var piece := RenderNode(ft, values, node, frames).value;
        Regroup(old(out), written, piece);
        written := written + piece;
      }
      PrefixEmpty(written);
      r := Ok(());
    }

    method Visit(ft: FilterTable, values: Values, node: Node) returns (r: Res<()>)
      modifies this
      ensures frames == old(frames)
      ensures var spec := RenderNode(ft, values, node, old(frames));
              match r
              case Ok(_) => spec.Ok? && out == old(out) + spec.value
              case Err(e) => spec == Err(e)
      decreases node, 1
    {
      match node
      case Text(t) =>
        out := out + t;
        r := Ok(());
      case Output(e, filters) =>
        var v :- Eval(values, frames, e);
        var w :- ApplyFilters(ft, filters, v);
        var s :- WriteValue(w);
        out := out + s;
        r := Ok(());
      case If(c, body) =>
        var holds :- EvalCond(values, frames, c);
        if holds {
          r := Walk(ft, values, body);
        } else {
          assert out == old(out) + "";
          r := Ok(());
        }
      case For(v, collection, limit, body) =>
        var items :- LoopItems(values, collection, limit);
        r := Loop(ft, values, v, items, body);
    }

    method Loop(ft: FilterTable, values: Values, variable: string, items: seq<LValue>, body: seq<Node>) returns (r: Res<()>)
      modifies this
      ensures frames == old(frames)
      ensures var spec := RenderItems(ft, values, variable, items, body, old(frames));
              match r
              case Ok(_) => spec.Ok? && out == old(out) + spec.value
              case Err(e) => spec == Err(e)
      decreases body, 1
    {
      ghost var before := frames;
      ghost var spec := RenderItems(ft, values, variable, items, body, before);
      ghost var written := "";
      assert items[0..] == items && items[|items|..] == [];
      PrefixNothing(spec);
      for i := 0 to |items|
        invariant frames == before && out == old(out) + written
        invariant Prefixed(written, RenderItems(ft, values, variable, items[i..], body, before)) == spec
      {
        assert items[i..][0] == items[i] && items[i..][1..] == items[i + 1..];
        PrefixItem(ft, values, variable, items[i..], body, before, written);
        frames := frames + [Frame(variable, items[i])];
        var pushed := frames;
        var step := Walk(ft, values, body);
        frames := Front(frames);
        assert frames == before;
        if step.Err? {
          return step;
        }
        ghost var piece := RenderNodes(ft, values, body, pushed).value;
        Regroup(old(out), written, piece);
        written := written + piece;
      }
      PrefixEmpty(written);
      r := Ok(());
    }
  }

  method RenderTemplate(ft: FilterTable, t: Template, values: Values) returns (r: Res<string>)
    ensures r == Render(ft, t, values)
  {
    var st := new RenderState();
    ghost var spec := Render(ft, t, values);
    var _ :- st.Walk(ft, values, t.nodes);
    assert "" + spec.value == spec.value;
    r := Ok(st.out);
  }
}
