/** Templates, the values they read, and what a compiled template reports that it needs. */
module LiquidusSyntax {
  import opened Common

  /** Runtime values. The payload of a float never influences a render, so it stays opaque. */
  datatype LValue =
    | Nil
    | Bool(b: bool)
    | Int(n: int)
    | Float(bits: nat)
    | Str(s: string)
    | Array(items: seq<LValue>)
    | Map(pairs: seq<(string, LValue)>)
    | Time(sec: int, local: bool)
  {
    /** First pair with this key, and only for maps. */
    function Field(name: string): Option<LValue> {
      if Map? then FieldOf(pairs, name) else None
    }

    function FieldOrNil(name: string): LValue {
      match Field(name)
      case Some(v) => v
      case None => Nil
    }
  }

  function FieldOf(pairs: seq<(string, LValue)>, name: string): Option<LValue> {
    if pairs == [] then None
    else if pairs[0].0 == name then Some(pairs[0].1)
    else FieldOf(pairs[1..], name)
  }

  datatype VarNeed = VarNeed(path: string, slice: Option<nat>, needSize: bool, fields: seq<string>)

  datatype VarRef =
    | Supplied(path: string, size: bool)
    | Loop(variable: string, field: Option<string>, loopSize: bool)

  datatype Expr =
    | StrLit(text: string)
    | IntLit(number: int)
    | Var(ref: VarRef)

  datatype FilterCall = FilterCall(name: string, args: seq<Expr>)

  datatype CmpOp = Gt | Lt | Ge | Le | Eq | Ne

  datatype Cond =
    | Compare(lhs: Expr, op: CmpOp, rhs: Expr)
    | Truthy(expr: Expr)

  datatype Node =
    | Text(text: string)
    | Output(expr: Expr, filters: seq<FilterCall>)
    | If(cond: Cond, body: seq<Node>)
    | For(variable: string, collection: string, limit: Option<nat>, body: seq<Node>)

  /** The error payload names the construct that was declined. */
  type Res<T> = Result<T, string>

  datatype Template = Template(nodes: seq<Node>, needs: seq<VarNeed>)
}
