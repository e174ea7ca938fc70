/** The integer JIT: stack code to SSA instructions with an overflow flag, and the compiled loop. */
module JitInt {
  import opened Common

  const MIN64: int := -0x8000_0000_0000_0000
  const MAX64: int := 0x7FFF_FFFF_FFFF_FFFF

  type Int64 = v: int | MIN64 <= v <= MAX64

  predicate Fits(v: int) {
    MIN64 <= v <= MAX64
  }

  /** Two's-complement wrap-around. */
  function Wrap(v: int): (w: Int64)
    ensures Fits(v) ==> w == v
  {
    (v - MIN64) % 0x1_0000_0000_0000_0000 + MIN64
  }

  // ---- exclusive or ----

  /** Ruby's bitwise exclusive or on integers of any size, from the lowest bit up. */
  function Xor(a: int, b: int): int
    decreases (if a >= 0 then a else -a) + if b >= 0 then b else -b
  {
    if (a == 0 || a == -1) && (b == 0 || b == -1) then (if a == b then 0 else -1)
    else 2 * Xor(a / 2, b / 2) + (if a % 2 == b % 2 then 0 else 1)
  }

  function Pow2(k: nat): int {
    if k == 0 then 1 else 2 * Pow2(k - 1)
  }

  /** Bit `k` in two's complement. */
  function Bit(a: int, k: nat): int
    decreases k
  {
    if k == 0 then a % 2 else Bit(a / 2, k - 1)
  }

  /** Every bit of the result is set exactly when the operands' bits differ. */
  lemma {:induction false} XorBits(a: int, b: int, k: nat)
    ensures Bit(Xor(a, b), k) == if Bit(a, k) == Bit(b, k) then 0 else 1
    decreases k
  {
    if k > 0 {
      XorBits(a / 2, b / 2, k - 1);
      XorHalf(a, b);
    }
  }

  lemma XorHalf(a: int, b: int)
    ensures Xor(a, b) / 2 == Xor(a / 2, b / 2)
  {
  }

  lemma {:induction false} XorKeepsWidth(a: int, b: int, k: nat)
    requires -Pow2(k) <= a < Pow2(k) && -Pow2(k) <= b < Pow2(k)
    ensures -Pow2(k) <= Xor(a, b) < Pow2(k)
    decreases k
  {
    if k > 0 {
      XorKeepsWidth(a / 2, b / 2, k - 1);
    }
  }

  /** The machine's exclusive or is Ruby's on 64-bit operands. */
  function XorOf(a: Int64, b: Int64): Int64 {
    XorFits(a, b);
    Xor(a, b)
  }

  lemma XorFits(a: Int64, b: Int64)
    ensures Fits(Xor(a, b))
  {
    hide Xor, Pow2;
    SixtyThree();
    XorKeepsWidth(a, b, 63);
  }

  lemma NextByte(k: nat)
    ensures Pow2(k + 8) == 256 * Pow2(k)
  {
    assert Pow2(k + 4) == 16 * Pow2(k) by {
      assert Pow2(k + 2) == 4 * Pow2(k);
    }
    assert Pow2(k + 6) == 4 * Pow2(k + 4);
  }

  lemma SixtyThree()
    ensures Pow2(63) == 0x8000_0000_0000_0000
  {
    assert Pow2(7) == 128 by {
      assert Pow2(3) == 8;
      assert Pow2(5) == 32;
    }
    hide Pow2;
    NextByte(7);
    NextByte(15);
    NextByte(23);
    NextByte(31);
    NextByte(39);
    NextByte(47);
    NextByte(55);
  }

  datatype Arith = Plus | Minus | Times

  datatype IntOp = Param | Const(c: Int64) | Op(arith: Arith)

  function Apply(arith: Arith, a: int, b: int): int {
    match arith
    case Plus => a + b
    case Minus => a - b
    case Times => a * b
  }

  // ---- the meaning of the stack code ----

  /** Unbounded integers on the stack, and whether every result so far fits 64 bits. */
  datatype Ideal = Ideal(stack: seq<int>, fits: bool)

  /** None is a stack underflow. */
  function IdealStep(s: Ideal, op: IntOp, x: int): Option<Ideal> {
    match op
    case Param => Some(s.(stack := s.stack + [x]))
    case Const(c) => Some(s.(stack := s.stack + [c]))
    case Op(arith) =>
      if |s.stack| < 2 then None
      else
        var v := Apply(arith, s.stack[|s.stack| - 2], s.stack[|s.stack| - 1]);
        Some(Ideal(s.stack[..|s.stack| - 2] + [v], s.fits && Fits(v)))
  }

  function IdealRun(ops: seq<IntOp>, x: int): Option<Ideal> {
    if ops == [] then Some(Ideal([], true))
    else
      match IdealRun(Front(ops), x)
      case None => None
      case Some(s) => IdealStep(s, Last(ops), x)
  }

  /** The stack's height does not depend on the argument. */
  lemma {:induction false} HeightFixed(ops: seq<IntOp>, x: int, y: int)
    ensures IdealRun(ops, x).Some? <==> IdealRun(ops, y).Some?
    ensures IdealRun(ops, x).Some? ==> |IdealRun(ops, x).value.stack| == |IdealRun(ops, y).value.stack|
  {
    if ops == [] {
    } else {
      HeightFixed(Front(ops), x, y);
    }
  }

  /** No op runs out of operands and a value is left. */
  predicate UnderflowFree(ops: seq<IntOp>) {
    IdealRun(ops, 0).Some? && IdealRun(ops, 0).value.stack != []
  }

  // ---- the stack code of an expression ----

  /** What a method of one parameter can compute: the parameter, literals, sums, differences and products. */
  datatype IntExpr =
    | Param0
    | Literal(c: Int64)
    | Sum(l: IntExpr, r: IntExpr)
    | Difference(l: IntExpr, r: IntExpr)
    | Product(l: IntExpr, r: IntExpr)

  /** Ruby's value, on integers of any size. */
  function ValueOf(e: IntExpr, x: int): int {
    match e
    case Param0 => x
    case Literal(c) => c
    case Sum(l, r) => ValueOf(l, x) + ValueOf(r, x)
    case Difference(l, r) => ValueOf(l, x) - ValueOf(r, x)
    case Product(l, r) => ValueOf(l, x) * ValueOf(r, x)
  }

  /** Every result on the way fits 64 bits. */
  predicate StaysInRange(e: IntExpr, x: int) {
    match e
    case Param0 => true
    case Literal(_) => true
    case _ => StaysInRange(e.l, x) && StaysInRange(e.r, x) && Fits(ValueOf(e, x))
  }

  /** Operands first, left before right. */
  function CodeOf(e: IntExpr): seq<IntOp> {
    match e
    case Param0 => [Param]
    case Literal(c) => [Const(c)]
    case Sum(l, r) => CodeOf(l) + CodeOf(r) + [Op(Plus)]
    case Difference(l, r) => CodeOf(l) + CodeOf(r) + [Op(Minus)]
    case Product(l, r) => CodeOf(l) + CodeOf(r) + [Op(Times)]
  }

  lemma RunThenOp(ops: seq<IntOp>, op: IntOp, x: int)
    ensures IdealRun(ops + [op], x) == if IdealRun(ops, x).None? then None else IdealStep(IdealRun(ops, x).value, op, x)
  {
    hide IdealStep;
    assert Front(ops + [op]) == ops && Last(ops + [op]) == op;
  }

  lemma {:induction false} CodeRuns(e: IntExpr, before: seq<IntOp>, x: int)
    requires IdealRun(before, x).Some?
    ensures var s := IdealRun(before, x).value;
            IdealRun(before + CodeOf(e), x) == Some(Ideal(s.stack + [ValueOf(e, x)], s.fits && StaysInRange(e, x)))
  {
    hide IdealRun;
    match e
    case Param0 => RunThenOp(before, Param, x);
    case Literal(c) => RunThenOp(before, Const(c), x);
    case Sum(l, r) =>
      CodeRuns(l, before, x);
      CodeRuns(r, before + CodeOf(l), x);
      OperationRuns(before, l, r, Plus, x);
    case Difference(l, r) =>
      CodeRuns(l, before, x);
      CodeRuns(r, before + CodeOf(l), x);
      OperationRuns(before, l, r, Minus, x);
    case Product(l, r) =>
      CodeRuns(l, before, x);
      CodeRuns(r, before + CodeOf(l), x);
      OperationRuns(before, l, r, Times, x);
  }

  /** Both operands are on the stack: the operation takes them. */
  lemma OperationRuns(before: seq<IntOp>, l: IntExpr, r: IntExpr, arith: Arith, x: int)
    requires IdealRun(before, x).Some?
    requires var s := IdealRun(before, x).value;
             var both := Ideal(s.stack + [ValueOf(l, x)] + [ValueOf(r, x)], s.fits && StaysInRange(l, x) && StaysInRange(r, x));
             IdealRun(before + CodeOf(l) + CodeOf(r), x) == Some(both)
    ensures var (s, v) := (IdealRun(before, x).value, Apply(arith, ValueOf(l, x), ValueOf(r, x)));
            var result := Ideal(s.stack + [v], s.fits && StaysInRange(l, x) && StaysInRange(r, x) && Fits(v));
            IdealRun(before + (CodeOf(l) + CodeOf(r) + [Op(arith)]), x) == Some(result)
  {
    hide IdealRun, CodeOf, ValueOf, StaysInRange, Apply, Fits;
    var a, b := CodeOf(l), CodeOf(r);
    RunThenOp(before + a + b, Op(arith), x);
    assert before + (a + b + [Op(arith)]) == before + a + b + [Op(arith)];
    OperandsOnTop(IdealRun(before, x).value.stack, ValueOf(l, x), ValueOf(r, x));
  }

  lemma OperandsOnTop(stack: seq<int>, a: int, b: int)
    ensures var s := stack + [a] + [b]; |s| >= 2 && s[|s| - 2] == a && s[|s| - 1] == b && s[..|s| - 2] == stack
  {
  }

  lemma NothingRun(x: int)
    ensures IdealRun([], x) == Some(Ideal([], true))
  {
  }

  lemma CodeAlone(e: IntExpr, x: int)
    ensures IdealRun(CodeOf(e), x) == Some(Ideal([ValueOf(e, x)], StaysInRange(e, x)))
  {
    hide *;
    NothingRun(x);
    CodeRuns(e, [], x);
    assert [] + CodeOf(e) == CodeOf(e) && [] + [ValueOf(e, x)] == [ValueOf(e, x)];
  }

  /** The code of an expression leaves its value, and tells whether every result on the way fitted. */
  lemma ExpressionRuns(e: IntExpr, x: int)
    ensures UnderflowFree(CodeOf(e))
    ensures IdealRun(CodeOf(e), x) == Some(Ideal([ValueOf(e, x)], StaysInRange(e, x)))
  {
    hide IdealRun, CodeOf, ValueOf, StaysInRange;
    CodeAlone(e, x);
    CodeAlone(e, 0);
  }

  // ---- SSA code ----

  /** Each instruction defines the next value or values; operands are value numbers. */
  datatype Instr =
    | Iconst(c: Int64)
    | Overflowing(arith: Arith, a: nat, b: nat)
    | Bor(a: nat, b: nat)
    | Bxor(a: nat, b: nat)
    | Less(a: nat, b: nat)

  function ValueAt(env: seq<Int64>, i: nat): Int64 {
    if i < |env| then env[i] else 0
  }

  function Flag(b: bool): Int64 {
    if b then 1 else 0
  }

  function Define(env: seq<Int64>, i: Instr): (r: seq<Int64>)
    ensures env <= r && |r| == |env| + if i.Overflowing? then 2 else 1
  {
    match i
    case Iconst(c) => env + [c]
    case Overflowing(arith, a, b) =>
      var v := Apply(arith, ValueAt(env, a), ValueAt(env, b));
      env + [Wrap(v), Flag(!Fits(v))]
    case Bor(a, b) => env + [Flag(ValueAt(env, a) != 0 || ValueAt(env, b) != 0)]
    case Bxor(a, b) => env + [XorOf(ValueAt(env, a), ValueAt(env, b))]
    case Less(a, b) => env + [Flag(ValueAt(env, a) < ValueAt(env, b))]
  }

  function Exec(code: seq<Instr>, env: seq<Int64>): (r: seq<Int64>)
    ensures env <= r
  {
    if code == [] then env else Define(Exec(Front(code), env), Last(code))
  }

  datatype Compiled = Compiled(code: seq<Instr>, result: nat, flag: nat)

  /** `call`: the native result, or None when the flag is set. */
  function Call(f: Compiled, x: Int64): Option<Int64> {
    var env := Exec(f.code, [x]);
    if ValueAt(env, f.flag) == 0 then Some(ValueAt(env, f.result)) else None
  }

  // ---- compiling ----

  /** The compiler's own stack holds value numbers; `acc` is the flag accumulated so far. */
  datatype Builder = Builder(code: seq<Instr>, values: nat, stack: seq<nat>, acc: nat)

  function Push(b: Builder, i: Instr): Builder {
    b.(code := b.code + [i], values := b.values + if i.Overflowing? then 2 else 1)
  }

  /** The compile-time stack names the run-time stack, as long as nothing has overflowed. */
  predicate Simulates(b: Builder, s: Option<Ideal>, x: Int64) {
    var env := Exec(b.code, [x]);
    && s.Some? && |env| == b.values && b.acc < b.values && |b.stack| == |s.value.stack|
    && (forall k | 0 <= k < |b.stack| :: b.stack[k] < b.values)
    && (env[b.acc] == 0 <==> s.value.fits)
    && (s.value.fits ==> forall k | 0 <= k < |b.stack| :: env[b.stack[k]] == s.value.stack[k])
  }

  lemma ExecPush(b: Builder, i: Instr, x: Int64)
    ensures Exec(Push(b, i).code, [x]) == Define(Exec(b.code, [x]), i)
  {
    assert Front(b.code + [i]) == b.code;
  }

  lemma PushConst(b: Builder, s: Ideal, c: Int64, x: Int64)
    requires Simulates(b, Some(s), x)
    ensures var b1 := Push(b, Iconst(c));
            Simulates(b1.(stack := b1.stack + [b.values]), IdealStep(s, Const(c), x), x)
  {
    ExecPush(b, Iconst(c), x);
  }

  lemma PushParam(b: Builder, s: Ideal, x: Int64)
    requires Simulates(b, Some(s), x) && b.values > 0
    ensures Simulates(b.(stack := b.stack + [0]), IdealStep(s, Param, x), x)
  {
    assert Exec(b.code, [x])[0] == x;
  }

  function WithArith(b: Builder, arith: Arith): Builder
    requires |b.stack| >= 2
  {
    var n := |b.stack|;
    var b1 := Push(Push(b, Overflowing(arith, b.stack[n - 2], b.stack[n - 1])), Bor(b.acc, b.values + 1));
    b1.(stack := b.stack[..n - 2] + [b.values], acc := b.values + 2)
  }

  lemma PushArith(b: Builder, s: Ideal, arith: Arith, x: Int64)
    requires Simulates(b, Some(s), x) && |b.stack| >= 2
    ensures Simulates(WithArith(b, arith), IdealStep(s, Op(arith), x), x)
  {
    hide Apply, Wrap, Exec;
    var n := |b.stack|;
    var i, j := Overflowing(arith, b.stack[n - 2], b.stack[n - 1]), Bor(b.acc, b.values + 1);
    ExecPush(b, i, x);
    ExecPush(Push(b, i), j, x);
    var env := Exec(b.code, [x]);
    var env2 := Define(Define(env, i), j);
    assert env2[..|env|] == env;
  }

  /** `compile_int1`. The compiled function returns a value exactly when no intermediate result leaves 64 bits, and then the right one. */
  method CompileInt1(ops: seq<IntOp>) returns (r: Result<Compiled, string>)
    ensures r.Ok? <==> UnderflowFree(ops)
    ensures r.Ok? ==> forall x: Int64 ::
              && IdealRun(ops, x).Some? && IdealRun(ops, x).value.stack != []
              && Call(r.value, x) == if IdealRun(ops, x).value.fits then Some(Last(IdealRun(ops, x).value.stack)) else None
  {
    hide IdealStep, Exec;
    var b := Builder([Iconst(0)], 2, [], 1);
    forall x: Int64 ensures Simulates(b, IdealRun([], x), x) {
      StartSimulates(x);
    }
    for i := 0 to |ops|
      invariant b.values > 0 && forall x: Int64 :: Simulates(b, IdealRun(ops[..i], x), x)
    {
      ghost var b0, done := b, ops[..i + 1];
      assert Front(ops[..i + 1]) == ops[..i] && Last(ops[..i + 1]) == ops[i];
      assert Simulates(b, IdealRun(ops[..i], 0), 0);
      match ops[i]
      case Param =>
        b := b.(stack := b.stack + [0]);
        forall x: Int64 ensures Simulates(b, IdealRun(done, x), x) {
          assert Simulates(b0, IdealRun(ops[..i], x), x);
          PushParam(b0, IdealRun(ops[..i], x).value, x);
        }
      case Const(c) =>
        b := Push(b, Iconst(c)).(stack := b.stack + [b.values]);
        forall x: Int64 ensures Simulates(b, IdealRun(done, x), x) {
          assert Simulates(b0, IdealRun(ops[..i], x), x);
          PushConst(b0, IdealRun(ops[..i], x).value, c, x);
        }
      case Op(arith) =>
        if |b.stack| < 2 {
          Underflows(ops, i);
          return Err("int1 IR stack underflow");
        }
        b := WithArith(b, arith);
        forall x: Int64 ensures Simulates(b, IdealRun(done, x), x) {
          assert Simulates(b0, IdealRun(ops[..i], x), x);
          PushArith(b0, IdealRun(ops[..i], x).value, arith, x);
        }
    }
    assert ops[..|ops|] == ops;
    assert Simulates(b, IdealRun(ops, 0), 0);
    if b.stack == [] {
      return Err("int1 IR produced no value");
    }
    r := Ok(Compiled(b.code, Last(b.stack), b.acc));
    forall x: Int64
      ensures IdealRun(ops, x).Some? && IdealRun(ops, x).value.stack != []
      ensures Call(r.value, x) == if IdealRun(ops, x).value.fits then Some(Last(IdealRun(ops, x).value.stack)) else None
    {
      assert Simulates(b, IdealRun(ops, x), x);
    }
  }

  lemma StartSimulates(x: Int64)
    ensures Simulates(Builder([Iconst(0)], 2, [], 1), IdealRun([], x), x)
  {
    assert Front([Iconst(0)]) == [];
    assert Exec([Iconst(0)], [x]) == [x, 0];
  }

  /** An op without operands spoils every longer program. */
  lemma {:induction false} Underflows(ops: seq<IntOp>, i: nat)
    requires i < |ops| && ops[i].Op? && IdealRun(ops[..i], 0).Some? && |IdealRun(ops[..i], 0).value.stack| < 2
    ensures IdealRun(ops, 0).None?
    decreases |ops|
  {
    if i == |ops| - 1 {
      assert Front(ops) == ops[..i];
    } else {
      assert Front(ops)[..i] == ops[..i] && Front(ops)[i] == ops[i];
      Underflows(Front(ops), i);
    }
  }

  // ---- control flow ----

  /** A jump passes values as the parameters of its target block. */
  datatype Target = Target(block: nat, args: seq<nat>)

  datatype Ending =
    | Jump(to: Target)
    | Branch(cond: nat, yes: Target, no: Target)
    | Return(result: nat, flag: nat)

  /** Value 0 is the function's argument; then come the block's parameters and the values its code defines. */
  datatype Block = Block(params: nat, code: seq<Instr>, end: Ending)

  /** Where a call of a compiled function is. */
  datatype Point = At(block: nat, args: seq<Int64>) | Returned(result: Int64, flag: Int64)

  function ValuesAt(env: seq<Int64>, ids: seq<nat>): seq<Int64> {
    seq(|ids|, k requires 0 <= k < |ids| => ValueAt(env, ids[k]))
  }

  function Go(env: seq<Int64>, to: Target): Point {
    At(to.block, ValuesAt(env, to.args))
  }

  /** Run one block. A jump to no block, or with the wrong number of values, stays where it is. */
  function Visit(f: seq<Block>, x: Int64, p: Point): Point {
    match p
    case Returned(_, _) => p
    case At(b, args) =>
      if b >= |f| || |args| != f[b].params then p
      else
        var env := Exec(f[b].code, [x] + args);
        match f[b].end
        case Jump(to) => Go(env, to)
        case Branch(c, yes, no) => if ValueAt(env, c) != 0 then Go(env, yes) else Go(env, no)
        case Return(r, flag) => Returned(ValueAt(env, r), ValueAt(env, flag))
  }

  function Visits(f: seq<Block>, x: Int64, p: Point, n: nat): Point
    decreases n
  {
    if n == 0 then p else Visits(f, x, Visit(f, x, p), n - 1)
  }

  /** What `call` makes of the two returned values. */
  function Answer(p: Point): Option<Int64> {
    if p.Returned? && p.flag == 0 then Some(p.result) else None
  }

  // ---- the compiled loop ----

  function Poly(i: int): int {
    i * i + i * 7 + 13
  }

  /** The Ruby method: `s = s ^ (i*i + i*7 + 13)` for `i` from 0 below `n`. */
  function RubyLoop(n: nat): int {
    if n == 0 then 0 else Xor(RubyLoop(n - 1), Poly(n - 1))
  }

  // Blocks 0 to 3.

  function Entry(): Block {
    Block(0, [Iconst(0), Iconst(0)], Jump(Target(1, [1, 1, 2])))
  }

  function Header(): Block {
    Block(3, [Less(2, 0)], Branch(4, Target(2, [1, 2, 3]), Target(3, [1, 3])))
  }

  /** The products in values 4 and 7, their flags in 5 and 8. */
  function ProductCode(): seq<Instr> {
    [Overflowing(Times, 2, 2), Iconst(7), Overflowing(Times, 2, 6)]
  }

  /** The polynomial in value 12, the flags of its sums in 10 and 13. */
  function SumCode(): seq<Instr> {
    [Overflowing(Plus, 4, 7), Iconst(13), Overflowing(Plus, 9, 11)]
  }

  /** The new `s` and `i` in values 14 and 16, the counter's flag in 17. */
  function TurnCode(): seq<Instr> {
    [Bxor(1, 12), Iconst(1), Overflowing(Plus, 2, 15)]
  }

  /** All flags into value 22. */
  function FlagCode(): seq<Instr> {
    [Bor(3, 5), Bor(18, 8), Bor(19, 10), Bor(20, 13), Bor(21, 17)]
  }

  function Body(): Block {
    Block(3, ProductCode() + SumCode() + TurnCode() + FlagCode(), Jump(Target(1, [14, 16, 22])))
  }

  function Exit(): Block {
    Block(2, [], Return(1, 2))
  }

  function PolyBlocks(): seq<Block> {
    [Entry(), Header(), Body(), Exit()]
  }

  // ---- what one visit of each block does ----

  lemma ExecTake(code: seq<Instr>, k: nat, env: seq<Int64>)
    requires k < |code|
    ensures Exec(code[..k + 1], env) == Define(Exec(code[..k], env), code[k])
  {
    assert Front(code[..k + 1]) == code[..k];
  }

  lemma {:induction false} ExecConcat(a: seq<Instr>, b: seq<Instr>, env: seq<Int64>)
    ensures Exec(a + b, env) == Exec(b, Exec(a, env))
  {
    hide Define;
    if b == [] {
      assert a + b == a;
    } else {
      assert Front(a + b) == a + Front(b);
      ExecConcat(a, Front(b), env);
    }
  }

  lemma DefineSum(env: seq<Int64>, a: nat, b: nat)
    requires a < |env| && b < |env|
    ensures var v := env[a] as int + env[b]; Define(env, Overflowing(Plus, a, b)) == env + [Wrap(v), Flag(!Fits(v))]
  {
  }

  lemma DefineProduct(env: seq<Int64>, a: nat, b: nat)
    requires a < |env| && b < |env|
    ensures var v := env[a] as int * env[b]; Define(env, Overflowing(Times, a, b)) == env + [Wrap(v), Flag(!Fits(v))]
  {
  }

  /** Three instructions one after the other. */
  lemma ExecThree(code: seq<Instr>, env: seq<Int64>, e1: seq<Int64>, e2: seq<Int64>, e3: seq<Int64>)
    requires |code| == 3
    requires Define(env, code[0]) == e1 && Define(e1, code[1]) == e2 && Define(e2, code[2]) == e3
    ensures Exec(code, env) == e3
  {
    hide Define;
    assert Exec(code[..0], env) == env && code[..3] == code;
    hide Exec;
    ExecTake(code, 0, env);
    ExecTake(code, 1, env);
    ExecTake(code, 2, env);
  }

  lemma RunProductCode(env: seq<Int64>)
    requires |env| == 4
    ensures var i: int := env[2];
            Exec(ProductCode(), env) == env + [Wrap(i * i), Flag(!Fits(i * i)), 7, Wrap(i * 7), Flag(!Fits(i * 7))]
  {
    hide Wrap, Fits, Flag, Apply, Exec;
    var i: int := env[2];
    var e1 := env + [Wrap(i * i), Flag(!Fits(i * i))];
    var e2 := e1 + [7];
    var e3 := e2 + [Wrap(i * 7), Flag(!Fits(i * 7))];
    DefineProduct(env, 2, 2);
    DefineProduct(e2, 2, 6);
    ExecThree(ProductCode(), env, e1, e2, e3);
  }

  lemma RunSumCode(env: seq<Int64>)
    requires |env| == 9
    ensures var v := env[4] as int + env[7];
            var w := Wrap(v) as int + 13;
            Exec(SumCode(), env) == env + [Wrap(v), Flag(!Fits(v)), 13, Wrap(w), Flag(!Fits(w))]
  {
    hide Wrap, Fits, Flag, Apply, Exec;
    var v := env[4] as int + env[7];
    var w := Wrap(v) as int + 13;
    var e1 := env + [Wrap(v), Flag(!Fits(v))];
    var e2 := e1 + [13];
    var e3 := e2 + [Wrap(w), Flag(!Fits(w))];
    DefineSum(env, 4, 7);
    DefineSum(e2, 9, 11);
    ExecThree(SumCode(), env, e1, e2, e3);
  }

  lemma RunTurnCode(env: seq<Int64>)
    requires |env| == 14
    ensures var w := env[2] as int + 1;
            Exec(TurnCode(), env) == env + [XorOf(env[1], env[12]), 1, Wrap(w), Flag(!Fits(w))]
  {
    hide Wrap, Fits, Flag, Apply, Exec, XorOf;
    var w := env[2] as int + 1;
    var e1 := env + [XorOf(env[1], env[12])];
    var e2 := e1 + [1];
    var e3 := e2 + [Wrap(w), Flag(!Fits(w))];
    DefineSum(e2, 2, 15);
    ExecThree(TurnCode(), env, e1, e2, e3);
  }

  /** One more flag collected: the values before stay, the new one is 0 exactly when both operands are. */
  lemma BorStep(code: seq<Instr>, k: nat, env: seq<Int64>, a: nat, b: nat)
    requires k < |code| && code[k] == Bor(a, b) && a < |Exec(code[..k], env)| && b < |Exec(code[..k], env)|
    ensures var (e, r) := (Exec(code[..k], env), Exec(code[..k + 1], env));
            && |r| == |e| + 1 && e <= r && (r[|e|] == 0 <==> e[a] == 0 && e[b] == 0)
  {
    ExecTake(code, k, env);
  }

  /** The last value is 0 exactly when every collected flag is 0. */
  lemma RunFlagCode(env: seq<Int64>)
    requires |env| == 18
    ensures var e := Exec(FlagCode(), env);
            && |e| == 23 && env <= e
            && (e[22] == 0 <==> env[3] == 0 && env[5] == 0 && env[8] == 0 && env[10] == 0 && env[13] == 0 && env[17] == 0)
  {
    hide Define;
    var c := FlagCode();
    assert Exec(c[..0], env) == env && c[..5] == c;
    hide Exec;
    BorStep(c, 0, env, 3, 5);
    BorStep(c, 1, env, 18, 8);
    BorStep(c, 2, env, 19, 10);
    BorStep(c, 3, env, 20, 13);
    BorStep(c, 4, env, 21, 17);
  }

  /** A turn of the loop: what goes back to the header. */
  lemma RunBody(n: Int64, s: Int64, i: Int64, ovf: Int64)
    requires i >= 0
    ensures var e := Exec(Body().code, [n, s, i, ovf]);
            && |e| == 23
            && e[16] == Wrap(i as int + 1)
            && (e[22] == 0 <==> ovf == 0 && Fits(Poly(i)) && Fits(i as int + 1))
            && (Fits(Poly(i)) ==> e[14] == XorOf(s, Poly(i)))
  {
    hide Exec, ProductCode, SumCode, TurnCode, FlagCode, Xor, XorOf, Wrap, Fits, Poly;
    var env := [n, s, i, ovf];
    ExecConcat(ProductCode() + SumCode() + TurnCode(), FlagCode(), env);
    ExecConcat(ProductCode() + SumCode(), TurnCode(), env);
    ExecConcat(ProductCode(), SumCode(), env);
    RunProductCode(env);
    var e1 := Exec(ProductCode(), env);
    RunSumCode(e1);
    var e2 := Exec(SumCode(), e1);
    PolyFits(i, e1[4], e1[7], e2[9], e2[12]);
    RunTurnCode(e2);
    RunFlagCode(Exec(TurnCode(), e2));
  }

  /** No step overflows exactly when the polynomial fits, and then the value is right. */
  lemma PolyFits(i: Int64, ii: Int64, i7: Int64, p1: Int64, poly: Int64)
    requires i >= 0 && ii == Wrap(i as int * i) && i7 == Wrap(i as int * 7)
    requires p1 == Wrap(ii as int + i7) && poly == Wrap(p1 as int + 13)
    ensures Fits(i as int * i) && Fits(i as int * 7) && Fits(ii as int + i7) && Fits(p1 as int + 13) <==> Fits(Poly(i))
    ensures Fits(Poly(i)) ==> poly == Poly(i)
  {
    hide Wrap;
    assert i * i >= 0;
  }

  // ---- a call of the compiled loop ----

  lemma VisitEntry(n: Int64)
    ensures Visit(PolyBlocks(), n, At(0, [])) == At(1, [0, 0, 0])
  {
    var c := Entry().code;
    assert [n] + [] == [n] && Front(c) == [Iconst(0)] && Front(Front(c)) == [];
    assert Exec([], [n]) == [n] && Exec([Iconst(0)], [n]) == [n, 0] && Exec(c, [n]) == [n, 0, 0];
  }

  lemma VisitHeader(n: Int64, s: Int64, i: Int64, ovf: Int64)
    ensures Visit(PolyBlocks(), n, At(1, [s, i, ovf])) == if i < n then At(2, [s, i, ovf]) else At(3, [s, ovf])
  {
    var env, c := [n] + [s, i, ovf], Header().code;
    assert Front(c) == [] && Exec([], env) == env;
    assert Exec(c, env) == env + [Flag(i < n)];
  }

  lemma VisitBody(n: Int64, s: Int64, i: Int64, ovf: Int64) returns (s1: Int64, ovf1: Int64)
    requires 0 <= i < n
    ensures Visit(PolyBlocks(), n, At(2, [s, i, ovf])) == At(1, [s1, i + 1, ovf1])
    ensures ovf1 == 0 <==> ovf == 0 && Fits(Poly(i))
    ensures Fits(Poly(i)) ==> s1 == XorOf(s, Poly(i))
  {
    hide Exec, Xor, XorOf, Wrap, Poly;
    var e := Exec(Body().code, [n, s, i, ovf]);
    RunBody(n, s, i, ovf);
    s1, ovf1 := e[14], e[22];
    assert [n] + [s, i, ovf] == [n, s, i, ovf];
    assert ValuesAt(e, [14, 16, 22]) == [s1, i + 1, ovf1];
    WrapFits(i as int + 1);
    assert PolyBlocks()[2] == Body();
  }

  lemma WrapFits(v: int)
    requires Fits(v)
    ensures Wrap(v) == v
  {
  }

  lemma VisitExit(n: Int64, s: Int64, ovf: Int64)
    ensures Visit(PolyBlocks(), n, At(3, [s, ovf])) == Returned(s, ovf)
  {
    assert Exec([], [n] + [s, ovf]) == [n] + [s, ovf];
  }

  lemma PolyGrows(i: nat, j: nat)
    requires i <= j
    ensures Poly(i) <= Poly(j)
  {
    assert i * i <= j * j by {
      assert i * i <= i * j <= j * j;
    }
  }

  function Turns(n: int): nat {
    if n <= 0 then 0 else n
  }

  /** The polynomial fits in every turn below `n`. */
  predicate PolyBelow(n: int) {
    n <= 0 || Fits(Poly(n - 1))
  }

  /** From the header on: as long as nothing has overflowed, `s` is what the Ruby loop has. */
  lemma {:induction false} LoopRuns(n: Int64, s: Int64, i: Int64, ovf: Int64)
    requires 0 <= i <= Turns(n)
    requires ovf == 0 <==> PolyBelow(i)
    requires ovf == 0 ==> s == RubyLoop(i)
    ensures var p := Visits(PolyBlocks(), n, At(1, [s, i, ovf]), 2 * (Turns(n) - i) + 2);
            && p.Returned?
            && (p.flag == 0 <==> PolyBelow(n))
            && (p.flag == 0 ==> p.result == RubyLoop(Turns(n)))
    decreases Turns(n) - i
  {
    hide Visit, Poly, XorOf;
    var f := PolyBlocks();
    VisitHeader(n, s, i, ovf);
    if i < n {
      hide PolyBlocks;
      var s1, ovf1 := VisitBody(n, s, i, ovf);
      if i > 0 {
        PolyGrows(i - 1, i);
        PolyAbove(i - 1);
      }
      PolyAbove(i);
      XorIs(s, Poly(i));
      LoopRuns(n, s1, i + 1, ovf1);
      var k := 2 * (Turns(n) - i) + 2;
      assert Visits(f, n, At(1, [s, i, ovf]), k) == Visits(f, n, At(2, [s, i, ovf]), k - 1);
      assert Visits(f, n, At(2, [s, i, ovf]), k - 1) == Visits(f, n, At(1, [s1, i + 1, ovf1]), k - 2);
    } else {
      VisitExit(n, s, ovf);
      assert Visits(f, n, At(1, [s, i, ovf]), 2) == Visits(f, n, At(3, [s, ovf]), 1);
      assert Visits(f, n, At(3, [s, ovf]), 1) == Visits(f, n, Returned(s, ovf), 0);
    }
  }

  lemma PolyAbove(i: nat)
    ensures Poly(i) >= 0
  {
    assert i * i >= 0;
  }

  lemma XorIs(a: Int64, b: int)
    ensures Fits(b) ==> XorOf(a, b) == Xor(a, b)
  {
  }

  /**
   A call of the compiled loop returns, after one visit of the entry, two for every turn and
   a last one of the header and the exit. It answers exactly when the polynomial fits 64 bits all the way, and
   then as the Ruby loop does.
   */
  lemma PolyLoopRuns(n: Int64)
    ensures var p := Visits(PolyBlocks(), n, At(0, []), 2 * Turns(n) + 3);
            p.Returned? && Answer(p) == if PolyBelow(n) then Some(RubyLoop(Turns(n))) else None
  {
    hide Visit, PolyBlocks, Poly, Xor;
    VisitEntry(n);
    assert RubyLoop(0) == 0;
    LoopRuns(n, 0, 0, 0);
  }

  lemma TakeOneMore<T>(before: seq<T>, all: seq<T>, k: nat)
    requires k < |all|
    ensures before + all[..k] + [all[k]] == before + all[..k + 1]
  {
    assert all[..k + 1] == all[..k] + [all[k]];
  }

  /** The body of the loop: s = s ^ (i*i + i*7 + 13), i = i + 1, and every overflow flag into one. */
  method EmitBody() returns (block: Block)
    ensures block == Body()
  {
    var header, s, i, ovf := 1, 1, 2, 3;
    var b := Builder([], 4, [], 0);
    var ii := b.values;
    b := Push(b, Overflowing(Times, i, i));
    var c7 := b.values;
    b := Push(b, Iconst(7));
    var i7 := b.values;
    b := Push(b, Overflowing(Times, i, c7));
    var p1 := b.values;
    b := Push(b, Overflowing(Plus, ii, i7));
    var c13 := b.values;
    b := Push(b, Iconst(13));
    var poly := b.values;
    b := Push(b, Overflowing(Plus, p1, c13));
    assert b.code == ProductCode() + SumCode();
    var newS := b.values;
    b := Push(b, Bxor(s, poly));
    var one := b.values;
    b := Push(b, Iconst(1));
    var newI := b.values;
    b := Push(b, Overflowing(Plus, i, one));
    assert b.code == ProductCode() + SumCode() + TurnCode();
    hide ProductCode, SumCode, TurnCode;
    ghost var turn := b.code;
    var ov := b.values;
    b := Push(b, Bor(ovf, ii + 1));
    var flags := [i7 + 1, p1 + 1, poly + 1, newI + 1];
    for k := 0 to 4
      invariant b.values == 19 + k && ov == 18 + k
      invariant b.code == turn + FlagCode()[..k + 1]
    {
      TakeOneMore(turn, FlagCode(), k + 1);
      assert FlagCode()[k + 1] == Bor(ov, flags[k]);
      var before := ov;
      ov := b.values;
      b := Push(b, Bor(before, flags[k]));
    }
    assert FlagCode()[..5] == FlagCode();
    block := Block(3, b.code, Jump(Target(header, [newS, newI, ov])));
  }

  /** `compile_poly_loop`: block after block, instruction after instruction. */
  method CompilePolyLoop() returns (f: seq<Block>)
    ensures forall n: Int64 ::
              var p := Visits(f, n, At(0, []), 2 * Turns(n) + 3);
              p.Returned? && Answer(p) == if PolyBelow(n) then Some(RubyLoop(Turns(n))) else None
  {
    hide Visits, Answer, RubyLoop, Body;
    var n, header, body, exit := 0, 1, 2, 3;

    var b := Builder([], 1, [], 0);
    var z64 := b.values;
    b := Push(b, Iconst(0));
    var z8 := b.values;
    b := Push(b, Iconst(0));
    f := [Block(0, b.code, Jump(Target(header, [z64, z64, z8])))];

    var s, i, ovf := 1, 2, 3;
    b := Builder([], 4, [], 0);
    var cond := b.values;
    b := Push(b, Less(i, n));
    f := f + [Block(3, b.code, Branch(cond, Target(body, [s, i, ovf]), Target(exit, [s, ovf])))];

    var turn := EmitBody();
    f := f + [turn];

    f := f + [Block(2, [], Return(1, 2))];
    assert f[0] == Entry() && f[1] == Header() && f[2] == Body() && f[3] == Exit();
    assert f == PolyBlocks();
    forall n: Int64
      ensures var p := Visits(f, n, At(0, []), 2 * Turns(n) + 3);
              p.Returned? && Answer(p) == if PolyBelow(n) then Some(RubyLoop(Turns(n))) else None
    {
      PolyLoopRuns(n);
    }
  }
}
