/**
 Exceptions across the C boundary. A fixed stack of jump buffers and one pending slot
 implement what a structured try/catch around every C call would do.
 */
module CextJump {
  import opened Common

  /** What a protected call hands to its Rust caller. */
  datatype Outcome = Returned(value: nat) | Raised(cls: nat, msg: string)

  /**
   What C code does: call into Ruby and from there into another extension function, call a
   helper of its own, or raise. A body ends by returning a value.
   */
  datatype Stmt =
    | Invoke(body: seq<Stmt>, ret: nat)
    | Helper(body: seq<Stmt>)
    | Raise(cls: nat, msg: Option<string>)

  /** A null message reads as the empty string. */
  function Text(msg: Option<string>): string {
    match msg
    case Some(s) => s
    case None => ""
  }

  // ---- structured try/catch ----

  datatype Flow = Done | Threw(cls: nat, msg: string)

  /** How a statement list ends, and the outcomes of the protected calls in it, in order. */
  function Exec(stmts: seq<Stmt>): (Flow, seq<Outcome>)
    decreases stmts
  {
    if stmts == [] then (Done, [])
    else
      match stmts[0]
      case Raise(c, m) => (Threw(c, Text(m)), [])
      case Helper(body) =>
        var (flow, log) := Exec(body);
        if flow.Threw? then (flow, log)
        else
          var (flow', log') := Exec(stmts[1..]);
          (flow', log + log')
      case Invoke(body, ret) =>
        var (flow, log) := Exec(body);
        var (flow', log') := Exec(stmts[1..]);
        (flow', log + [Caught(flow, ret)] + log')
  }

  /** What a protected call makes of the end of its body. */
  function Caught(flow: Flow, ret: nat): Outcome {
    if flow.Threw? then Raised(flow.cls, flow.msg) else Returned(ret)
  }

  /** Deepest nesting of protected calls. */
  function Depth(stmts: seq<Stmt>): nat
    decreases stmts
  {
    if stmts == [] then 0
    else
      var here := match stmts[0]
        case Raise(_, _) => 0
        case Helper(body) => Depth(body)
        case Invoke(body, _) => 1 + Depth(body);
      Max(here, Depth(stmts[1..]))
  }

  // ---- the shim ----

  const MAX_NEST: nat := 64

  /** An activation on the C stack, with what it still has to do. */
  datatype Frame =
    | InvokeFrame(todo: seq<Stmt>, ret: nat)
    | HelperFrame(todo: seq<Stmt>)

  /** A message copied with malloc. */
  datatype Cell = Cell(text: string, live: bool)

  /** Thread-local state of the shim, the C stack, the malloc heap, and what was handed to Rust so far. */
  datatype State = State(
    top: int,
    bufs: seq<nat>,
    pendingClass: nat,
    pendingMsg: Option<nat>,
    frames: seq<Frame>,
    heap: seq<Cell>,
    badFree: bool,
    aborted: bool,
    log: seq<Outcome>)

  function Abort(s: State): State {
    s.(aborted := true)
  }

  function Free(s: State, p: nat): State {
    if p < |s.heap| && s.heap[p].live then s.(heap := s.heap[p := s.heap[p].(live := false)])
    else s.(badFree := true)
  }

  /** `invoke_with_raise`: class 0 means a normal return; otherwise the message is copied and freed. */
  function HandOver(s: State, result: nat, outClass: nat, outMsg: Option<nat>): State {
    if outClass == 0 then s.(log := s.log + [Returned(result)])
    else
      match outMsg
      case None => s.(log := s.log + [Raised(outClass, "")])
      case Some(p) =>
        var text := if p < |s.heap| then s.heap[p].text else "";
        Free(s.(log := s.log + [Raised(outClass, text)]), p)
  }

  /** `rubyrs_jmp_invoke` up to the call: install a buffer that remembers the current stack height. */
  function EnterInvoke(s: State, body: seq<Stmt>, ret: nat): State {
    if s.top + 1 >= MAX_NEST || s.top < -1 || |s.bufs| != MAX_NEST then Abort(s)
    else
      s.(top := s.top + 1, bufs := s.bufs[s.top + 1 := |s.frames|], frames := s.frames + [InvokeFrame(body, ret)])
  }

  /** Sixty-four protected calls can be open at a time; one more aborts. */
  lemma SixtyFourNest(s: State, body: seq<Stmt>, ret: nat)
    requires Shaped(s) && !s.aborted
    ensures s.top < 63 ==> !EnterInvoke(s, body, ret).aborted && EnterInvoke(s, body, ret).top == s.top + 1
    ensures s.top == 63 ==> EnterInvoke(s, body, ret) == Abort(s)
  {
  }

  /** `rubyrs_jmp_invoke` after a normal return. */
  function LeaveInvoke(s: State, ret: nat): State
    requires s.frames != []
  {
    HandOver(s.(top := s.top - 1, frames := Front(s.frames)), ret, 0, None)
  }

  /** `rubyrs_jmp_raise` up to the jump: fill the pending slot, replacing an unconsumed message. */
  function Stash(s: State, cls: nat, msg: Option<string>): State {
    var s1 := s.(pendingClass := cls);
    var s2 := if s1.pendingMsg.Some? then Free(s1, s1.pendingMsg.value).(pendingMsg := None) else s1;
    match msg
    case None => s2
    case Some(text) => s2.(heap := s2.heap + [Cell(text, true)], pendingMsg := Some(|s2.heap|))
  }

  /** A message that nobody consumed is freed when the next exception takes the slot. */
  lemma StashReplaces(s: State, cls: nat, msg: Option<string>, stale: nat)
    requires s.pendingMsg == Some(stale) && stale < |s.heap| && s.heap[stale].live
    ensures var s1 := Stash(s, cls, msg);
            && s1.pendingClass == cls && s1.badFree == s.badFree
            && |s1.heap| == |s.heap| + (if msg.Some? then 1 else 0) && s1.heap[stale] == s.heap[stale].(live := false)
            && (forall p | 0 <= p < |s.heap| && p != stale :: s1.heap[p] == s.heap[p])
            && (msg.None? ==> s1.pendingMsg == None)
            && (msg.Some? ==> s1.pendingMsg == Some(|s.heap|) && s1.heap[|s.heap|] == Cell(msg.value, true))
  {
  }

  /** The jump: the stack is cut back to the activation that installed the top buffer, which takes the pending exception. */
  function Land(s: State): State
    requires 0 <= s.top < |s.bufs| && s.bufs[s.top] < |s.frames|
  {
    var landed := s.(frames := s.frames[..s.bufs[s.top]], top := s.top - 1, pendingClass := 0, pendingMsg := None);
    HandOver(landed, 0, s.pendingClass, s.pendingMsg)
  }

  function RaiseNow(s: State, cls: nat, msg: Option<string>): State {
    if s.top < 0 || s.top >= |s.bufs| || s.bufs[s.top] >= |s.frames| then Abort(s) else Land(Stash(s, cls, msg))
  }

  /** One step of the running activation. */
  function Step(s: State): State {
    if s.aborted || s.frames == [] then s
    else
      var f := Last(s.frames);
      if f.todo == [] then
        if f.HelperFrame? then s.(frames := Front(s.frames)) else LeaveInvoke(s, f.ret)
      else
        var s1 := s.(frames := Front(s.frames) + [f.(todo := f.todo[1..])]);
        match f.todo[0]
        case Invoke(body, ret) => EnterInvoke(s1, body, ret)
        case Helper(body) => s1.(frames := s1.frames + [HelperFrame(body)])
        case Raise(c, m) => RaiseNow(s1, c, m)
  }

  function Run(s: State, n: nat): State
    decreases n
  {
    if n == 0 then s else Run(Step(s), n - 1)
  }

  lemma {:induction false} RunThen(s: State, m: nat, n: nat)
    ensures Run(s, m + n) == Run(Run(s, m), n)
    decreases m
  {
    if m > 0 {
      RunThen(Step(s), m - 1, n);
    }
  }

  // ---- the invariant between jumps ----

  predicate Shaped(s: State) {
    |s.bufs| == MAX_NEST && -1 <= s.top < MAX_NEST
  }

  /** Installed buffers point at the activations that installed them, innermost last, with helpers only above it. */
  predicate Linked(s: State)
    requires Shaped(s)
  {
    && (forall i | 0 <= i <= s.top :: s.bufs[i] < |s.frames| && s.frames[s.bufs[i]].InvokeFrame?)
    && (forall i, j | 0 <= i < j <= s.top :: s.bufs[i] < s.bufs[j])
    && (forall k | 0 <= k < |s.frames| && s.frames[k].InvokeFrame? :: exists i | 0 <= i <= s.top :: s.bufs[i] == k)
  }

  /** No exception in flight, nothing went wrong. */
  predicate Quiet(s: State) {
    Shaped(s) && Linked(s) && s.pendingClass == 0 && s.pendingMsg == None && !s.aborted && !s.badFree
  }

  /** What the shim makes of an outcome: a raise of class 0 is mistaken for a return. */
  function Seen(o: Outcome): Outcome {
    if o.Raised? && o.cls == 0 then Returned(0) else o
  }

  function SeenAll(log: seq<Outcome>): (r: seq<Outcome>)
    ensures |r| == |log| && forall i | 0 <= i < |log| :: r[i] == Seen(log[i])
  {
    if log == [] then [] else SeenAll(Front(log)) + [Seen(Last(log))]
  }

  predicate AllCaughtNonZero(log: seq<Outcome>) {
    forall i | 0 <= i < |log| :: log[i].Raised? ==> log[i].cls != 0
  }

  /** The log grew by what the shim made of `log`, and if no class was 0 every message copied on the way is freed. */
  predicate Grown(s: State, s': State, log: seq<Outcome>) {
    && s'.log == s.log + SeenAll(log)
    && |s.heap| <= |s'.heap| && s'.heap[..|s.heap|] == s.heap
    && (AllCaughtNonZero(log) ==> forall p | |s.heap| <= p < |s'.heap| :: !s'.heap[p].live)
  }

  /** From `s` to `s'`, which has the frames `frames` and `top`, with the outcomes `log` on the way. */
  predicate Reached(s: State, s': State, frames: seq<Frame>, top: int, log: seq<Outcome>) {
    && Quiet(s') && s'.frames == frames && s'.top == top && top <= s.top < |s.bufs|
    && s'.bufs[..top + 1] == s.bufs[..top + 1]
    && Grown(s, s', log)
  }

  lemma SeenConcat(a: seq<Outcome>, b: seq<Outcome>)
    ensures SeenAll(a + b) == SeenAll(a) + SeenAll(b)
  {
  }

  lemma GrownThen(s: State, s1: State, s2: State, log1: seq<Outcome>, log2: seq<Outcome>)
    requires Grown(s, s1, log1) && Grown(s1, s2, log2)
    ensures Grown(s, s2, log1 + log2)
  {
    hide SeenAll;
    SeenConcat(log1, log2);
    assert s2.heap[..|s.heap|] == s2.heap[..|s1.heap|][..|s.heap|];
    if AllCaughtNonZero(log1 + log2) {
      assert forall i | 0 <= i < |log1| :: log1[i] == (log1 + log2)[i];
      assert forall i | 0 <= i < |log2| :: log2[i] == (log1 + log2)[|log1| + i];
      forall p | |s.heap| <= p < |s2.heap| ensures !s2.heap[p].live {
        if p < |s1.heap| {
          assert s2.heap[p] == s2.heap[..|s1.heap|][p];
        }
      }
    }
  }

  lemma ReachedThen(s: State, s1: State, s2: State, frames1: seq<Frame>, frames2: seq<Frame>, top1: int, top2: int, log1: seq<Outcome>, log2: seq<Outcome>)
    requires Reached(s, s1, frames1, top1, log1) && Reached(s1, s2, frames2, top2, log2)
    ensures Reached(s, s2, frames2, top2, log1 + log2)
  {
    hide Linked, Grown;
    GrownThen(s, s1, s2, log1, log2);
    assert s2.bufs[..top2 + 1] == s1.bufs[..top1 + 1][..top2 + 1];
  }

  /** The top buffer belongs to the last protected activation. */
  lemma TopIsLast(s: State)
    requires Shaped(s) && Linked(s) && s.frames != [] && Last(s.frames).InvokeFrame?
    ensures s.top >= 0 && s.bufs[s.top] == |s.frames| - 1
  {
    var k := |s.frames| - 1;
    assert s.frames[k].InvokeFrame?;
    var i :| 0 <= i <= s.top && s.bufs[i] == k;
    assert s.bufs[i] <= s.bufs[s.top];
  }

  /** The running activation changes what it has to do. */
  lemma AdvanceKeeps(s: State, todo: seq<Stmt>)
    requires Quiet(s) && s.frames != []
    ensures Quiet(s.(frames := Front(s.frames) + [Last(s.frames).(todo := todo)]))
  {
    var s1 := s.(frames := Front(s.frames) + [Last(s.frames).(todo := todo)]);
    assert forall k | 0 <= k < |s.frames| :: s1.frames[k].InvokeFrame? == s.frames[k].InvokeFrame?;
    assert |s1.frames| == |s.frames|;
  }

  lemma HelperKeeps(s: State, body: seq<Stmt>)
    requires Quiet(s)
    ensures Quiet(s.(frames := s.frames + [HelperFrame(body)]))
  {
    var s1 := s.(frames := s.frames + [HelperFrame(body)]);
    forall k | 0 <= k < |s1.frames| && s1.frames[k].InvokeFrame? ensures exists i | 0 <= i <= s1.top :: s1.bufs[i] == k {
      assert s.frames[k].InvokeFrame?;
    }
  }

  lemma HelperDoneKeeps(s: State)
    requires Quiet(s) && s.frames != [] && Last(s.frames).HelperFrame?
    ensures Quiet(s.(frames := Front(s.frames)))
  {
    var s1 := s.(frames := Front(s.frames));
    forall i | 0 <= i <= s1.top ensures s1.bufs[i] < |s1.frames| && s1.frames[s1.bufs[i]].InvokeFrame? {
      assert s.frames[s.bufs[i]].InvokeFrame?;
    }
  }

  lemma EnterKeeps(s: State, body: seq<Stmt>, ret: nat)
    requires Quiet(s) && s.top + 1 < MAX_NEST
    ensures Quiet(EnterInvoke(s, body, ret))
  {
    var s1 := EnterInvoke(s, body, ret);
    forall k | 0 <= k < |s1.frames| && s1.frames[k].InvokeFrame? ensures exists i | 0 <= i <= s1.top :: s1.bufs[i] == k {
      if k < |s.frames| {
        assert s.frames[k].InvokeFrame?;
        var i :| 0 <= i <= s.top && s.bufs[i] == k;
        assert s1.bufs[i] == k;
      } else {
        assert s1.bufs[s1.top] == k;
      }
    }
  }

  lemma BufferOf(s: State, k: nat) returns (i: nat)
    requires Shaped(s) && Linked(s) && k < |s.frames| && s.frames[k].InvokeFrame?
    ensures i <= s.top && s.bufs[i] == k
    ensures s.top >= 0 && k < s.bufs[s.top] ==> i < s.top
  {
    i :| 0 <= i <= s.top && s.bufs[i] == k;
  }

  /** Cutting the stack back to the top buffer's activation, which goes away too. */
  lemma CutKeeps(s: State)
    requires Shaped(s) && Linked(s) && s.top >= 0
    ensures s.bufs[s.top] < |s.frames| && Linked(s.(frames := s.frames[..s.bufs[s.top]], top := s.top - 1))
  {
    var cut := s.(frames := s.frames[..s.bufs[s.top]], top := s.top - 1);
    forall i | 0 <= i <= cut.top ensures cut.bufs[i] < |cut.frames| && cut.frames[cut.bufs[i]].InvokeFrame? {
      assert s.bufs[i] < s.bufs[s.top];
    }
    forall k | 0 <= k < |cut.frames| && cut.frames[k].InvokeFrame? ensures exists i | 0 <= i <= cut.top :: cut.bufs[i] == k {
      var i := BufferOf(s, k);
      assert cut.bufs[i] == k;
    }
  }

  /** Filling the pending slot. */
  lemma StashFills(s: State, cls: nat, msg: Option<string>)
    requires Quiet(s)
    ensures Stash(s, cls, msg) == s.(
              pendingClass := cls,
              heap := if msg.Some? then s.heap + [Cell(msg.value, true)] else s.heap,
              pendingMsg := if msg.Some? then Some(|s.heap|) else None)
  {
    hide Linked;
  }

  /** A raise lands in the innermost protected call with its own class and message, and frees the copy. */
  lemma RaiseLands(s: State, cls: nat, msg: Option<string>)
    requires Quiet(s) && s.top >= 0
    ensures s.bufs[s.top] < |s.frames|
    ensures Reached(s, RaiseNow(s, cls, msg), s.frames[..s.bufs[s.top]], s.top - 1, [Raised(cls, Text(msg))])
  {
    hide Linked, Stash;
    CutKeeps(s);
    StashFills(s, cls, msg);
    var s' := RaiseNow(s, cls, msg);
    var cut := s.(frames := s.frames[..s.bufs[s.top]], top := s.top - 1);
    assert s'.frames == cut.frames && s'.top == cut.top && s'.bufs == s.bufs;
    LinkedLooksAt(cut, s');
    OneRaise(s, s', cls, msg);
  }

  lemma LinkedLooksAt(s: State, s': State)
    requires Shaped(s) && Linked(s) && s'.frames == s.frames && s'.top == s.top && s'.bufs == s.bufs
    ensures Shaped(s') && Linked(s')
  {
  }

  lemma OneRaise(s: State, s': State, cls: nat, msg: Option<string>)
    requires var o := Raised(cls, Text(msg));
             && s'.log == s.log + [Seen(o)]
             && s'.heap == if msg.Some? then s.heap + [Cell(msg.value, cls == 0)] else s.heap
    ensures Grown(s, s', [Raised(cls, Text(msg))])
  {
    var log := [Raised(cls, Text(msg))];
    assert SeenAll(log) == [Seen(log[0])];
  }

  /** `stmts` of the running activation `f` ended: either `k` is left to do, or the innermost protected call caught a raise. */
  predicate Ended(s: State, s': State, f: Frame, k: seq<Stmt>, flow: Flow, log: seq<Outcome>) {
    && s.frames != [] && 0 <= s.top < |s.bufs| && s.bufs[s.top] <= |s.frames|
    && if flow.Done? then Reached(s, s', Front(s.frames) + [f.(todo := k)], s.top, log)
       else Reached(s, s', s.frames[..s.bufs[s.top]], s.top - 1, log + [Raised(flow.cls, flow.msg)])
  }

  /** `f` runs as the last activation and has `stmts`, then `k` to do. */
  predicate Running(s: State, f: Frame, stmts: seq<Stmt>, k: seq<Stmt>) {
    && Quiet(s) && s.top >= 0 && s.frames != [] && Last(s.frames) == f && f.todo == stmts + k
    && s.top + Depth(stmts) < MAX_NEST
  }

  /** `s` with the first statement of the running activation taken. */
  function Taken(s: State, f: Frame, stmts: seq<Stmt>, k: seq<Stmt>): State
    requires s.frames != [] && stmts != []
  {
    s.(frames := Front(s.frames) + [f.(todo := stmts[1..] + k)])
  }

  lemma Take(s: State, f: Frame, stmts: seq<Stmt>, k: seq<Stmt>)
    requires Running(s, f, stmts, k) && stmts != []
    ensures f.todo != [] && f.todo[0] == stmts[0] && f.todo[1..] == stmts[1..] + k
    ensures Quiet(Taken(s, f, stmts, k))
  {
    hide Quiet, Depth;
    assert f.todo[0] == stmts[0] && f.todo[1..] == stmts[1..] + k;
    AdvanceKeeps(s, stmts[1..] + k);
  }

  /** Running the remaining statements of an activation does what structured execution says. */
  lemma {:induction false} RunStmts(s: State, f: Frame, stmts: seq<Stmt>, k: seq<Stmt>) returns (n: nat)
    requires Running(s, f, stmts, k)
    ensures Ended(s, Run(s, n), f, k, Exec(stmts).0, Exec(stmts).1)
    decreases stmts, 1
  {
    hide *;
    if stmts == [] {
      n := 0;
      Stay(s, f, k);
    } else {
      match stmts[0]
      case Raise(_, _) => n := RunRaise(s, f, stmts, k);
      case Helper(_) => n := RunHelper(s, f, stmts, k);
      case Invoke(_, _) => n := RunInvoke(s, f, stmts, k);
    }
  }

  /** Doing nothing ends where it started. */
  lemma Stay(s: State, f: Frame, k: seq<Stmt>)
    requires Running(s, f, [], k)
    ensures Ended(s, Run(s, 0), f, k, Exec([]).0, Exec([]).1)
  {
    hide Linked;
    assert [] + k == k && Front(s.frames) + [f] == s.frames;
    assert s.log + [] == s.log && SeenAll([]) == [];
    FrontCut(s, s);
  }

  lemma RunRaise(s: State, f: Frame, stmts: seq<Stmt>, k: seq<Stmt>) returns (n: nat)
    requires Running(s, f, stmts, k) && stmts != [] && stmts[0].Raise?
    ensures Ended(s, Run(s, n), f, k, Exec(stmts).0, Exec(stmts).1)
  {
    hide Linked, RaiseNow, Grown, Depth, Reached;
    var (c, m) := (stmts[0].cls, stmts[0].msg);
    var s1 := Taken(s, f, stmts, k);
    Take(s, f, stmts, k);
    RaiseLands(s1, c, m);
    FrontCut(s, s1);
    n := 1;
    RunOne(s, 0);
    assert Step(s) == RaiseNow(s1, c, m);
    assert [] + [Raised(c, Text(m))] == [Raised(c, Text(m))];
    Retarget(s, s1, Run(s, 1), s.frames[..s.bufs[s.top]], s.top - 1, [Raised(c, Text(m))]);
  }

  lemma RunOne(s: State, n: nat)
    ensures Run(s, 1 + n) == Run(Step(s), n) && Run(s, 0) == s
  {
  }

  // ---- helpers ----

  lemma ExecHelper(stmts: seq<Stmt>)
    requires stmts != [] && stmts[0].Helper?
    ensures var (here, rest) := (Exec(stmts[0].body), Exec(stmts[1..]));
            Exec(stmts) == if here.0.Threw? then here else (rest.0, here.1 + rest.1)
  {
  }

  /** Calling a helper. */
  lemma EnterHelper(s: State, f: Frame, stmts: seq<Stmt>, k: seq<Stmt>) returns (s2: State)
    requires Running(s, f, stmts, k) && stmts != [] && stmts[0].Helper?
    ensures Quiet(s) && s2 == Step(s) && Running(s2, HelperFrame(stmts[0].body), stmts[0].body, [])
    ensures s2 == Taken(s, f, stmts, k).(frames := Taken(s, f, stmts, k).frames + [HelperFrame(stmts[0].body)])
  {
    hide Linked;
    var s1, body := Taken(s, f, stmts, k), stmts[0].body;
    Take(s, f, stmts, k);
    HelperKeeps(s1, body);
    s2 := s1.(frames := s1.frames + [HelperFrame(body)]);
    assert body + [] == body;
  }

  lemma {:induction false} RunHelper(s: State, f: Frame, stmts: seq<Stmt>, k: seq<Stmt>) returns (n: nat)
    requires Running(s, f, stmts, k) && stmts != [] && stmts[0].Helper?
    ensures Ended(s, Run(s, n), f, k, Exec(stmts).0, Exec(stmts).1)
    decreases stmts, 0
  {
    hide *;
    var body, rest := stmts[0].body, stmts[1..];
    var s2 := EnterHelper(s, f, stmts, k);
    var n1 := RunStmts(s2, HelperFrame(body), body, []);
    var s3 := Run(s2, n1);
    var (flow, log) := Exec(body);
    ExecHelper(stmts);
    RunOne(s, n1);
    if flow.Threw? {
      n := 1 + n1;
      HelperThrew(s, s2, s3, f, stmts, k, flow, log);
    } else {
      var s4 := PopHelper(s, s2, s3, f, stmts, k, log);
      var n2 := RunStmts(s4, f.(todo := rest + k), rest, k);
      n := 1 + (n1 + (1 + n2));
      RunOne(s, n1 + (1 + n2));
      RunThen(s2, n1, 1 + n2);
      RunOne(s3, n2);
      FinishRest(s, s2, s4, Run(s4, n2), f, rest, k, log, Exec(rest).0, Exec(rest).1);
    }
  }

  /** A raise in a helper lands where the caller's own raise would. */
  lemma HelperThrew(s: State, s2: State, s3: State, f: Frame, stmts: seq<Stmt>, k: seq<Stmt>, flow: Flow, log: seq<Outcome>)
    requires Running(s, f, stmts, k) && stmts != [] && stmts[0].Helper? && flow.Threw?
    requires s2 == Taken(s, f, stmts, k).(frames := Taken(s, f, stmts, k).frames + [HelperFrame(stmts[0].body)])
    requires Ended(s2, s3, HelperFrame(stmts[0].body), [], flow, log)
    ensures Ended(s, s3, f, k, flow, log)
  {
    hide Reached, Depth;
    FrontCut(s, s2);
    Retarget(s, s2, s3, s.frames[..s.bufs[s.top]], s.top - 1, log + [Raised(flow.cls, flow.msg)]);
  }

  /** A finished helper returns to its caller. */
  lemma PopHelper(s: State, s2: State, s3: State, f: Frame, stmts: seq<Stmt>, k: seq<Stmt>, log: seq<Outcome>) returns (s4: State)
    requires Running(s, f, stmts, k) && stmts != [] && stmts[0].Helper?
    requires s2 == Taken(s, f, stmts, k).(frames := Taken(s, f, stmts, k).frames + [HelperFrame(stmts[0].body)])
    requires Ended(s2, s3, HelperFrame(stmts[0].body), [], Done, log)
    ensures s4 == Step(s3) && After(s, s2, s4, f, stmts[1..], k, log)
    ensures Running(s4, f.(todo := stmts[1..] + k), stmts[1..], k)
  {
    hide Linked, Grown;
    assert Front(s2.frames) == Taken(s, f, stmts, k).frames;
    HelperDoneKeeps(s3);
    s4 := Step(s3);
    assert Front(s3.frames) == Front(s2.frames);
    GrownLooksAt(s2, s3, s4, log);
  }

  lemma GrownLooksAt(s: State, s': State, s'': State, log: seq<Outcome>)
    requires Grown(s, s', log) && s''.log == s'.log && s''.heap == s'.heap
    ensures Grown(s, s'', log)
  {
  }

  /** A helper or a protected call entered from `s` at `s2` is over at `s4`, and `rest + k` is left to do. */
  predicate After(s: State, s2: State, s4: State, f: Frame, rest: seq<Stmt>, k: seq<Stmt>, log: seq<Outcome>) {
    && s.frames != [] && 0 <= s.top <= s2.top < |s2.bufs| && |s.bufs| == |s2.bufs|
    && s2.heap == s.heap && s2.log == s.log && s2.bufs[..s.top + 1] == s.bufs[..s.top + 1]
    && Reached(s2, s4, Front(s.frames) + [f.(todo := rest + k)], s.top, log)
  }

  /** The rest of the activation after a helper or a protected call, seen from the start. */
  lemma FinishRest(s: State, s2: State, s4: State, s5: State, f: Frame, rest: seq<Stmt>, k: seq<Stmt>, log: seq<Outcome>,
                   flow: Flow, log': seq<Outcome>)
    requires Quiet(s) && After(s, s2, s4, f, rest, k, log)
    requires Ended(s4, s5, f.(todo := rest + k), k, flow, log')
    ensures Ended(s, s5, f, k, flow, log + log')
  {
    hide Linked, Grown;
    var frames1 := Front(s.frames) + [f.(todo := rest + k)];
    assert s4.bufs[s.top] == s4.bufs[..s.top + 1][s.top] == s2.bufs[..s.top + 1][s.top] == s.bufs[s.top];
    FrontCut(s, s.(frames := frames1));
    if flow.Done? {
      assert Front(s4.frames) == Front(s.frames);
      ReachedThen(s2, s4, s5, frames1, Front(s.frames) + [f.(todo := k)], s.top, s.top, log, log');
      GrownFrom(s, s2, s5, log + log');
    } else {
      var thrown := Raised(flow.cls, flow.msg);
      ReachedThen(s2, s4, s5, frames1, s.frames[..s.bufs[s.top]], s.top, s.top - 1, log, log' + [thrown]);
      Regroup(log, log', [thrown]);
      GrownFrom(s, s2, s5, log + log' + [thrown]);
      assert s2.bufs[..s.top] == s2.bufs[..s.top + 1][..s.top] && s.bufs[..s.top] == s.bufs[..s.top + 1][..s.top];
    }
  }

  lemma GrownFrom(s: State, s2: State, s5: State, log: seq<Outcome>)
    requires Grown(s2, s5, log) && s2.heap == s.heap && s2.log == s.log
    ensures Grown(s, s5, log)
  {
  }

  // ---- protected calls ----

  lemma ExecInvoke(stmts: seq<Stmt>)
    requires stmts != [] && stmts[0].Invoke?
    ensures var (here, rest) := (Exec(stmts[0].body), Exec(stmts[1..]));
            Exec(stmts) == (rest.0, here.1 + [Caught(here.0, stmts[0].ret)] + rest.1)
  {
  }

  lemma {:induction false} RunInvoke(s: State, f: Frame, stmts: seq<Stmt>, k: seq<Stmt>) returns (n: nat)
    requires Running(s, f, stmts, k) && stmts != [] && stmts[0].Invoke?
    ensures Ended(s, Run(s, n), f, k, Exec(stmts).0, Exec(stmts).1)
    decreases stmts, 0
  {
    hide *;
    var body, ret, rest := stmts[0].body, stmts[0].ret, stmts[1..];
    var s2 := CallInvoke(s, f, stmts, k);
    var (flow, log) := Exec(body);
    ExecInvoke(stmts);
    var n1 := RunBody(s2, Taken(s, f, stmts, k).frames, body, ret);
    var s4 := Run(s2, n1);
    Called(s, s2, s4, f, stmts, k, log + [Caught(flow, ret)]);
    var n2 := RunStmts(s4, f.(todo := rest + k), rest, k);
    n := 1 + (n1 + n2);
    RunOne(s, n1 + n2);
    RunThen(s2, n1, n2);
    FinishRest(s, s2, s4, Run(s4, n2), f, rest, k, log + [Caught(flow, ret)], Exec(rest).0, Exec(rest).1);
  }

  /** Entering a protected call. */
  lemma CallInvoke(s: State, f: Frame, stmts: seq<Stmt>, k: seq<Stmt>) returns (s2: State)
    requires Running(s, f, stmts, k) && stmts != [] && stmts[0].Invoke?
    ensures Quiet(s) && s.frames != [] && 0 <= s.top && s.top + 1 < MAX_NEST
    ensures s2 == Step(s) == EnterInvoke(Taken(s, f, stmts, k), stmts[0].body, stmts[0].ret)
    ensures Quiet(s2) && s2.top == s.top + 1 && s2.top + Depth(stmts[0].body) < MAX_NEST
    ensures s2.top < |s2.bufs| && s2.bufs[s2.top] == |Taken(s, f, stmts, k).frames|
    ensures s2.frames == Taken(s, f, stmts, k).frames + [InvokeFrame(stmts[0].body, stmts[0].ret)]
  {
    hide Linked, EnterInvoke;
    var s1 := Taken(s, f, stmts, k);
    Take(s, f, stmts, k);
    EnterKeeps(s1, stmts[0].body, stmts[0].ret);
    Entered(s1, stmts[0].body, stmts[0].ret);
    s2 := Step(s);
  }

  /** Back from a protected call. */
  lemma Called(s: State, s2: State, s4: State, f: Frame, stmts: seq<Stmt>, k: seq<Stmt>, log: seq<Outcome>)
    requires Running(s, f, stmts, k) && stmts != [] && stmts[0].Invoke? && s.top + 1 < MAX_NEST
    requires s2 == EnterInvoke(Taken(s, f, stmts, k), stmts[0].body, stmts[0].ret)
    requires Reached(s2, s4, Taken(s, f, stmts, k).frames, s.top, log)
    ensures After(s, s2, s4, f, stmts[1..], k, log)
    ensures Running(s4, f.(todo := stmts[1..] + k), stmts[1..], k)
  {
    hide Linked, EnterInvoke, Grown;
    Entered(Taken(s, f, stmts, k), stmts[0].body, stmts[0].ret);
  }

  /** What entering a protected call sets up. */
  lemma Entered(s1: State, body: seq<Stmt>, ret: nat)
    requires Shaped(s1) && s1.top + 1 < MAX_NEST
    ensures var s2 := EnterInvoke(s1, body, ret);
            && s2.top == s1.top + 1 && |s2.bufs| == |s1.bufs| && s2.bufs[s2.top] == |s1.frames|
            && s2.bufs[..s1.top + 1] == s1.bufs[..s1.top + 1]
            && s2.frames == s1.frames + [InvokeFrame(body, ret)]
            && s2.heap == s1.heap && s2.log == s1.log
  {
  }

  /** A protected call, from its first statement until its outcome is delivered. */
  lemma {:induction false} RunBody(s2: State, frames: seq<Frame>, body: seq<Stmt>, ret: nat) returns (n: nat)
    requires Quiet(s2) && s2.top >= 0 && s2.frames == frames + [InvokeFrame(body, ret)] && s2.bufs[s2.top] == |frames|
    requires s2.top + Depth(body) < MAX_NEST
    ensures Reached(s2, Run(s2, n), frames, s2.top - 1, Exec(body).1 + [Caught(Exec(body).0, ret)])
    decreases body, 2
  {
    hide Linked, Reached, Exec, Depth, Step;
    assert body + [] == body && Front(s2.frames) == frames && s2.frames[..|frames|] == frames;
    var n1 := RunStmts(s2, InvokeFrame(body, ret), body, []);
    if Exec(body).0.Done? {
      var s4 := ReturnFromInvoke(s2, Run(s2, n1), frames, ret, Exec(body).1);
      RunThen(s2, n1, 1);
      n := n1 + 1;
    } else {
      n := n1;
    }
  }

  /** A protected call that returns normally hands over its value and restores the buffer stack. */
  lemma ReturnFromInvoke(s2: State, s3: State, frames: seq<Frame>, ret: nat, log: seq<Outcome>) returns (s4: State)
    requires s2.top >= 0 && Reached(s2, s3, frames + [InvokeFrame([], ret)], s2.top, log)
    ensures s4 == Run(s3, 1) && Reached(s2, s4, frames, s2.top - 1, log + [Returned(ret)])
  {
    hide Linked;
    TopIsLast(s3);
    CutKeeps(s3);
    s4 := Step(s3);
    assert Run(s3, 1) == Run(Step(s3), 0);
    assert Front(s3.frames) == frames == s3.frames[..|s3.frames| - 1];
    LinkedLooksAt(s3.(frames := frames, top := s3.top - 1), s4);
    assert s4.bufs[..s2.top] == s3.bufs[..s2.top + 1][..s2.top];
    assert s2.bufs[..s2.top] == s2.bufs[..s2.top + 1][..s2.top];
    assert SeenAll([Returned(ret)]) == [Returned(ret)];
    assert Grown(s3, s4, [Returned(ret)]);
    GrownThen(s2, s3, s4, log, [Returned(ret)]);
  }

  /** `Reached` looks at the log, buffers and heap of its start only. */
  lemma Retarget(s: State, s1: State, s': State, frames: seq<Frame>, top: int, log: seq<Outcome>)
    requires Reached(s1, s', frames, top, log)
    requires s1.top == s.top && s1.bufs == s.bufs && s1.heap == s.heap && s1.log == s.log
    ensures Reached(s, s', frames, top, log)
  {
    hide Linked;
  }

  /** The part of the stack below the innermost protected activation does not include the running one. */
  lemma FrontCut(s: State, s1: State)
    requires Quiet(s) && s.top >= 0 && s.frames != []
    requires s1.bufs == s.bufs && s1.top == s.top && Front(s.frames) <= s1.frames
    ensures s.bufs[s.top] < |s.frames| && s1.frames[..s.bufs[s.top]] == s.frames[..s.bufs[s.top]]
  {
  }

  // ---- the refinement ----

  /** An idle shim, called from Rust. */
  predicate Idle(s: State) {
    Quiet(s) && s.top == -1 && s.frames == []
  }

  function Start(s: State, body: seq<Stmt>, ret: nat): State {
    EnterInvoke(s, body, ret)
  }

  /** The outcomes structured execution delivers for a protected call of `body`, the last one to the host. */
  function Delivered(body: seq<Stmt>, ret: nat): seq<Outcome> {
    var (flow, log) := Exec(body);
    log + [Caught(flow, ret)]
  }

  /**
   Every program nested at most 64 deep terminates in an idle shim, having delivered to
   each protected call what structured execution delivers, except that class 0 reads as a
   return; if no class is 0 every message is freed, and none twice.
   */
  lemma ShimRefinesTryCatch(s: State, body: seq<Stmt>, ret: nat) returns (n: nat)
    requires Idle(s) && Depth(body) < MAX_NEST
    ensures var s' := Run(Start(s, body, ret), n);
            && Idle(s')
            && s'.log == s.log + SeenAll(Delivered(body, ret))
            && |s.heap| <= |s'.heap| && s'.heap[..|s.heap|] == s.heap
            && (AllCaughtNonZero(Delivered(body, ret)) ==> forall p | |s.heap| <= p < |s'.heap| :: !s'.heap[p].live)
  {
    var s2 := Start(s, body, ret);
    EnterKeeps(s, body, ret);
    Entered(s, body, ret);
    n := RunBody(s2, [], body, ret);
  }

  /** The shim agrees with structured execution exactly when no class-0 exception is caught. */
  lemma SeenAllFaithful(log: seq<Outcome>)
    ensures SeenAll(log) == log <==> AllCaughtNonZero(log)
  {
    if AllCaughtNonZero(log) {
      assert forall i | 0 <= i < |log| :: SeenAll(log)[i] == log[i];
    } else {
      var i :| 0 <= i < |log| && log[i].Raised? && log[i].cls == 0;
      assert SeenAll(log)[i] != log[i];
    }
  }

  lemma FaithfulExactly(s: State, body: seq<Stmt>, ret: nat) returns (n: nat)
    requires Idle(s) && Depth(body) < MAX_NEST
    ensures Idle(Run(Start(s, body, ret), n))
    ensures Run(Start(s, body, ret), n).log == s.log + Delivered(body, ret) <==> AllCaughtNonZero(Delivered(body, ret))
  {
    n := ShimRefinesTryCatch(s, body, ret);
    var log := Delivered(body, ret);
    SeenAllFaithful(log);
    if s.log + SeenAll(log) == s.log + log {
      assert SeenAll(log) == (s.log + SeenAll(log))[|s.log|..] == log;
    }
  }

  /** A raise of class 0 reads as a return of 0 and leaks its message. */
  lemma ClassZeroLeaks(s: State)
    requires Idle(s) && s.heap == [] && s.log == []
    ensures var s' := Run(Start(s, [Raise(0, Some("m"))], 5), 1);
            Delivered([Raise(0, Some("m"))], 5) == [Raised(0, "m")] && s'.log == [Returned(0)] && s'.heap == [Cell("m", true)]
  {
    var body := [Raise(0, Some("m"))];
    var s2 := Start(s, body, 5);
    EnterKeeps(s, body, 5);
    Entered(s, body, 5);
    assert Run(s2, 1) == Run(Step(s2), 0);
    var s3 := s2.(frames := Front(s2.frames) + [InvokeFrame(body[1..], 5)]);
    StashFills(s2, 0, Some("m"));
    assert Step(s2) == RaiseNow(s3, 0, Some("m"));
  }
}
