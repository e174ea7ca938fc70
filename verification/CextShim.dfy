/** The jump-buffer shim as it runs: thread-local fields and a fixed array of buffers, written step by step. */
module CextShim {
  import opened Common
  import opened CextJump

  class Shim {
    var top: int
    const bufs: array<nat>
    var pendingClass: nat
    var pendingMsg: Option<nat>
    var frames: seq<Frame>
    var heap: seq<Cell>
    var badFree: bool
    var aborted: bool
    var log: seq<Outcome>

    ghost function Now(): State
      reads this, bufs
    {
      State(top, bufs[..], pendingClass, pendingMsg, frames, heap, badFree, aborted, log)
    }

    constructor ()
      ensures fresh(bufs) && Idle(Now()) && log == [] && heap == []
    {
      bufs := new nat[MAX_NEST](_ => 0);
      top, pendingClass, pendingMsg := -1, 0, None;
      frames, heap, badFree, aborted, log := [], [], false, false, [];
    }

    method Free(p: nat)
      modifies this`heap, this`badFree
      ensures Now() == CextJump.Free(old(Now()), p)
    {
      if p < |heap| && heap[p].live {
        heap := heap[p := heap[p].(live := false)];
      } else {
        badFree := true;
      }
    }

    /** The Rust side of the call: builds the outcome and frees the message it was given. */
    method HandOver(result: nat, outClass: nat, outMsg: Option<nat>)
      modifies this
      ensures Now() == CextJump.HandOver(old(Now()), result, outClass, outMsg)
    {
      if outClass == 0 {
        log := log + [Returned(result)];
        return;
      }
      match outMsg
      case None =>
        log := log + [Raised(outClass, "")];
      case Some(p) =>
        log := log + [Raised(outClass, if p < |heap| then heap[p].text else "")];
        Free(p);
    }

    method EnterInvoke(body: seq<Stmt>, ret: nat)
      modifies this, bufs
      ensures Now() == CextJump.EnterInvoke(old(Now()), body, ret)
    {
      if top + 1 >= MAX_NEST || top < -1 || bufs.Length != MAX_NEST {
        aborted := true;
        return;
      }
      top := top + 1;
      bufs[top] := |frames|;
      frames := frames + [InvokeFrame(body, ret)];
    }

    method LeaveInvoke(ret: nat)
      requires frames != []
      modifies this
      ensures Now() == CextJump.LeaveInvoke(old(Now()), ret)
    {
      frames := Front(frames);
      top := top - 1;
      HandOver(ret, 0, None);
    }

    /** Fill the pending slot, replacing a message nobody consumed. */
    method Stash(cls: nat, msg: Option<string>)
      modifies this`pendingClass, this`pendingMsg, this`heap, this`badFree
      ensures Now() == CextJump.Stash(old(Now()), cls, msg)
    {
      pendingClass := cls;
      if pendingMsg.Some? {
        Free(pendingMsg.value);
        pendingMsg := None;
      }
      if msg.Some? {
        heap := heap + [Cell(msg.value, true)];
        pendingMsg := Some(|heap| - 1);
      }
    }

    /** The other end of the jump: pop the buffer and consume the slot. */
    method Land()
      requires 0 <= top < bufs.Length && bufs[top] < |frames|
      modifies this
      ensures Now() == CextJump.Land(old(Now()))
    {
      hide CextJump.HandOver;
      frames := frames[..bufs[top]];
      top := top - 1;
      var outClass, outMsg := pendingClass, pendingMsg;
      pendingClass, pendingMsg := 0, None;
      HandOver(0, outClass, outMsg);
    }

    method Raise(cls: nat, msg: Option<string>)
      modifies this
      ensures Now() == RaiseNow(old(Now()), cls, msg)
    {
      hide CextJump.Stash, CextJump.Land;
      if top < 0 || top >= bufs.Length || bufs[top] >= |frames| {
        aborted := true;
        return;
      }
      Stash(cls, msg);
      Land();
    }

    method Step()
      requires !aborted && frames != []
      modifies this, bufs
      ensures Now() == CextJump.Step(old(Now()))
    {
      var f := Last(frames);
      if f.todo == [] {
        if f.HelperFrame? {
          frames := Front(frames);
        } else {
          LeaveInvoke(f.ret);
        }
        return;
      }
      frames := Front(frames) + [f.(todo := f.todo[1..])];
      match f.todo[0]
      case Invoke(body, ret) => EnterInvoke(body, ret);
      case Helper(body) => frames := frames + [HelperFrame(body)];
      case Raise(c, m) => Raise(c, m);
    }

    /** Run one protected call from the host until the C stack is empty again. */
    method Drive(body: seq<Stmt>, ret: nat)
      requires Idle(Now()) && Depth(body) < 64
      modifies this, bufs
      ensures Idle(Now())
      ensures log == old(log) + SeenAll(Delivered(body, ret))
      ensures |old(heap)| <= |heap| && heap[..|old(heap)|] == old(heap)
      ensures AllCaughtNonZero(Delivered(body, ret)) ==> forall p | |old(heap)| <= p < |heap| :: !heap[p].live
    {
      hide CextJump.Step, Linked;
      ghost var n := ShimRefinesTryCatch(Now(), body, ret);
      ghost var begun := CextJump.EnterInvoke(Now(), body, ret);
      EnterInvoke(body, ret);
      ghost var i: nat := 0;
      while frames != [] && !aborted
        invariant i <= n && Now() == Run(begun, i)
        decreases n - i
      {
        RunThen(begun, i, 1);
        assert Run(Run(begun, i), 1) == Run(CextJump.Step(Run(begun, i)), 0);
        Step();
        i := i + 1;
      }
      StopsOnlyWhenIdle(begun, i, n);
    }
  }

  /** A state with nothing to run, or aborted, stays as it is. */
  lemma {:induction false} StopsOnlyWhenIdle(s: State, i: nat, n: nat)
    requires i <= n && (Run(s, i).frames == [] || Run(s, i).aborted)
    ensures Run(s, n) == Run(s, i)
    decreases n - i
  {
    if i < n {
      RunThen(s, i, n - i);
      Halted(Run(s, i), n - i);
    }
  }

  lemma {:induction false} Halted(s: State, n: nat)
    requires s.frames == [] || s.aborted
    ensures Run(s, n) == s
    decreases n
  {
    if n > 0 {
      Halted(s, n - 1);
    }
  }
}
