/** `Runtime` of src/runtime.rs: the frame list, the value stack and their
    counters are fields that its methods change in place.  Each method is
    proved to end as the function of the same name in `RuntimeSpec` says,
    including the panics.  A `Frame` is a value: the program clones it out
    of the list and runs the clone. */
module Runtimes {
  import opened Bytes
  import opened Outcomes
  import opened Nodes
  import opened Instances
  import StackSpec
  import Spec = RuntimeSpec

  /** `Frame::new`: the locals start unset and the `for` loop over the
      arguments sets them in order. */
  method BuildFrame(func: FunctionInstance, args: Option<seq<Spec.Value>>) returns (r: Result<Spec.Frame>)
    ensures r == Spec.NewFrame(func, args)
  {
    var n := Spec.LocalCount(func);
    var locals: seq<Option<Spec.Value>> := seq(n, _ => None);
    if args.Some? {
      var i := 0;
      while i < |args.value|
        invariant i <= |args.value| && i <= n
        invariant |locals| == n
        invariant forall k :: 0 <= k < n ==> locals[k] == if k < i then Some(args.value[k]) else None
      {
        if i >= n {
          return Panic(Spec.IndexOutOfBounds);
        }
        locals := locals[i := Some(args.value[i])];
        i := i + 1;
      }
      assert locals == Spec.Locals(args.value, n);
    } else {
      assert locals == Spec.Locals([], n);
    }
    return Ok(Spec.Frame(func, locals, 0, 0));
  }

  class Runtime {
    var frames: seq<Spec.Frame>
    var frameIndex: nat
    var stack: seq<Spec.StackEntry>
    var sp: nat
    var depth: nat

    function State(): Spec.RtState
      reads this
    {
      Spec.RtState(frames, frameIndex, stack, sp, depth)
    }

    /** `Runtime::default()`. */
    constructor()
      ensures State() == Spec.Default
    {
      frames := [];
      frameIndex := 0;
      stack := [];
      sp := 0;
      depth := 0;
    }

    /** `push_frame`. */
    method PushFrame(func: FunctionInstance, args: Option<seq<Spec.Value>>) returns (r: Result<()>)
      modifies this
      ensures Updates(Spec.PushFrame(old(State()), func, args), r, State())
    {
      var f := BuildFrame(func, args);
      if f.Panic? {
        return Panic(f.reason);
      }
      frames := frames + [f.value];
      frameIndex := frameIndex + 1;
      return Ok(());
    }

    /** `pop_frame`. */
    method PopFrame() returns (r: Result<Spec.Frame>)
      modifies this
      ensures Agrees(Spec.PopFrame(old(State())), r, State())
    {
      if frameIndex == 0 {
        return Panic(Spec.Overflow);
      }
      frameIndex := frameIndex - 1;
      if |frames| == 0 {
        return Panic(Spec.NoFrame);
      }
      r := Ok(frames[|frames| - 1]);
      frames := frames[..|frames| - 1];
    }

    /** `current_frame`. */
    method CurrentFrame() returns (r: Result<Spec.Frame>)
      ensures r == Spec.CurrentFrame(State())
    {
      if frameIndex == 0 {
        return Panic(Spec.Overflow);
      }
      if frameIndex - 1 >= |frames| {
        return Panic(Spec.IndexOutOfBounds);
      }
      return Ok(frames[frameIndex - 1]);
    }

    /** `frame_is_empty`: while the counters count, no frame is counted
        exactly when none is left. */
    method FrameIsEmpty() returns (b: bool)
      ensures b <==> frameIndex == 0
      ensures Spec.Counted(State()) ==> (b <==> frames == [])
    {
      return frameIndex == 0;
    }

    /** `stack_push`. */
    method StackPush(e: Spec.StackEntry)
      modifies this
      ensures State() == Spec.StackPush(old(State()), e)
    {
      stack := stack + [e];
      sp := sp + 1;
    }

    /** `stack_pop`. */
    method StackPop() returns (r: Result<Spec.StackEntry>)
      modifies this
      ensures Agrees(Spec.StackPop(old(State())), r, State())
    {
      if sp == 0 {
        return Panic(Spec.Overflow);
      }
      sp := sp - 1;
      if |stack| == 0 {
        return Panic(StackSpec.NoneUnwrap);
      }
      r := Ok(stack[|stack| - 1]);
      stack := stack[..|stack| - 1];
    }

    /** One arm of the `match` of `invoke`, on the running copy `f` of the
        frame. */
    method Step(instr: InstructionNode, f: Spec.Frame, add: Spec.Add) returns (r: Result<Spec.Frame>)
      modifies this
      ensures Agrees(Spec.Execute(instr, f, old(State()), add), r, State())
    {
      match instr {
        case I32Const(v) =>
          StackPush(Spec.ValueEntry(Spec.Num(Spec.I32(v))));
          return Ok(f);
        case End =>
          return Ok(f);
        case GetLocal(index) =>
          var v := Spec.GetLocal(f, index);
          if v.Panic? {
            return Panic(v.reason);
          }
          if v.value.None? {
            return Panic(StackSpec.NoneUnwrap);
          }
          StackPush(Spec.ValueEntry(v.value.value));
          return Ok(f);
        case SetLocal(index) =>
          var popped := StackPop();
          if popped.Panic? {
            return Panic(popped.reason);
          }
          r := Spec.SetLocal(f, index, popped.value.v);
        case I32Add =>
          var a := StackPop();
          if a.Panic? {
            return Panic(a.reason);
          }
          var b := StackPop();
          if b.Panic? {
            return Panic(b.reason);
          }
          StackPush(Spec.ValueEntry(Spec.Num(add(a.value.v.n, b.value.v.n))));
          return Ok(f);
        case _ =>
          return Panic(Spec.NotImplemented);
      }
    }

    /** `invoke`: the outer loop runs while a frame is counted; the inner
        loop runs the body of the running copy to its end. */
    method Invoke(inst: Instance, name: seq<byte>, args: Option<seq<Spec.Value>>, add: Spec.Add)
      returns (r: Result<Spec.RtNumber>)
      modifies this
      ensures Agrees(Spec.Invoke(inst, old(State()), name, args, add), r, State())
    {
      if name !in inst.exportMap {
        return Panic(StackSpec.NoneUnwrap);
      }
      var exported := inst.exportMap[name];
      if !exported.FunctionExport? {
        return Panic(Spec.NonFunction);
      }
      if exported.index >= |inst.functions| {
        return Panic(Spec.IndexOutOfBounds);
      }
      var pushed := PushFrame(inst.functions[exported.index], args);
      if pushed.Panic? {
        return Panic(pushed.reason);
      }
      ghost var s1 := State();
      var current := CurrentFrame();
      if current.Panic? {
        return Panic(current.reason);
      }
      var frame := current.value;
      ghost var f0 := frame;
      while true
        invariant Spec.Rounds(f0, s1, add) == Spec.Rounds(frame, State(), add)
        decreases frameIndex
      {
        var empty := FrameIsEmpty();
        if empty {
          break;
        }
        ghost var start := State();
        ghost var fStart := frame;
        while frame.ip < |frame.func.code.body|
          invariant Spec.Body(fStart, start, add) == Spec.Body(frame, State(), add)
          invariant frames == start.frames && frameIndex == start.frameIndex
          decreases |frame.func.code.body| - frame.ip
        {
          var next := Spec.NextInstruction(frame).value;
          var stepped := Step(next.0, next.1, add);
          if stepped.Panic? {
            return Panic(stepped.reason);
          }
          frame := stepped.value;
        }
        var popped := PopFrame();
        if popped.Panic? {
          return Panic(popped.reason);
        }
      }
      var top := StackPop();
      if top.Panic? {
        return Panic(top.reason);
      }
      return Ok(top.value.v.n);
    }
  }
}
