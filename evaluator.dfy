/** `Evaluator` of src/evaluator.rs: it owns one `Stack` and runs the byte
    code of a module's functions on it.  Every method changes the stack in
    place and is proved to end as the function of the same name in
    `EvaluatorSpec` says, including the panics.  `fuel` bounds the loops
    and the recursion the same way it bounds the functions. */
module Evaluators {
  import opened Bytes
  import opened Outcomes
  import opened Numbers
  import Frames
  import OldModule
  import opened StackSpec
  import HandlerSpec
  import Spec = EvaluatorSpec
  import opened Stacks
  import Handlers

  class Evaluator {
    const stack: Stack

    /** `Evaluator::new()`. */
    constructor()
      ensures fresh(stack)
      ensures stack.State() == Empty
    {
      stack := new Stack();
    }

    /** `operate_end` (0x0b). */
    method OperateEnd(f: Frames.Frame) returns (r: Result<Frames.Frame>)
      modifies stack
      ensures Agrees(Spec.End(old(stack.State()), f), r, stack.State())
    {
      if f.counter != |f.func.bytecodes| {
        var popped := stack.PopLastLabel();
        if popped.Panic? {
          return Panic(popped.reason);
        }
        return Ok(f);
      }
      var value := stack.PopValue();
      if value.Panic? {
        return Panic(value.reason);
      }
      if |stack.stack| == 0 {
        return Panic(NoneUnwrap);
      }
      if !stack.stack[|stack.stack| - 1].FrameEntry? {
        return Panic(Spec.EndNotFrame);
      }
      var popped := stack.PopCurrentFrame();
      if popped.Panic? {
        return Panic(popped.reason);
      }
      if value.value.Some? {
        var pushed := stack.PushValues(value.value.value);
        if pushed.Panic? {
          return Panic(pushed.reason);
        }
      }
      return Ok(f);
    }

    /** `operate_return` (0x0f). */
    method OperateReturn() returns (r: Result<()>)
      modifies stack
      ensures Updates(Spec.Return(old(stack.State())), r, stack.State())
    {
      var value := stack.PopValue();
      if value.Panic? {
        return Panic(value.reason);
      }
      var popped := stack.PopCurrentFrame();
      if popped.Panic? {
        return Panic(popped.reason);
      }
      if value.value.Some? {
        r := stack.PushValues(value.value.value);
        return;
      }
      return Ok(());
    }

    /** The arms of `execute` that neither call nor return. */
    method Handle(ops: NumberOps, f: Frames.Frame, op: byte) returns (r: Result<Frames.Frame>)
      modifies stack
      ensures Agrees(Spec.Handle(ops, old(stack.State()), f, op), r, stack.State())
    {
      match op {
        case 0x0b => r := OperateEnd(f);
        case 0x4f => r := Handlers.OperateI32GeU(stack, f, ops.gt);
        case _ => r := Handlers.OperateShared(stack, f, ops, op);
      }
    }

    /** One arm of `execute` other than `return`.  `operate_call` (0x10)
        saves the running copy of the frame into the stack before the call
        and drops the value the call pops. */
    method Arm(m: OldModule.Module, ops: NumberOps, f: Frames.Frame, op: byte, fuel: nat) returns (r: Result<Frames.Frame>)
      modifies stack
      decreases fuel, 2
      ensures Agrees(Spec.Arm(m, Spec.Handlers(ops), old(stack.State()), f, op, fuel), r, stack.State())
    {
      if op != 0x10 {
        r := Handle(ops, f, op);
        return;
      }
      var idx := Handlers.ReadULeb128(stack, f);
      if idx.Panic? {
        return Panic(idx.reason);
      }
      var saved := stack.UpdateCurrentFrame(idx.value.1);
      if saved.Panic? {
        return Panic(saved.reason);
      }
      var called := Call(m, ops, idx.value.0, fuel);
      if called.Panic? {
        return Panic(called.reason);
      }
      return Ok(idx.value.1);
    }

    /** One turn of the loop of `execute`: `None` when the body ran out or
        after `return`, and otherwise the frame to go on with. */
    method Turn(m: OldModule.Module, ops: NumberOps, f: Frames.Frame, fuel: nat)
      returns (r: Result<Option<Frames.Frame>>)
      modifies stack
      decreases fuel, 3
      ensures var h := Spec.Handlers(ops);
        match r
        case Panic(reason) => Spec.Turn(m, h, old(stack.State()), f, fuel) == Panic(reason)
        case Ok(None) => Spec.Turn(m, h, old(stack.State()), f, fuel) == Ok(stack.State())
        case Ok(Some(f')) => Spec.Turn(m, h, old(stack.State()), f, fuel) == Spec.Execute(m, h, stack.State(), f', fuel)
    {
      var op, next := stack.NextOpcode(f);
      if op.None? {
        return Ok(None);
      }
      if op.value == 0x0f {
        var returned := OperateReturn();
        if returned.Panic? {
          return Panic(returned.reason);
        }
        return Ok(None);
      }
      var run := Arm(m, ops, next, op.value, fuel);
      if run.Panic? {
        return Panic(run.reason);
      }
      return Ok(Some(run.value));
    }

    /** `execute`: one opcode per turn until the body runs out or a
        `return` is met. */
    method Execute(m: OldModule.Module, ops: NumberOps, f: Frames.Frame, fuel: nat) returns (r: Result<()>)
      modifies stack
      decreases fuel, 0
      ensures Updates(Spec.Execute(m, Spec.Handlers(ops), old(stack.State()), f, fuel), r, stack.State())
    {
      ghost var h := Spec.Handlers(ops);
      var frame := f;
      var left: nat := fuel;
      while left > 0
        invariant left <= fuel
        invariant Spec.Execute(m, h, old(stack.State()), f, fuel) == Spec.Execute(m, h, stack.State(), frame, left)
        decreases left
      {
        var turn := Turn(m, ops, frame, left - 1);
        if turn.Panic? {
          return Panic(turn.reason);
        }
        if turn.value.None? {
          return Ok(());
        }
        frame := turn.value.value;
        left := left - 1;
      }
      return Panic(HandlerSpec.OutOfFuel);
    }

    /** `call`: the frame is pushed, then whatever frame is on top of the
        stack is run until no frame is left, and the value on top is
        popped. */
    method Call(m: OldModule.Module, ops: NumberOps, idx: nat, fuel: nat) returns (r: Result<Option<Number>>)
      modifies stack
      decreases fuel, 1
      ensures Agrees(Spec.Call(m, Spec.Handlers(ops), old(stack.State()), idx, fuel), r, stack.State())
    {
      ghost var h := Spec.Handlers(ops);
      var func := HandlerSpec.GetFunction(m.functions, idx);
      if func.Panic? {
        return Panic(func.reason);
      }
      var args := Handlers.GetArgs(stack, func.value);
      if args.Panic? {
        return Panic(args.reason);
      }
      stack.PushFrame(Frames.New(func.value, args.value));
      ghost var entered := stack.State();
      var left: nat := fuel;
      while true
        invariant left <= fuel
        invariant Spec.Drive(m, h, entered, fuel) == Spec.Drive(m, h, stack.State(), left)
        decreases left
      {
        if left == 0 {
          return Panic(HandlerSpec.OutOfFuel);
        }
        var current := stack.CurrentFrame();
        if current.Panic? {
          return Panic(current.reason);
        }
        if current.value.None? {
          break;
        }
        var ran := Execute(m, ops, current.value.value, left - 1);
        if ran.Panic? {
          return Panic(ran.reason);
        }
        left := left - 1;
      }
      r := stack.PopValue();
    }

    /** `invoke`. */
    method Invoke(m: OldModule.Module, ops: NumberOps, name: string, args: seq<Number>, fuel: nat)
      returns (r: Result<Option<Number>>)
      modifies stack
      ensures Agrees(Spec.Invoke(m, ops, old(stack.State()), name, args, fuel), r, stack.State())
    {
      var pushed := Handlers.PushAll(stack, args);
      if pushed.Panic? {
        return Panic(pushed.reason);
      }
      if name !in m.exports {
        return Panic(NoneUnwrap);
      }
      r := Call(m, ops, m.exports[name].index, fuel);
    }
  }
}
