/** `Evaluator` of old/src/evaluator.rs: it owns one `Stack` and runs the
    byte code of a module's functions on it.  Every method changes the
    stack in place and is proved to end as the function of the same name
    in `OldEvaluatorSpec` says, including the panics.  Nothing bounds the
    recursion of `execute` and `call` in the program; here `fuel` bounds
    it the same way it bounds the functions. */
module OldEvaluators {
  import opened Bytes
  import opened Outcomes
  import opened Numbers
  import Frames
  import OldModule
  import opened StackSpec
  import HandlerSpec
  import Spec = OldEvaluatorSpec
  import opened Stacks
  import Handlers

  class Evaluator {
    const stack: Stack

    /** `Evaluator::new()`. */
    constructor()
      ensures fresh(stack)
      ensures stack.State() == Empty
    {
      stack := new Stack();
    }

    /** `operate_end` (0x0b). */
    method OperateEnd(f: Frames.Frame) returns (r: Result<Frames.Frame>)
      modifies stack
      ensures Agrees(Spec.End(old(stack.State()), f), r, stack.State())
    {
      if f.counter != |f.func.bytecodes| {
        var popped := stack.PopLastLabel();
        if popped.Panic? {
          return Panic(popped.reason);
        }
      }
      return Ok(f);
    }

    /** `operate_global_get` (0x23). */
    method OperateGlobalGet(m: OldModule.Module, f: Frames.Frame) returns (r: Result<Frames.Frame>)
      modifies stack
      ensures Agrees(Spec.GlobalGet(m, old(stack.State()), f), r, stack.State())
    {
      var idx := Handlers.ReadULeb128(stack, f);
      if idx.Panic? {
        return Panic(idx.reason);
      }
      if idx.value.0 >= |m.globalVars| {
        return Panic(Spec.GlobalMissing);
      }
      var pushed := stack.PushValues(m.globalVars[idx.value.0]);
      if pushed.Panic? {
        return Panic(pushed.reason);
      }
      return Ok(idx.value.1);
    }

    /** The arms of `execute` that do not call. */
    method Handle(m: OldModule.Module, ops: NumberOps, f: Frames.Frame, op: byte) returns (r: Result<Frames.Frame>)
      modifies stack
      ensures Agrees(Spec.Handle(m, ops, old(stack.State()), f, op), r, stack.State())
    {
      match op {
        case 0x0b => r := OperateEnd(f);
        case 0x23 => r := OperateGlobalGet(m, f);
        case 0x4f => r := Handlers.OperateI32GeU(stack, f, ops.ge);
        case _ => r := Handlers.OperateShared(stack, f, ops, op);
      }
    }

    /** One arm of `execute`.  `operate_call` (0x10) saves the running
        copy of the frame into the stack before the call. */
    method Arm(m: OldModule.Module, ops: NumberOps, f: Frames.Frame, op: byte, fuel: nat) returns (r: Result<Frames.Frame>)
      modifies stack
      decreases fuel, 2
      ensures Agrees(Spec.Arm(m, Spec.Handlers(m, ops), old(stack.State()), f, op, fuel), r, stack.State())
    {
      if op != 0x10 {
        r := Handle(m, ops, f, op);
        return;
      }
      var idx := Handlers.ReadULeb128(stack, f);
      if idx.Panic? {
        return Panic(idx.reason);
      }
      var saved := stack.UpdateCurrentFrame(idx.value.1);
      if saved.Panic? {
        return Panic(saved.reason);
      }
      var called := Call(m, ops, idx.value.0, fuel);
      if called.Panic? {
        return Panic(called.reason);
      }
      return Ok(idx.value.1);
    }

    /** One turn of the loop of `execute`: `None` when the body ran out
        or met a `return`, and otherwise the frame to go on with. */
    method Turn(m: OldModule.Module, ops: NumberOps, f: Frames.Frame, fuel: nat)
      returns (r: Result<Option<Frames.Frame>>)
      modifies stack
      decreases fuel, 3
      ensures var h := Spec.Handlers(m, ops);
        match r
        case Panic(reason) => Spec.Turn(m, h, old(stack.State()), f, fuel) == Panic(reason)
        case Ok(None) => Spec.Turn(m, h, old(stack.State()), f, fuel) == Ok(stack.State())
        case Ok(Some(f')) => Spec.Turn(m, h, old(stack.State()), f, fuel) == Spec.Execute(m, h, stack.State(), f', fuel)
    {
      var op, next := stack.NextOpcode(f);
      if op.None? || op.value == 0x0f {
        return Ok(None);
      }
      var run := Arm(m, ops, next, op.value, fuel);
      if run.Panic? {
        return Panic(run.reason);
      }
      return Ok(Some(run.value));
    }

    /** `execute`: one opcode per turn until the body runs out or a
        `return` is met. */
    method Execute(m: OldModule.Module, ops: NumberOps, f: Frames.Frame, fuel: nat) returns (r: Result<()>)
      modifies stack
      decreases fuel, 0
      ensures Updates(Spec.Execute(m, Spec.Handlers(m, ops), old(stack.State()), f, fuel), r, stack.State())
    {
      ghost var h := Spec.Handlers(m, ops);
      var frame := f;
      var left: nat := fuel;
      while left > 0
        invariant left <= fuel
        invariant Spec.Execute(m, h, old(stack.State()), f, fuel) == Spec.Execute(m, h, stack.State(), frame, left)
        decreases left
      {
        var turn := Turn(m, ops, frame, left - 1);
        if turn.Panic? {
          return Panic(turn.reason);
        }
        if turn.value.None? {
          return Ok(());
        }
        frame := turn.value.value;
        left := left - 1;
      }
      return Panic(HandlerSpec.OutOfFuel);
    }

    /** `call`. */
    method Call(m: OldModule.Module, ops: NumberOps, idx: nat, fuel: nat) returns (r: Result<()>)
      modifies stack
      decreases fuel, 1
      ensures Updates(Spec.Call(m, Spec.Handlers(m, ops), old(stack.State()), idx, fuel), r, stack.State())
    {
      var func := HandlerSpec.GetFunction(m.functions, idx);
      if func.Panic? {
        return Panic(func.reason);
      }
      var args := Handlers.GetArgs(stack, func.value);
      if args.Panic? {
        return Panic(args.reason);
      }
      var resultNum := |func.value.funcType.results|;
      stack.PushFrame(Frames.New(func.value, args.value));
      var current := stack.CurrentFrame();
      if current.Panic? {
        return Panic(current.reason);
      }
      if current.value.None? {
        return Panic(NoneUnwrap);
      }
      var ran := Execute(m, ops, current.value.value, fuel);
      if ran.Panic? {
        return Panic(ran.reason);
      }
      var results := Handlers.PopNumbers(stack, resultNum, false, Spec.NoResult);
      if results.Panic? {
        return Panic(results.reason);
      }
      var popped := stack.PopCurrentFrame();
      if popped.Panic? {
        return Panic(popped.reason);
      }
      r := Handlers.PushAll(stack, HandlerSpec.Reverse(results.value));
    }

    /** `invoke`. */
    method Invoke(m: OldModule.Module, ops: NumberOps, name: string, args: seq<Number>, fuel: nat)
      returns (r: Result<Option<Number>>)
      modifies stack
      ensures Agrees(Spec.Invoke(m, ops, old(stack.State()), name, args, fuel), r, stack.State())
    {
      var pushed := Handlers.PushAll(stack, args);
      if pushed.Panic? {
        return Panic(pushed.reason);
      }
      if name !in m.exports {
        return Panic(NoneUnwrap);
      }
      var called := Call(m, ops, m.exports[name].index, fuel);
      if called.Panic? {
        return Panic(called.reason);
      }
      r := stack.PopValue();
    }
  }
}
