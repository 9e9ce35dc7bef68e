/** The shared opcode handlers of src/evaluator.rs and old/src/evaluator.rs,
    run on a `Stack` object and a frame value: each changes the stack in
    place and returns the new frame, and is proved to do what the function
    of `HandlerSpec` it names says.  The frame is a value because the
    evaluators work on a clone of the frame the stack holds. */
module Handlers {
  import opened Bytes
  import opened Outcomes
  import opened Numbers
  import Functions
  import Frames
  import UtilLeb
  import opened StackSpec
  import HandlerSpec
  import opened Stacks

  /** `read_u_leb128`. */
  method ReadULeb128(stack: Stack, f: Frames.Frame) returns (r: Result<(nat, Frames.Frame)>)
    ensures r == HandlerSpec.ReadU(f)
  {
    var bytes := stack.CurrentBytecodes(f);
    if bytes.Panic? {
      return Panic(bytes.reason);
    }
    var read := UtilLeb.ReadUnsignedLeb128(bytes.value);
    if read.Panic? {
      return Panic(read.reason);
    }
    return Ok((read.value.0, f.(counter := f.counter + read.value.1)));
  }

  /** `read_s_leb128`. */
  method ReadSLeb128(stack: Stack, f: Frames.Frame) returns (r: Result<(int, Frames.Frame)>)
    ensures r == HandlerSpec.ReadS(f)
  {
    var bytes := stack.CurrentBytecodes(f);
    if bytes.Panic? {
      return Panic(bytes.reason);
    }
    var read := UtilLeb.ReadSignedLeb128(bytes.value);
    if read.Panic? {
      return Panic(read.reason);
    }
    return Ok((read.value.0, f.(counter := f.counter + read.value.1)));
  }

  method OperateBlock(stack: Stack, f: Frames.Frame) returns (r: Result<Frames.Frame>)
    modifies stack
    ensures Agrees(HandlerSpec.Block(old(stack.State()), f), r, stack.State())
  {
    if f.counter == 0 {
      return Panic("attempt to subtract with overflow");
    }
    var start := f.counter - 1;
    if start !in f.func.blocks {
      return Panic("[operate_block] failed to get the Label");
    }
    var lbl := f.func.blocks[start];
    stack.PushLabel(lbl);
    return Ok(f.(counter := lbl.startIdx + 2));
  }

  method OperateIf(stack: Stack, f: Frames.Frame) returns (r: Result<Frames.Frame>)
    modifies stack
    ensures Agrees(HandlerSpec.If(old(stack.State()), f), r, stack.State())
  {
    var cond := stack.PopValue();
    if cond.Panic? {
      return Panic(cond.reason);
    }
    if cond.value.None? {
      return Panic("[0x04] no condition value for if");
    }
    if cond.value.value == Int32(0) {
      if f.counter == 0 {
        return Panic("attempt to subtract with overflow");
      }
      var start := f.counter - 1;
      if start !in f.func.blocks {
        return Panic("[operate_if] failed to get the Label");
      }
      return Ok(f.(counter := f.func.blocks[start].endIdx + 1));
    }
    r := OperateBlock(stack, f);
  }

  method OperateBr(stack: Stack, f: Frames.Frame) returns (r: Result<Frames.Frame>)
    modifies stack
    ensures Agrees(HandlerSpec.Br(old(stack.State()), f), r, stack.State())
  {
    var depth := ReadULeb128(stack, f);
    if depth.Panic? {
      return Panic(depth.reason);
    }
    var lbl := stack.GetLabel(depth.value.0);
    if lbl.Panic? {
      return Panic(lbl.reason);
    }
    var result: Option<Number> := None;
    if |lbl.value.arity| != 0 {
      var v := stack.PopValue();
      if v.Panic? {
        return Panic(v.reason);
      }
      if v.value.None? {
        return Panic("no value on the Stack for the arity");
      }
      result := v.value;
    }
    var p := stack.LabelPosition(depth.value.0);
    if p.Panic? {
      return Panic(p.reason);
    }
    var cut := stack.PopAllFromLabel(p.value);
    if cut.Panic? {
      return Panic(cut.reason);
    }
    var target := if lbl.value.instruction == 0x03 then lbl.value.startIdx else lbl.value.endIdx + 1;
    if result.Some? {
      var pushed := stack.PushValues(result.value);
      if pushed.Panic? {
        return Panic(pushed.reason);
      }
    }
    return Ok(depth.value.1.(counter := target));
  }

  method OperateBrIf(stack: Stack, f: Frames.Frame) returns (r: Result<Frames.Frame>)
    modifies stack
    ensures Agrees(HandlerSpec.BrIf(old(stack.State()), f), r, stack.State())
  {
    var cond := stack.PopValue();
    if cond.Panic? {
      return Panic(cond.reason);
    }
    if cond.value.None? {
      return Panic("[0x0d] no value on the Stack for the br_if condition");
    }
    if cond.value.value == Uint32(0) || cond.value.value == Int32(0) {
      var depth := ReadULeb128(stack, f);
      if depth.Panic? {
        return Panic(depth.reason);
      }
      return Ok(depth.value.1);
    }
    r := OperateBr(stack, f);
  }

  method OperateLocalGet(stack: Stack, f: Frames.Frame) returns (r: Result<Frames.Frame>)
    modifies stack
    ensures Agrees(HandlerSpec.LocalGet(old(stack.State()), f), r, stack.State())
  {
    var idx := ReadULeb128(stack, f);
    if idx.Panic? {
      return Panic(idx.reason);
    }
    var v := Frames.LocalVar(idx.value.1, idx.value.0);
    if v.Panic? {
      return Panic(v.reason);
    }
    var pushed := stack.PushValues(v.value);
    if pushed.Panic? {
      return Panic(pushed.reason);
    }
    return Ok(idx.value.1);
  }

  method OperateLocalSet(stack: Stack, f: Frames.Frame) returns (r: Result<Frames.Frame>)
    modifies stack
    ensures Agrees(HandlerSpec.LocalSet(old(stack.State()), f), r, stack.State())
  {
    var idx := ReadULeb128(stack, f);
    if idx.Panic? {
      return Panic(idx.reason);
    }
    var v := stack.PopValue();
    if v.Panic? {
      return Panic(v.reason);
    }
    if v.value.None? {
      return Panic("[0x21] no value on the Stack to set to the local var");
    }
    var frame := idx.value.1;
    if idx.value.0 >= |frame.localVars| {
      return Panic("index out of bounds");
    }
    return Ok(frame.(localVars := frame.localVars[idx.value.0 := v.value.value]));
  }

  method OperateLocalTee(stack: Stack, f: Frames.Frame) returns (r: Result<Frames.Frame>)
    ensures Agrees(HandlerSpec.LocalTee(stack.State(), f), r, stack.State())
  {
    var idx := ReadULeb128(stack, f);
    if idx.Panic? {
      return Panic(idx.reason);
    }
    var v := stack.Peek();
    if v.Panic? {
      return Panic(v.reason);
    }
    var frame := idx.value.1;
    if idx.value.0 >= |frame.localVars| {
      return Panic("index out of bounds");
    }
    return Ok(frame.(localVars := frame.localVars[idx.value.0 := v.value]));
  }

  method OperateI32Const(stack: Stack, f: Frames.Frame) returns (r: Result<Frames.Frame>)
    modifies stack
    ensures Agrees(HandlerSpec.I32Const(old(stack.State()), f), r, stack.State())
  {
    var v := ReadSLeb128(stack, f);
    if v.Panic? {
      return Panic(v.reason);
    }
    var pushed := stack.PushValues(Int32(HandlerSpec.AsI32(v.value.0)));
    if pushed.Panic? {
      return Panic(pushed.reason);
    }
    return Ok(v.value.1);
  }

  method OperateI64Const(stack: Stack, f: Frames.Frame) returns (r: Result<Frames.Frame>)
    modifies stack
    ensures Agrees(HandlerSpec.I64Const(old(stack.State()), f), r, stack.State())
  {
    var v := ReadSLeb128(stack, f);
    if v.Panic? {
      return Panic(v.reason);
    }
    var pushed := stack.PushValues(Int64(HandlerSpec.AsI64(v.value.0)));
    if pushed.Panic? {
      return Panic(pushed.reason);
    }
    return Ok(v.value.1);
  }

  method OperateF64Const(stack: Stack, f: Frames.Frame) returns (r: Result<Frames.Frame>)
    modifies stack
    ensures Agrees(HandlerSpec.F64Const(old(stack.State()), f), r, stack.State())
  {
    var v := ReadULeb128(stack, f);
    if v.Panic? {
      return Panic(v.reason);
    }
    var pushed := stack.PushValues(Float64(v.value.0 % TWO64));
    if pushed.Panic? {
      return Panic(pushed.reason);
    }
    return Ok(v.value.1);
  }

  /** The two pops of a numeric instruction: `(left, right)`. */
  method Operands(stack: Stack, firstMissing: string, secondMissing: string) returns (r: Result<(Number, Number)>)
    modifies stack
    ensures Agrees(
      match HandlerSpec.Operands(old(stack.State()), firstMissing, secondMissing)
      case Panic(m) => Panic(m)
      case Ok((l, rt, s)) => Ok(((l, rt), s)), r, stack.State())
  {
    var right := stack.PopValue();
    if right.Panic? {
      return Panic(right.reason);
    }
    if right.value.None? {
      return Panic(firstMissing);
    }
    var left := stack.PopValue();
    if left.Panic? {
      return Panic(left.reason);
    }
    if left.value.None? {
      return Panic(secondMissing);
    }
    return Ok((left.value.value, right.value.value));
  }

  /** Pushes the result of a numeric instruction and keeps the frame. */
  method PushResult(stack: Stack, f: Frames.Frame, n: Number) returns (r: Result<Frames.Frame>)
    modifies stack
    ensures Agrees(HandlerSpec.Push(old(stack.State()), f, n), r, stack.State())
  {
    var pushed := stack.PushValues(n);
    if pushed.Panic? {
      return Panic(pushed.reason);
    }
    return Ok(f);
  }

  method OperateI32Eq(stack: Stack, f: Frames.Frame) returns (r: Result<Frames.Frame>)
    modifies stack
    ensures Agrees(HandlerSpec.I32Eq(old(stack.State()), f), r, stack.State())
  {
    var o := Operands(stack, "[0x46] right value is not on the Stack", "[0x46] left value is not on the Stack");
    if o.Panic? {
      return Panic(o.reason);
    }
    var result := if o.value.0 == o.value.1 then Int32(1) else Int32(0);
    r := PushResult(stack, f, result);
  }

  method OperateI32GeU(stack: Stack, f: Frames.Frame, cmp: (Number, Number) -> bool) returns (r: Result<Frames.Frame>)
    modifies stack
    ensures Agrees(HandlerSpec.I32GeU(old(stack.State()), f, cmp), r, stack.State())
  {
    var o := Operands(stack, "[0x4f] right value is not on the Stack", "[0x4f] left value is not on the Stack");
    if o.Panic? {
      return Panic(o.reason);
    }
    var result := if cmp(o.value.0, o.value.1) then Int32(1) else Int32(0);
    r := PushResult(stack, f, result);
  }

  method OperateI32Add(stack: Stack, f: Frames.Frame, ops: NumberOps) returns (r: Result<Frames.Frame>)
    modifies stack
    ensures Agrees(HandlerSpec.I32Add(old(stack.State()), f, ops), r, stack.State())
  {
    var o := Operands(stack, "[0x6A] right value is not on the Stack", "[0x6A] left value is not on the Stack");
    if o.Panic? {
      return Panic(o.reason);
    }
    r := PushResult(stack, f, ops.add(o.value.0, o.value.1));
  }

  method OperateI32RemU(stack: Stack, f: Frames.Frame, ops: NumberOps) returns (r: Result<Frames.Frame>)
    modifies stack
    ensures Agrees(HandlerSpec.I32RemU(old(stack.State()), f, ops), r, stack.State())
  {
    var o := Operands(stack, "[0x70] right value is not on the Stack", "[0x70] left value is not on the Stack");
    if o.Panic? {
      return Panic(o.reason);
    }
    var result := ops.rem(o.value.0, o.value.1);
    if result.Panic? {
      return Panic(result.reason);
    }
    r := PushResult(stack, f, result.value);
  }

  method OperateI32Shl(stack: Stack, f: Frames.Frame, ops: NumberOps) returns (r: Result<Frames.Frame>)
    modifies stack
    ensures Agrees(HandlerSpec.I32Shl(old(stack.State()), f, ops), r, stack.State())
  {
    var o := Operands(stack, "[0x74] the shift amount is not on the Stack", "[0x74] the value to shift is not on the Stack");
    if o.Panic? {
      return Panic(o.reason);
    }
    r := PushResult(stack, f, ops.shl(o.value.0, o.value.1));
  }

  method OperateF32Add(stack: Stack, f: Frames.Frame, ops: NumberOps) returns (r: Result<Frames.Frame>)
    modifies stack
    ensures Agrees(HandlerSpec.F32Add(old(stack.State()), f, ops), r, stack.State())
  {
    var o := Operands(stack, "[0x92] left value is not on the Stack", "[0x92] right value is not on the Stack");
    if o.Panic? {
      return Panic(o.reason);
    }
    r := PushResult(stack, f, ops.add(o.value.0, o.value.1));
  }

  /** The arms of `execute` the two evaluators have in common. */
  method OperateShared(stack: Stack, f: Frames.Frame, ops: NumberOps, op: byte) returns (r: Result<Frames.Frame>)
    modifies stack
    ensures Agrees(HandlerSpec.Shared(old(stack.State()), f, ops, op), r, stack.State())
  {
    match op {
      case 0x02 => r := OperateBlock(stack, f);
      case 0x03 => r := OperateBlock(stack, f);
      case 0x04 => r := OperateIf(stack, f);
      case 0x05 => r := Ok(f);
      case 0x0c => r := OperateBr(stack, f);
      case 0x0d => r := OperateBrIf(stack, f);
      case 0x20 => r := OperateLocalGet(stack, f);
      case 0x21 => r := OperateLocalSet(stack, f);
      case 0x22 => r := OperateLocalTee(stack, f);
      case 0x40 => r := Panic("not yet implemented: ");
      case 0x41 => r := OperateI32Const(stack, f);
      case 0x42 => r := OperateI64Const(stack, f);
      case 0x44 => r := OperateF64Const(stack, f);
      case 0x46 => r := OperateI32Eq(stack, f);
      case 0x6A => r := OperateI32Add(stack, f, ops);
      case 0x70 => r := OperateI32RemU(stack, f, ops);
      case 0x74 => r := OperateI32Shl(stack, f, ops);
      case 0x92 => r := OperateF32Add(stack, f, ops);
      case _ => r := Panic(HandlerSpec.NotImplemented(op));
    }
  }

  /** What is still to be popped, after the numbers popped so far. */
  function Prepend(ns: seq<Number>, rest: Result<(seq<Number>, StackState)>): Result<(seq<Number>, StackState)>
  {
    match rest
    case Panic(m) => Panic(m)
    case Ok((more, s)) => Ok((ns + more, s))
  }

  lemma PrependTwice(ns: seq<Number>, v: Number, rest: Result<(seq<Number>, StackState)>)
    ensures Prepend(ns, Prepend([v], rest)) == Prepend(ns + [v], rest)
  {
    if rest.Ok? {
      assert ns + ([v] + rest.value.0) == (ns + [v]) + rest.value.0;
    }
  }

  lemma PrependNothing(rest: Result<(seq<Number>, StackState)>)
    ensures Prepend([], rest) == rest
  {
    if rest.Ok? {
      assert [] + rest.value.0 == rest.value.0;
    }
  }

  /** One pop of the loop: `m + 1` pops are one pop and `m` more. */
  lemma PopNumbersOnce(s: StackState, m: nat, signedOnly: bool, missing: string)
    requires PopValue(s).Ok? && PopValue(s).value.0.Some?
    requires !signedOnly || IsSigned(PopValue(s).value.0.value)
    ensures HandlerSpec.PopNumbers(s, m + 1, signedOnly, missing) ==
      Prepend([PopValue(s).value.0.value], HandlerSpec.PopNumbers(PopValue(s).value.1, m, signedOnly, missing))
  {
  }

  /** A loop of `n` pops: the arguments of `call` or the results in
      `call` of old/src/evaluator.rs, in the order popped. */
  method PopNumbers(stack: Stack, n: nat, signedOnly: bool, missing: string) returns (r: Result<seq<Number>>)
    modifies stack
    ensures Agrees(HandlerSpec.PopNumbers(old(stack.State()), n, signedOnly, missing), r, stack.State())
  {
    var ns: seq<Number> := [];
    ghost var todo: nat := n;
    PrependNothing(HandlerSpec.PopNumbers(stack.State(), n, signedOnly, missing));
    for i := 0 to n
      invariant todo == n - i
      invariant HandlerSpec.PopNumbers(old(stack.State()), n, signedOnly, missing) ==
        Prepend(ns, HandlerSpec.PopNumbers(stack.State(), todo, signedOnly, missing))
    {
      ghost var left: nat := todo - 1;
      ghost var before := stack.State();
      var v := stack.PopValue();
      if v.Panic? {
        return Panic(v.reason);
      }
      if v.value.None? {
        return Panic(missing);
      }
      if signedOnly && !IsSigned(v.value.value) {
        return Panic(Unreachable);
      }
      PopNumbersOnce(before, left, signedOnly, missing);
      PrependTwice(ns, v.value.value, HandlerSpec.PopNumbers(stack.State(), left, signedOnly, missing));
      ns := ns + [v.value.value];
      todo := left;
    }
    assert ns + [] == ns;
    return Ok(ns);
  }

  /** `get_args`, and the same loop inlined in `call` of src/evaluator.rs. */
  method GetArgs(stack: Stack, func: Functions.Function) returns (r: Result<seq<Number>>)
    modifies stack
    ensures Agrees(HandlerSpec.GetArgs(old(stack.State()), func), r, stack.State())
  {
    var popped := PopNumbers(stack, |func.funcType.parameters|, true, HandlerSpec.NoParameter);
    if popped.Panic? {
      return Panic(popped.reason);
    }
    return Ok(HandlerSpec.Reverse(popped.value));
  }

  /** The loop of `push_values` over a list of numbers. */
  method PushAll(stack: Stack, ns: seq<Number>) returns (r: Result<()>)
    modifies stack
    ensures Updates(HandlerSpec.PushAll(old(stack.State()), ns), r, stack.State())
  {
    for i := 0 to |ns|
      invariant HandlerSpec.PushAll(old(stack.State()), ns) == HandlerSpec.PushAll(stack.State(), ns[i..])
    {
      assert ns[i..][1..] == ns[i + 1..];
      var pushed := stack.PushValues(ns[i]);
      if pushed.Panic? {
        return Panic(pushed.reason);
      }
    }
    return Ok(());
  }
}
