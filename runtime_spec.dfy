/** The stack machine of src/runtime.rs, as functions: it runs the parsed
    instruction nodes of a function instance, with its own value stack and
    frame list and the counters `sp` and `frame_index` kept beside them.

    The entry shapes come from src/stack.rs (`StackEntry`, `Value` and
    `Number`, each of one variant but `Number`).  Floats stay opaque bit
    patterns, and the `+` of `Number`, which is not shown, is a parameter
    `add`. */
module RuntimeSpec {
  import opened Bytes
  import opened Outcomes
  import opened Nodes
  import opened Instances
  import StackSpec

  datatype RtNumber = I32(i: i32) | I64(l: i64) | F32(fbits: u32) | F64(dbits: u64)
  datatype Value = Num(n: RtNumber)
  datatype StackEntry = ValueEntry(v: Value)

  type Add = (RtNumber, RtNumber) -> RtNumber

  const IndexOutOfBounds := "index out of bounds"
  const Overflow := "attempt to subtract with overflow"
  const NoFrame := "No frame to pop"
  const NonFunction := "cannot run non-function export"
  const NotImplemented := "not yet implemented"

  // ---------------------------------------------------------------------
  // Frames.
  // ---------------------------------------------------------------------

  datatype Frame = Frame(func: FunctionInstance, locals: seq<Option<Value>>, basePointer: nat, ip: nat)

  /** One local per local entry of the code and per parameter. */
  function LocalCount(func: FunctionInstance): nat
  {
    |func.code.locals| + |func.functionType.params.valTypes|
  }

  /** The locals `Frame::new` starts with: the arguments in their order,
      then unset ones. */
  function Locals(args: seq<Value>, n: nat): seq<Option<Value>>
    requires |args| <= n
  {
    seq(n, i requires 0 <= i < n => if i < |args| then Some(args[i]) else None)
  }

  /** `Frame::new`: more arguments than locals panic at the first index
      past the locals. */
  function NewFrame(func: FunctionInstance, args: Option<seq<Value>>): Result<Frame>
  {
    var n := LocalCount(func);
    if args.None? then Ok(Frame(func, Locals([], n), 0, 0))
    else if |args.value| > n then Panic(IndexOutOfBounds)
    else Ok(Frame(func, Locals(args.value, n), 0, 0))
  }

  /** `next_instruction`: the node at `ip`, and `ip` moves on by one. */
  function NextInstruction(f: Frame): Result<(InstructionNode, Frame)>
  {
    if f.ip < |f.func.code.body| then Ok((f.func.code.body[f.ip], f.(ip := f.ip + 1)))
    else Panic(IndexOutOfBounds)
  }

  /** `get_local`. */
  function GetLocal(f: Frame, index: nat): Result<Option<Value>>
  {
    if index < |f.locals| then Ok(f.locals[index]) else Panic(IndexOutOfBounds)
  }

  /** `set_local`. */
  function SetLocal(f: Frame, index: nat, v: Value): Result<Frame>
  {
    if index < |f.locals| then Ok(f.(locals := f.locals[index := Some(v)])) else Panic(IndexOutOfBounds)
  }

  // ---------------------------------------------------------------------
  // The runtime's state and its helpers.
  // ---------------------------------------------------------------------

  datatype RtState = RtState(frames: seq<Frame>, frameIndex: nat, stack: seq<StackEntry>, sp: nat, depth: nat)

  /** `Runtime::default()`. */
  const Default := RtState([], 0, [], 0, 0)

  /** The counters count their lists. */
  predicate Counted(s: RtState)
  {
    s.sp == |s.stack| && s.frameIndex == |s.frames|
  }

  /** `push_frame`: `Frame::new`, then the push. */
  function PushFrame(s: RtState, func: FunctionInstance, args: Option<seq<Value>>): Result<RtState>
  {
    var f :- NewFrame(func, args);
    Ok(s.(frames := s.frames + [f], frameIndex := s.frameIndex + 1))
  }

  /** `pop_frame`: `frame_index` goes down first, so a zero index panics
      before the list is looked at. */
  function PopFrame(s: RtState): Result<(Frame, RtState)>
  {
    if s.frameIndex == 0 then Panic(Overflow)
    else if |s.frames| == 0 then Panic(NoFrame)
    else Ok((s.frames[|s.frames| - 1], s.(frames := s.frames[..|s.frames| - 1], frameIndex := s.frameIndex - 1)))
  }

  /** `current_frame`: a copy of the frame at `frame_index - 1`. */
  function CurrentFrame(s: RtState): Result<Frame>
  {
    if s.frameIndex == 0 then Panic(Overflow)
    else if s.frameIndex - 1 >= |s.frames| then Panic(IndexOutOfBounds)
    else Ok(s.frames[s.frameIndex - 1])
  }

  function StackPush(s: RtState, e: StackEntry): RtState
  {
    s.(stack := s.stack + [e], sp := s.sp + 1)
  }

  /** `stack_pop`: `sp` goes down first, then the entry is popped. */
  function StackPop(s: RtState): Result<(StackEntry, RtState)>
  {
    if s.sp == 0 then Panic(Overflow)
    else if |s.stack| == 0 then Panic(StackSpec.NoneUnwrap)
    else Ok((s.stack[|s.stack| - 1], s.(stack := s.stack[..|s.stack| - 1], sp := s.sp - 1)))
  }

  // ---------------------------------------------------------------------
  // Running.
  // ---------------------------------------------------------------------

  /** One arm of the `match` of `invoke`.  The arms that are `todo!()`, and
      the node kinds the runtime has no arm for, panic. */
  function Execute(instr: InstructionNode, f: Frame, s: RtState, add: Add): (r: Result<(Frame, RtState)>)
    ensures r.Ok? ==> r.value.0.func == f.func && r.value.0.ip == f.ip
    ensures r.Ok? ==> r.value.1.frames == s.frames && r.value.1.frameIndex == s.frameIndex
  {
    match instr
    case I32Const(v) => Ok((f, StackPush(s, ValueEntry(Num(I32(v))))))
    case End => Ok((f, s))
    case GetLocal(index) =>
      var v :- GetLocal(f, index);
      if v.None? then Panic(StackSpec.NoneUnwrap) else Ok((f, StackPush(s, ValueEntry(v.value))))
    case SetLocal(index) =>
      var popped :- StackPop(s);
      var f' :- SetLocal(f, index, popped.0.v);
      Ok((f', popped.1))
    case I32Add =>
      var a :- StackPop(s);
      var b :- StackPop(a.1);
      Ok((f, StackPush(b.1, ValueEntry(Num(add(a.0.v.n, b.0.v.n))))))
    case _ => Panic(NotImplemented)
  }

  /** The inner loop of `invoke`: the body of the frame from `ip` on. */
  function Body(f: Frame, s: RtState, add: Add): (r: Result<(Frame, RtState)>)
    ensures r.Ok? ==> r.value.1.frames == s.frames && r.value.1.frameIndex == s.frameIndex
    decreases |f.func.code.body| - f.ip
  {
    if f.ip >= |f.func.code.body| then Ok((f, s))
    else
      var next := NextInstruction(f).value;
      var run :- Execute(next.0, next.1, s, add);
      Body(run.0, run.1, add)
  }

  /** The outer loop of `invoke`: while a frame is counted, the running
      copy's body is run to its end and a frame is popped.  The copy is
      taken once, so after the first round its body is over and the later
      rounds only pop. */
  function Rounds(f: Frame, s: RtState, add: Add): (r: Result<RtState>)
    ensures r.Ok? ==> r.value.frameIndex == 0
    decreases s.frameIndex
  {
    if s.frameIndex == 0 then Ok(s)
    else
      var run :- Body(f, s, add);
      var popped :- PopFrame(run.1);
      Rounds(run.0, popped.1, add)
  }

  /** `invoke`: the export must name a function; its frame is pushed and
      run, and the value on top of the stack is returned (the program's
      `Option` is always `Some`). */
  function Invoke(inst: Instance, s: RtState, name: seq<byte>, args: Option<seq<Value>>, add: Add): Result<(RtNumber, RtState)>
  {
    if name !in inst.exportMap then Panic(StackSpec.NoneUnwrap)
    else
      var exported := inst.exportMap[name];
      if !exported.FunctionExport? then Panic(NonFunction)
      else if exported.index >= |inst.functions| then Panic(IndexOutOfBounds)
      else
        var s1 :- PushFrame(s, inst.functions[exported.index], args);
        var f :- CurrentFrame(s1);
        var s2 :- Rounds(f, s1, add);
        var top :- StackPop(s2);
        Ok((top.0.v.n, top.1))
  }

  // ---------------------------------------------------------------------
  // What the runtime promises.
  // ---------------------------------------------------------------------

  /** `Frame::new` has one local per local entry and parameter; the first
      ones are the arguments and the rest are unset; `ip` and
      `base_pointer` start at 0.  It panics exactly when there are more
      arguments than locals. */
  lemma NewFrameLocals(func: FunctionInstance, args: Option<seq<Value>>)
    ensures NewFrame(func, args).Ok? <==> args.None? || |args.value| <= LocalCount(func)
    ensures NewFrame(func, args).Panic? ==> NewFrame(func, args).reason == IndexOutOfBounds
    ensures NewFrame(func, args).Ok? ==>
      var f := NewFrame(func, args).value;
      f.func == func && f.ip == 0 && f.basePointer == 0 && |f.locals| == LocalCount(func) &&
      forall i :: 0 <= i < LocalCount(func) ==>
        GetLocal(f, i) == Ok(if args.Some? && i < |args.value| then Some(args.value[i]) else None)
  {
  }

  /** `next_instruction` gives the node at `ip` and moves `ip` on by one;
      past the body it panics. */
  lemma NextInstructionAdvances(f: Frame)
    ensures f.ip < |f.func.code.body| ==> NextInstruction(f) == Ok((f.func.code.body[f.ip], f.(ip := f.ip + 1)))
    ensures f.ip >= |f.func.code.body| ==> NextInstruction(f) == Panic(IndexOutOfBounds)
  {
  }

  /** A local that is set reads back as the value, and every other local
      stays as it was. */
  lemma LocalRoundTrip(f: Frame, index: nat, v: Value, other: nat)
    requires index < |f.locals|
    ensures SetLocal(f, index, v).Ok?
    ensures GetLocal(SetLocal(f, index, v).value, index) == Ok(Some(v))
    ensures other != index ==> GetLocal(SetLocal(f, index, v).value, other) == GetLocal(f, other)
    ensures |SetLocal(f, index, v).value.locals| == |f.locals|
  {
  }

  /** `stack_push` and `stack_pop` keep `sp` equal to the stack's length,
      the pop undoes the push, and the pop panics exactly on an empty
      stack. */
  lemma StackCountersKept(s: RtState, e: StackEntry)
    requires Counted(s)
    ensures Counted(StackPush(s, e)) && StackPop(StackPush(s, e)) == Ok((e, s))
    ensures StackPop(s).Ok? <==> |s.stack| > 0
    ensures StackPop(s).Ok? ==> Counted(StackPop(s).value.1)
  {
    assert (s.stack + [e])[..|s.stack|] == s.stack;
  }

  /** `push_frame` and `pop_frame` keep `frame_index` equal to the number
      of frames, the pushed frame is the current one, the pop undoes the
      push, and the pop panics exactly when no frame is left. */
  lemma FrameCountersKept(s: RtState, func: FunctionInstance, args: Option<seq<Value>>)
    requires Counted(s)
    ensures PushFrame(s, func, args).Ok? ==>
      Counted(PushFrame(s, func, args).value) &&
      CurrentFrame(PushFrame(s, func, args).value) == Ok(NewFrame(func, args).value) &&
      PopFrame(PushFrame(s, func, args).value) == Ok((NewFrame(func, args).value, s))
    ensures PopFrame(s).Ok? <==> |s.frames| > 0
    ensures PopFrame(s).Ok? ==> Counted(PopFrame(s).value.1)
  {
    if PushFrame(s, func, args).Ok? {
      var f := NewFrame(func, args).value;
      assert (s.frames + [f])[..|s.frames|] == s.frames;
    }
  }

  /** Every instruction that does not panic keeps the counters. */
  lemma ExecuteKeepsCounted(instr: InstructionNode, f: Frame, s: RtState, add: Add)
    requires Counted(s) && Execute(instr, f, s, add).Ok?
    ensures Counted(Execute(instr, f, s, add).value.1)
  {
  }

  lemma {:induction false} BodyKeepsCounted(f: Frame, s: RtState, add: Add)
    requires Counted(s) && Body(f, s, add).Ok?
    ensures Counted(Body(f, s, add).value.1)
    decreases |f.func.code.body| - f.ip
  {
    if f.ip < |f.func.code.body| {
      var next := NextInstruction(f).value;
      ExecuteKeepsCounted(next.0, next.1, s, add);
      var run := Execute(next.0, next.1, s, add).value;
      BodyKeepsCounted(run.0, run.1, add);
    }
  }

  /** The loops of `invoke` end with every frame popped and the counters
      kept. */
  lemma {:induction false} RoundsPopAll(f: Frame, s: RtState, add: Add)
    requires Counted(s) && Rounds(f, s, add).Ok?
    ensures Counted(Rounds(f, s, add).value) && Rounds(f, s, add).value.frames == []
    decreases s.frameIndex
  {
    if s.frameIndex > 0 {
      BodyKeepsCounted(f, s, add);
      var run := Body(f, s, add).value;
      FrameCountersKept(run.1, f.func, None);
      RoundsPopAll(run.0, PopFrame(run.1).value.1, add);
    }
  }

  /** `i32.const` pushes its value; `end` does nothing. */
  lemma ConstAndEnd(v: i32, f: Frame, s: RtState, add: Add)
    ensures Execute(I32Const(v), f, s, add) == Ok((f, s.(stack := s.stack + [ValueEntry(Num(I32(v)))], sp := s.sp + 1)))
    ensures Execute(End, f, s, add) == Ok((f, s))
  {
  }

  /** `local.get` pushes the local and panics on an unset one; `local.set`
      pops the top into the local. */
  lemma LocalInstructions(index: u32, f: Frame, s: RtState, add: Add)
    requires index < |f.locals| && Counted(s)
    ensures f.locals[index].None? ==> Execute(InstructionNode.GetLocal(index), f, s, add) == Panic(StackSpec.NoneUnwrap)
    ensures f.locals[index].Some? ==>
      Execute(InstructionNode.GetLocal(index), f, s, add) == Ok((f, StackPush(s, ValueEntry(f.locals[index].value))))
    ensures |s.stack| == 0 ==> Execute(InstructionNode.SetLocal(index), f, s, add) == Panic(Overflow)
    ensures |s.stack| > 0 ==>
      Execute(InstructionNode.SetLocal(index), f, s, add) ==
        Ok((f.(locals := f.locals[index := Some(s.stack[|s.stack| - 1].v)]),
            s.(stack := s.stack[..|s.stack| - 1], sp := s.sp - 1)))
  {
  }

  /** `i32.add` pops the top, then the entry under it, and pushes `top +
      under`; with fewer than two entries it panics. */
  lemma AddOrder(f: Frame, s: RtState, add: Add)
    requires Counted(s)
    ensures |s.stack| < 2 ==> Execute(I32Add, f, s, add).Panic?
    ensures |s.stack| >= 2 ==>
      var top := s.stack[|s.stack| - 1].v.n;
      var under := s.stack[|s.stack| - 2].v.n;
      Execute(I32Add, f, s, add) ==
        Ok((f, s.(stack := s.stack[..|s.stack| - 2] + [ValueEntry(Num(add(top, under)))], sp := s.sp - 1)))
  {
    if |s.stack| >= 2 {
      assert s.stack[..|s.stack| - 1][..|s.stack| - 2] == s.stack[..|s.stack| - 2];
    }
  }

  /** The arms that are `todo!()`. */
  lemma TodoArmsPanic(instr: InstructionNode, f: Frame, s: RtState, add: Add)
    requires instr.Block? || instr.Loop? || instr.If? || instr.Else? || instr.Br? || instr.BrIf? ||
      instr.Call? || instr.I32Sub? || instr.I32GeS?
    ensures Execute(instr, f, s, add) == Panic(NotImplemented)
  {
  }

  /** `invoke` of a name that is not exported panics at `unwrap`, and of an
      export that is not a function panics as such. */
  lemma InvokeNeedsFunctionExport(inst: Instance, s: RtState, name: seq<byte>, args: Option<seq<Value>>, add: Add)
    ensures name !in inst.exportMap ==> Invoke(inst, s, name, args, add) == Panic(StackSpec.NoneUnwrap)
    ensures name in inst.exportMap && !inst.exportMap[name].FunctionExport? ==>
      Invoke(inst, s, name, args, add) == Panic(NonFunction)
  {
  }

  /** From a state whose counters count, a successful `invoke` returns a
      state whose counters still count and whose frames are all popped. */
  lemma InvokeKeepsCounted(inst: Instance, s: RtState, name: seq<byte>, args: Option<seq<Value>>, add: Add)
    requires Counted(s) && Invoke(inst, s, name, args, add).Ok?
    ensures Counted(Invoke(inst, s, name, args, add).value.1)
    ensures Invoke(inst, s, name, args, add).value.1.frames == []
  {
    var exported := inst.exportMap[name];
    var s1 := PushFrame(s, inst.functions[exported.index], args).value;
    FrameCountersKept(s, inst.functions[exported.index], args);
    var f := CurrentFrame(s1).value;
    RoundsPopAll(f, s1, add);
    StackCountersKept(Rounds(f, s1, add).value, ValueEntry(Num(I32(0))));
  }

  /** The body of the example below. */
  const AddBody := [I32Const(1), I32Const(2), I32Add, End]

  /** One turn of the inner loop: the instruction at `ip` is run with
      `ip` already advanced. */
  lemma BodyStep(f: Frame, s: RtState, add: Add, f': Frame, s': RtState)
    requires f.ip < |f.func.code.body|
    requires Execute(f.func.code.body[f.ip], f.(ip := f.ip + 1), s, add) == Ok((f', s'))
    ensures Body(f, s, add) == Body(f', s', add)
  {
  }

  /** The last turn of `AddBody`: `end`, and the loop stops. */
  lemma AddBodyEnd(f: Frame, s: RtState, add: Add)
    requires f.func.code.body == AddBody && f.ip == 3
    ensures Body(f, s, add) == Ok((f.(ip := 4), s))
  {
    ConstAndEnd(1, f.(ip := 4), s, add);
    BodyStep(f, s, add, f.(ip := 4), s);
  }

  /** The last two turns of `AddBody`: `i32.add; end` on `[1, 2]`. */
  lemma AddBodyAdd(f: Frame, s: RtState, add: Add)
    requires f.func.code.body == AddBody && f.ip == 2
    requires Counted(s) && s.stack == [ValueEntry(Num(I32(1))), ValueEntry(Num(I32(2)))]
    ensures Body(f, s, add) == Ok((f.(ip := 4), s.(stack := [ValueEntry(Num(add(I32(2), I32(1))))], sp := 1)))
  {
    var sum := ValueEntry(Num(add(I32(2), I32(1))));
    var sSum := s.(stack := [sum], sp := 1);
    AddOrder(f.(ip := 3), s, add);
    assert s.stack[..0] + [sum] == [sum];
    BodyStep(f, s, add, f.(ip := 3), sSum);
    AddBodyEnd(f.(ip := 3), sSum, add);
  }

  /** The last three turns of `AddBody`, on `[1]`. */
  lemma AddBodySecond(f: Frame, s: RtState, add: Add)
    requires f.func.code.body == AddBody && f.ip == 1
    requires Counted(s) && s.stack == [ValueEntry(Num(I32(1)))]
    ensures Body(f, s, add) == Ok((f.(ip := 4), s.(stack := [ValueEntry(Num(add(I32(2), I32(1))))], sp := 1)))
  {
    var two := ValueEntry(Num(I32(2)));
    var sTwo := s.(stack := s.stack + [two], sp := 2);
    ConstAndEnd(2, f.(ip := 2), s, add);
    BodyStep(f, s, add, f.(ip := 2), sTwo);
    AddBodyAdd(f.(ip := 2), sTwo, add);
  }

  /** `AddBody` leaves `2 + 1` alone on an empty stack. */
  lemma AddBodyRuns(f: Frame, s: RtState, add: Add)
    requires f.func.code.body == AddBody && f.ip == 0
    requires Counted(s) && s.stack == []
    ensures Body(f, s, add) == Ok((f.(ip := 4), s.(stack := [ValueEntry(Num(add(I32(2), I32(1))))], sp := 1)))
  {
    var one := ValueEntry(Num(I32(1)));
    var sOne := s.(stack := s.stack + [one], sp := 1);
    ConstAndEnd(1, f.(ip := 1), s, add);
    BodyStep(f, s, add, f.(ip := 1), sOne);
    AddBodySecond(f.(ip := 1), sOne, add);
  }

  /** The frame loop of `invoke` on a lone frame running `AddBody`: one
      round runs the body and pops the frame. */
  lemma AddRounds(f: Frame, s: RtState, add: Add)
    requires f.func.code.body == AddBody && f.ip == 0
    requires s == RtState([f], 1, [], 0, 0)
    ensures Rounds(f, s, add) == Ok(Default.(stack := [ValueEntry(Num(add(I32(2), I32(1))))], sp := 1))
  {
    var sum := ValueEntry(Num(add(I32(2), I32(1))));
    AddBodyRuns(f, s, add);
    var s2 := s.(stack := [sum], sp := 1);
    assert PopFrame(s2) == Ok((f, Default.(stack := [sum], sp := 1)));
  }

  /** A function whose body is `i32.const 1; i32.const 2; i32.add; end`
      returns `2 + 1` and leaves the runtime as it found it. */
  lemma AddsTwoConstants(name: seq<byte>, add: Add)
    ensures var func := FunctionInstance(FunctionTypeNode(ResultTypeNode([]), ResultTypeNode([])), FunctionNode([], AddBody));
      var inst := Instance(map[name := FunctionExport(name, 0)], [func]);
      Invoke(inst, Default, name, None, add) == Ok((add(I32(2), I32(1)), Default))
  {
    var func := FunctionInstance(FunctionTypeNode(ResultTypeNode([]), ResultTypeNode([])), FunctionNode([], AddBody));
    var f := Frame(func, [], 0, 0);
    assert LocalCount(func) == 0;
    assert Locals([], 0) == [];
    assert NewFrame(func, None) == Ok(f);
    assert Default.frames + [f] == [f];
    assert PushFrame(Default, func, None) == Ok(RtState([f], 1, [], 0, 0));
    AddRounds(f, RtState([f], 1, [], 0, 0), add);
  }
}
