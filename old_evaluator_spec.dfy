/** The evaluator of old/src/evaluator.rs, as functions from the stack to
    the stack.  `execute` reads opcodes from a frame until the body runs
    out or a `return` (0x0f) is met; `call` pops the arguments, runs a new
    frame, and moves the results from that frame back to its caller;
    `invoke` pushes the arguments, calls an export and pops its value.

    `execute` and `call` call each other and nothing bounds how often: a
    `fuel` count bounds the turns of `execute` and the depth of `call`,
    and when it runs out the run ends in `Panic(OutOfFuel)`. */
module OldEvaluatorSpec {
  import opened Bytes
  import opened Outcomes
  import opened Numbers
  import Functions
  import Frames
  import OldModule
  import opened StackSpec
  import opened HandlerSpec

  /** `operate_end` (0x0b): before the end of the body the innermost
      label is popped; at the end of the body nothing happens. */
  function End(s: StackState, f: Frames.Frame): Run
  {
    if f.counter != |f.func.bytecodes| then
      var s' :- PopLastLabel(s);
      Ok((f, s'))
    else Ok((f, s))
  }

  const GlobalMissing := "[0x23] no value on the Stack to set to the global var"

  /** `operate_global_get` (0x23): a copy of the global is pushed. */
  function GlobalGet(m: OldModule.Module, s: StackState, f: Frames.Frame): Run
  {
    var idx :- ReadU(f);
    if idx.0 < |m.globalVars| then
      var s' :- PushValues(s, m.globalVars[idx.0]);
      Ok((idx.1, s'))
    else Panic(GlobalMissing)
  }

  /** The arms of `execute` that do not call; `i32.ge_u` compares with
      `>=`. */
  function Handle(m: OldModule.Module, ops: NumberOps, s: StackState, f: Frames.Frame, op: byte): Run
  {
    match op
    case 0x0b => End(s, f)
    case 0x23 => GlobalGet(m, s, f)
    case 0x4f => I32GeU(s, f, ops.ge)
    case _ => Shared(s, f, ops, op)
  }

  /** The arms of `execute` that do not call, as a function value: the
      loop and `call` below take it as a parameter, and a run of this
      evaluator passes `Handlers(m, ops)`. */
  type Handler = (StackState, Frames.Frame, byte) -> Run

  function Handlers(m: OldModule.Module, ops: NumberOps): Handler
  {
    (s: StackState, f: Frames.Frame, op: byte) => Handle(m, ops, s, f, op)
  }

  /** One arm of `execute`, for every opcode but `return`.  `call` (0x10)
      reads the index, saves the running frame into the stack (the frame
      `execute` runs is a copy) and calls, then goes on with its copy. */
  function Arm(m: OldModule.Module, h: Handler, s: StackState, f: Frames.Frame, op: byte, fuel: nat): Run
    decreases fuel, 2
  {
    if op == 0x10 then
      var idx :- ReadU(f);
      var s1 :- UpdateCurrentFrame(s, idx.1);
      var s2 :- Call(m, h, s1, idx.0, fuel);
      Ok((idx.1, s2))
    else h(s, f, op)
  }

  /** One turn of the loop of `execute` and the turns after it: the loop
      leaves at the end of the body or at a `return`. */
  function Turn(m: OldModule.Module, h: Handler, s: StackState, f: Frames.Frame, fuel: nat): Result<StackState>
    decreases fuel, 3
  {
    var next := NextOpcode(f);
    if next.0.None? || next.0.value == 0x0f then Ok(s)
    else
      var run :- Arm(m, h, s, next.1, next.0.value, fuel);
      Execute(m, h, run.1, run.0, fuel)
  }

  /** `execute`: the state once the loop leaves. */
  function Execute(m: OldModule.Module, h: Handler, s: StackState, f: Frames.Frame, fuel: nat): Result<StackState>
    decreases fuel, 0
  {
    if fuel == 0 then Panic(OutOfFuel) else Turn(m, h, s, f, fuel - 1)
  }

  /** The first half of `call`: the function and its arguments are taken,
      a frame for them is pushed, and `current_frame().unwrap()` gives the
      frame to run. */
  function Enter(m: OldModule.Module, s: StackState, idx: nat): Result<(Frames.Frame, StackState)>
  {
    var func :- GetFunction(m.functions, idx);
    var args :- GetArgs(s, func);
    var s1 := PushFrame(args.1, Frames.New(func, args.0));
    var current :- CurrentFrame(s1);
    if current.None? then Panic(NoneUnwrap) else Ok((current.value, s1))
  }

  const NoResult := "[call] the function's return value does not exist"

  /** The second half of `call`: `n` results are popped, the frame is
      popped, and the results are pushed back in their first order. */
  function Leave(s: StackState, n: nat): Result<StackState>
  {
    var popped :- PopNumbers(s, n, false, NoResult);
    var s1 :- PopCurrentFrame(popped.1);
    PushAll(s1, Reverse(popped.0))
  }

  /** `call`. */
  function Call(m: OldModule.Module, h: Handler, s: StackState, idx: nat, fuel: nat): Result<StackState>
    decreases fuel, 1
  {
    var entered :- Enter(m, s, idx);
    var s1 :- Execute(m, h, entered.1, entered.0, fuel);
    Leave(s1, |entered.0.func.funcType.results|)
  }

  /** `invoke`: an export name that is not there panics at `unwrap`. */
  function Invoke(m: OldModule.Module, ops: NumberOps, s: StackState, name: string, args: seq<Number>, fuel: nat)
    : Result<(Option<Number>, StackState)>
  {
    var s1 :- PushAll(s, args);
    if name !in m.exports then Panic(NoneUnwrap)
    else
      var s2 :- Call(m, Handlers(m, ops), s1, m.exports[name].index, fuel);
      PopValue(s2)
  }

  // ---------------------------------------------------------------------
  // What the evaluator promises.
  // ---------------------------------------------------------------------

  /** Within the body `end` pops the innermost label, at its end it does
      nothing; it never pops a frame and never moves the counter. */
  lemma EndKeepsFrames(s: StackState, f: Frames.Frame)
    ensures End(s, f).Ok? ==> End(s, f).value.0 == f && End(s, f).value.1.framePositions == s.framePositions
    ensures f.counter == |f.func.bytecodes| ==> End(s, f) == Ok((f, s))
    ensures f.counter != |f.func.bytecodes| ==>
      (End(s, f).Ok? <==> PopLastLabel(s).Ok?) &&
      (End(s, f).Ok? ==> End(s, f).value.1 == PopLastLabel(s).value)
    ensures f.counter != |f.func.bytecodes| && End(s, f).Ok? ==>
      End(s, f).value.1.labelPositions == s.labelPositions[..|s.labelPositions| - 1]
  {
  }

  /** `global.get` pushes the stored form of the global and moves past its
      index; an index past the globals panics. */
  lemma GlobalGetPushes(m: OldModule.Module, s: StackState, f: Frames.Frame)
    requires ReadU(f).Ok?
    ensures var idx := ReadU(f).value;
      (idx.0 >= |m.globalVars| ==> GlobalGet(m, s, f) == Panic(GlobalMissing)) &&
      (idx.0 < |m.globalVars| && Stored(m.globalVars[idx.0]).Ok? ==>
        GlobalGet(m, s, f) == Ok((idx.1, s.(stack := s.stack + [NumberEntry(Stored(m.globalVars[idx.0]).value)]))))
  {
  }

  /** `return` (0x0f) ends `execute` and does nothing else. */
  lemma ReturnStops(m: OldModule.Module, h: Handler, s: StackState, f: Frames.Frame, fuel: nat)
    requires f.counter < |f.func.bytecodes| && f.func.bytecodes[f.counter] == 0x0f
    ensures Execute(m, h, s, f, fuel + 1) == Ok(s)
  {
  }

  /** `i32.ge_u` holds for equal operands here, whatever their value, when
      `>=` is reflexive. */
  lemma GeUIsNonStrict(m: OldModule.Module, ops: NumberOps, s: StackState, f: Frames.Frame)
    requires forall a :: ops.ge(a, a)
    requires Operands(s, "[0x4f] right value is not on the Stack", "[0x4f] left value is not on the Stack").Ok?
    requires var o := Operands(s, "[0x4f] right value is not on the Stack", "[0x4f] left value is not on the Stack").value;
      o.0 == o.1
    ensures var o := Operands(s, "[0x4f] right value is not on the Stack", "[0x4f] left value is not on the Stack").value;
      Handle(m, ops, s, f, 0x4f) == Ok((f, o.2.(stack := o.2.stack + [NumberEntry(Int32(1))])))
  {
  }

  // Calls.

  /** `call` enters the function at the index with the arguments `invoke`
      pushed, in their order, and with a frame on top of the stack that is
      otherwise as before the pushes. */
  lemma EnterWithArguments(m: OldModule.Module, s: StackState, idx: nat, args: seq<Number>)
    requires idx < |m.functions| && |m.functions[idx].funcType.parameters| == |args|
    requires forall k :: 0 <= k < |args| ==> Passes(args[k])
    ensures PushAll(s, args).Ok?
    ensures var f := Frames.New(m.functions[idx], args);
      Enter(m, PushAll(s, args).value, idx) == Ok((f, PushFrame(s, f)))
  {
    ArgumentsRoundTrip(s, args, m.functions[idx]);
    PushFrameThenPop(s, Frames.New(m.functions[idx], args));
  }

  /** Too few numbers on the stack for the parameters: `call` panics. */
  lemma EnterNeedsArguments(m: OldModule.Module, s: StackState, idx: nat)
    requires idx < |m.functions|
    requires !NumbersOnTop(s.stack, |m.functions[idx].funcType.parameters|, true)
    ensures Enter(m, s, idx).Panic?
  {
    PopNumbersSucceeds(s, |m.functions[idx].funcType.parameters|, true, NoParameter);
  }

  /** Numbers whose stored forms are the given entries are pushed as
      exactly those entries. */
  lemma PushAllRestacks(s: StackState, top: seq<Entry>, ns: seq<Number>)
    requires |ns| == |top|
    requires forall k :: 0 <= k < |top| ==> top[k].NumberEntry? && Stored(ns[k]) == Ok(top[k].num)
    ensures PushAll(s, ns) == Ok(s.(stack := s.stack + top))
  {
    PushAllAppends(s, ns);
    var t := PushAll(s, ns).value;
    forall j | |s.stack| <= j < |t.stack|
      ensures t.stack[j] == (s.stack + top)[j]
    {
      assert t.stack[|s.stack| + (j - |s.stack|)] == NumberEntry(Stored(ns[j - |s.stack|]).value);
    }
    assert t.stack == s.stack + top;
  }

  /** The end of `call`: with `n` numbers above the frame, the frame and
      everything above it go, and the `n` numbers come back on top in the
      order they had. */
  lemma LeaveKeepsResults(s: StackState, n: nat)
    requires NumbersOnTop(s.stack, n, false)
    requires forall j :: |s.stack| - n <= j < |s.stack| ==> Repushable(s.stack[j].num)
    requires |s.framePositions| > 0 && s.framePositions[|s.framePositions| - 1] <= |s.stack| - n
    ensures Leave(s, n) == Ok(StackState(
      s.stack[..s.framePositions[|s.framePositions| - 1]] + s.stack[|s.stack| - n..],
      s.framePositions[..|s.framePositions| - 1], s.labelPositions))
  {
    PopNumbersSucceeds(s, n, false, NoResult);
    PopNumbersTakesTop(s, n, false, NoResult);
    var popped := PopNumbers(s, n, false, NoResult).value;
    var p := s.framePositions[|s.framePositions| - 1];
    assert s.stack[..|s.stack| - n][..p] == s.stack[..p];
    var s1 := PopCurrentFrame(popped.1).value;
    assert s1 == StackState(s.stack[..p], s.framePositions[..|s.framePositions| - 1], s.labelPositions);
    var top := s.stack[|s.stack| - n..];
    var results := Reverse(popped.0);
    forall k | 0 <= k < |top|
      ensures top[k].NumberEntry? && Stored(results[k]) == Ok(top[k].num)
    {
      var j := |s.stack| - n + k;
      assert top[k] == s.stack[j];
      assert results[k] == popped.0[|s.stack| - 1 - j] == RestoredAsWritten(s.stack[j].num);
      assert Repushable(s.stack[j].num);
    }
    PushAllRestacks(s1, top, results);
  }

  /** With no results, `call` drops its frame and all above it. */
  lemma LeaveWithoutResults(s: StackState)
    requires |s.framePositions| > 0 && s.framePositions[|s.framePositions| - 1] <= |s.stack|
    ensures Leave(s, 0) == PopCurrentFrame(s)
  {
  }
}
