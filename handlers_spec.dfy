/** The opcode handlers that src/evaluator.rs and old/src/evaluator.rs
    share, as functions from the stack and the running frame to the new
    frame and stack (`Run`), or to the panic that ends the program.  The
    two files hold the same code for every handler here; where they
    differ (`end`, `return`, `call`, the `i32.ge_u` comparison and
    `global.get`) the evaluator's own module says so.

    The `Number` operators are not part of this model: the `+`, `%` and
    `<<` of a handler and the comparison of `i32.ge_u` come from a
    `NumberOps` value.  Equality of numbers is taken as equality of the
    variant and its payload, as a derived `PartialEq` gives it. */
module HandlerSpec {
  import opened Bytes
  import opened Outcomes
  import opened Numbers
  import Functions
  import Frames
  import LebSpec
  import Strings
  import opened StackSpec

  type Run = Result<(Frames.Frame, StackState)>

  /** The panic this model ends a run with when its fuel is used up; no
      panic of the source carries this message. */
  const OutOfFuel := "out of fuel"

  /** `value as i32` and `value as i64` of an `isize`: the low bits, read
      as two's complement. */
  function AsI32(v: int): i32
  {
    ToI32(v % TWO32)
  }

  function AsI64(v: int): i64
  {
    ToI64(v % TWO64)
  }

  // ---------------------------------------------------------------------
  // Immediates.
  // ---------------------------------------------------------------------

  /** `read_u_leb128`: the unsigned reader of src/util/leb.rs on the
      bytecode from the counter on; the counter moves past what it read. */
  function ReadU(f: Frames.Frame): Result<(nat, Frames.Frame)>
  {
    var bytes :- CurrentBytecodes(f);
    var read :- LebSpec.SliceUnsigned(bytes);
    Ok((read.0, f.(counter := f.counter + read.1)))
  }

  /** `read_s_leb128`: the same with the signed reader. */
  function ReadS(f: Frames.Frame): Result<(int, Frames.Frame)>
  {
    var bytes :- CurrentBytecodes(f);
    var read :- LebSpec.SliceSigned(bytes);
    Ok((read.0, f.(counter := f.counter + read.1)))
  }

  // ---------------------------------------------------------------------
  // Control.
  // ---------------------------------------------------------------------

  /** The label of the block whose opcode the counter has just passed. */
  function OpenedLabel(f: Frames.Frame, missing: string): Result<Functions.Block>
  {
    if f.counter == 0 then Panic("attempt to subtract with overflow")
    else if f.counter - 1 !in f.func.blocks then Panic(missing)
    else Ok(f.func.blocks[f.counter - 1])
  }

  /** `operate_block` (0x02 and 0x03): the counter skips the opcode and the
      block type, and the label is pushed. */
  function Block(s: StackState, f: Frames.Frame): Run
  {
    var lbl :- OpenedLabel(f, "[operate_block] failed to get the Label");
    Ok((f.(counter := lbl.startIdx + 2), PushLabel(s, lbl)))
  }

  /** `operate_if` (0x04). */
  function If(s: StackState, f: Frames.Frame): Run
  {
    var cond :- PopValue(s);
    if cond.0.None? then Panic("[0x04] no condition value for if")
    else if cond.0.value == Int32(0) then
      var lbl :- OpenedLabel(f, "[operate_if] failed to get the Label");
      Ok((f.(counter := lbl.endIdx + 1), cond.1))
    else Block(cond.1, f)
  }

  /** `operate_br` (0x0c). */
  function Br(s: StackState, f: Frames.Frame): Run
  {
    var depth :- ReadU(f);
    var lbl :- GetLabel(s, depth.0);
    var result :- if |lbl.arity| != 0 then PopValue(s) else Ok((None, s));
    if |lbl.arity| != 0 && result.0.None? then Panic("no value on the Stack for the arity")
    else
      var p :- LabelPosition(result.1, depth.0);
      var cut :- PopAllFromLabel(result.1, p);
      var target := if lbl.instruction == 0x03 then lbl.startIdx else lbl.endIdx + 1;
      var f' := depth.1.(counter := target);
      if result.0.Some? then
        var s' :- PushValues(cut, result.0.value);
        Ok((f', s'))
      else Ok((f', cut))
  }

  /** `operate_br_if` (0x0d). */
  function BrIf(s: StackState, f: Frames.Frame): Run
  {
    var cond :- PopValue(s);
    if cond.0.None? then Panic("[0x0d] no value on the Stack for the br_if condition")
    else if cond.0.value == Uint32(0) || cond.0.value == Int32(0) then
      var depth :- ReadU(f);
      Ok((depth.1, cond.1))
    else Br(cond.1, f)
  }

  // ---------------------------------------------------------------------
  // Variables and constants.
  // ---------------------------------------------------------------------

  /** `operate_local_get` (0x20). */
  function LocalGet(s: StackState, f: Frames.Frame): Run
  {
    var idx :- ReadU(f);
    var v :- Frames.LocalVar(idx.1, idx.0);
    var s' :- PushValues(s, v);
    Ok((idx.1, s'))
  }

  /** `operate_local_set` (0x21): the value is popped before the local is
      indexed. */
  function LocalSet(s: StackState, f: Frames.Frame): Run
  {
    var idx :- ReadU(f);
    var v :- PopValue(s);
    if v.0.None? then Panic("[0x21] no value on the Stack to set to the local var")
    else
      var f' :- Frames.SetLocalVar(idx.1, idx.0, v.0.value);
      Ok((f', v.1))
  }

  /** `operate_local_tee` (0x22). */
  function LocalTee(s: StackState, f: Frames.Frame): Run
  {
    var idx :- ReadU(f);
    var v :- Peek(s);
    var f' :- Frames.SetLocalVar(idx.1, idx.0, v);
    Ok((f', s))
  }

  /** `operate_i32_const` (0x41). */
  function I32Const(s: StackState, f: Frames.Frame): Run
  {
    var v :- ReadS(f);
    var s' :- PushValues(s, Int32(AsI32(v.0)));
    Ok((v.1, s'))
  }

  /** `operate_i64_const` (0x42). */
  function I64Const(s: StackState, f: Frames.Frame): Run
  {
    var v :- ReadS(f);
    var s' :- PushValues(s, Int64(AsI64(v.0)));
    Ok((v.1, s'))
  }

  /** `operate_f64_const` (0x44): the unsigned reading, as the bits of a
      float. */
  function F64Const(s: StackState, f: Frames.Frame): Run
  {
    var v :- ReadU(f);
    var s' :- PushValues(s, Float64(v.0 % TWO64));
    Ok((v.1, s'))
  }

  // ---------------------------------------------------------------------
  // Numeric instructions: the right operand is popped first.
  // ---------------------------------------------------------------------

  /** Two pops: the first gives the right operand, the second the left.
      The result is `(left, right, stack)`. */
  function Operands(s: StackState, firstMissing: string, secondMissing: string): Result<(Number, Number, StackState)>
  {
    var right :- PopValue(s);
    if right.0.None? then Panic(firstMissing)
    else
      var left :- PopValue(right.1);
      if left.0.None? then Panic(secondMissing)
      else Ok((left.0.value, right.0.value, left.1))
  }

  /** Pushes a result and keeps the frame. */
  function Push(s: StackState, f: Frames.Frame, n: Number): Run
  {
    var s' :- PushValues(s, n);
    Ok((f, s'))
  }

  /** `operate_i32_eq` (0x46). */
  function I32Eq(s: StackState, f: Frames.Frame): Run
  {
    var o :- Operands(s, "[0x46] right value is not on the Stack", "[0x46] left value is not on the Stack");
    Push(o.2, f, Int32(if o.0 == o.1 then 1 else 0))
  }

  /** `operate_i32_ge_u` (0x4f) with the comparison its file uses. */
  function I32GeU(s: StackState, f: Frames.Frame, cmp: (Number, Number) -> bool): Run
  {
    var o :- Operands(s, "[0x4f] right value is not on the Stack", "[0x4f] left value is not on the Stack");
    Push(o.2, f, Int32(if cmp(o.0, o.1) then 1 else 0))
  }

  /** `operate_i32_add` (0x6A). */
  function I32Add(s: StackState, f: Frames.Frame, ops: NumberOps): Run
  {
    var o :- Operands(s, "[0x6A] right value is not on the Stack", "[0x6A] left value is not on the Stack");
    Push(o.2, f, ops.add(o.0, o.1))
  }

  /** `operate_i32_rem_u` (0x70). */
  function I32RemU(s: StackState, f: Frames.Frame, ops: NumberOps): Run
  {
    var o :- Operands(s, "[0x70] right value is not on the Stack", "[0x70] left value is not on the Stack");
    var r :- ops.rem(o.0, o.1);
    Push(o.2, f, r)
  }

  /** `operate_i32_shl` (0x74): the shift amount is popped first. */
  function I32Shl(s: StackState, f: Frames.Frame, ops: NumberOps): Run
  {
    var o :- Operands(s, "[0x74] the shift amount is not on the Stack", "[0x74] the value to shift is not on the Stack");
    Push(o.2, f, ops.shl(o.0, o.1))
  }

  /** `operate_f32_add` (0x92); its messages name the operands the other
      way round. */
  function F32Add(s: StackState, f: Frames.Frame, ops: NumberOps): Run
  {
    var o :- Operands(s, "[0x92] left value is not on the Stack", "[0x92] right value is not on the Stack");
    Push(o.2, f, ops.add(o.0, o.1))
  }

  // ---------------------------------------------------------------------
  // Calls.
  // ---------------------------------------------------------------------

  /** `n` pops of numbers, in the order popped.  With `signedOnly` (the
      argument loop of `call`) an unsigned number reaches `unreachable!`. */
  function PopNumbers(s: StackState, n: nat, signedOnly: bool, missing: string): Result<(seq<Number>, StackState)>
    decreases n
  {
    if n == 0 then Ok(([], s))
    else
      var v :- PopValue(s);
      if v.0.None? then Panic(missing)
      else if signedOnly && !IsSigned(v.0.value) then Panic(Unreachable)
      else
        var more :- PopNumbers(v.1, n - 1, signedOnly, missing);
        Ok(([v.0.value] + more.0, more.1))
  }

  const NoParameter := "the function's parameter is not on the Stack"

  function Reverse<T>(xs: seq<T>): (r: seq<T>)
    ensures |r| == |xs|
    ensures forall i :: 0 <= i < |xs| ==> r[i] == xs[|xs| - 1 - i]
  {
    if |xs| == 0 then [] else Reverse(xs[1..]) + [xs[0]]
  }

  /** `get_args`, and the same loop inlined in `call` of src/evaluator.rs:
      one pop per parameter, reversed into push order. */
  function GetArgs(s: StackState, func: Functions.Function): Result<(seq<Number>, StackState)>
  {
    var popped :- PopNumbers(s, |func.funcType.parameters|, true, NoParameter);
    Ok((Reverse(popped.0), popped.1))
  }

  /** `push_values` of each number in turn. */
  function PushAll(s: StackState, ns: seq<Number>): Result<StackState>
    decreases |ns|
  {
    if |ns| == 0 then Ok(s)
    else
      var s' :- PushValues(s, ns[0]);
      PushAll(s', ns[1..])
  }

  /** `get_function`: the function at an index, or a panic. */
  function GetFunction(functions: seq<Functions.Function>, idx: nat): Result<Functions.Function>
  {
    if idx < |functions| then Ok(functions[idx]) else Panic("not found function index")
  }

  /** The message of `todo!` for an opcode `execute` has no arm for. */
  function NotImplemented(op: byte): string
  {
    "not yet implemented: #[execute] opcode: " + Strings.HexString(op)
  }

  /** The arms of `execute` the two evaluators have in common: every
      opcode but `end`, `br` to the caller (`return`), `call`,
      `i32.ge_u` and `global.get`, and the `todo!` for the rest. */
  function Shared(s: StackState, f: Frames.Frame, ops: NumberOps, op: byte): Run
  {
    match op
    case 0x02 => Block(s, f)
    case 0x03 => Block(s, f)
    case 0x04 => If(s, f)
    case 0x05 => Ok((f, s))
    case 0x0c => Br(s, f)
    case 0x0d => BrIf(s, f)
    case 0x20 => LocalGet(s, f)
    case 0x21 => LocalSet(s, f)
    case 0x22 => LocalTee(s, f)
    case 0x40 => Panic("not yet implemented: ")
    case 0x41 => I32Const(s, f)
    case 0x42 => I64Const(s, f)
    case 0x44 => F64Const(s, f)
    case 0x46 => I32Eq(s, f)
    case 0x6A => I32Add(s, f, ops)
    case 0x70 => I32RemU(s, f, ops)
    case 0x74 => I32Shl(s, f, ops)
    case 0x92 => F32Add(s, f, ops)
    case _ => Panic(NotImplemented(op))
  }

  // ---------------------------------------------------------------------
  // What the handlers promise.
  // ---------------------------------------------------------------------

  /** A block runs exactly when a label is recorded at its opcode; the
      counter then skips the opcode and the block type, and the label is
      the innermost one. */
  lemma BlockEntersLabel(s: StackState, f: Frames.Frame)
    ensures Block(s, f).Ok? <==> f.counter >= 1 && f.counter - 1 in f.func.blocks
    ensures Block(s, f).Ok? ==>
      var lbl := f.func.blocks[f.counter - 1];
      Block(s, f).value.0 == f.(counter := lbl.startIdx + 2) &&
      Block(s, f).value.1 == PushLabel(s, lbl) &&
      GetLabel(Block(s, f).value.1, 0) == Ok(lbl)
  {
    if Block(s, f).Ok? {
      PushLabelThenPop(s, f.func.blocks[f.counter - 1], 0);
    }
  }

  /** A false condition (`Int32(0)`) jumps past the `end` of the `if`
      without a label; any other number enters the block. */
  lemma IfOnZero(s: StackState, f: Frames.Frame)
    requires PopValue(s).Ok? && PopValue(s).value.0.Some?
    ensures var (cond, s') := PopValue(s).value;
      (cond.value == Int32(0) && f.counter >= 1 && f.counter - 1 in f.func.blocks ==>
        If(s, f) == Ok((f.(counter := f.func.blocks[f.counter - 1].endIdx + 1), s'))) &&
      (cond.value != Int32(0) ==> If(s, f) == Block(s', f))
  {
  }

  /** Where a branch goes: the start of a loop label (0x03) or past the
      `end` of any other label; the stack is cut to the label's position,
      and a label with results keeps the value that was on top. */
  lemma BrTargets(s: StackState, f: Frames.Frame)
    requires Br(s, f).Ok?
    ensures var depth := ReadU(f).value;
      var lbl := GetLabel(s, depth.0).value;
      var p := LabelPosition(s, depth.0).value;
      var (f', s') := Br(s, f).value;
      f'.counter == (if lbl.instruction == 0x03 then lbl.startIdx else lbl.endIdx + 1) &&
      f'.func == f.func && f'.localVars == f.localVars &&
      s'.framePositions == s.framePositions &&
      s'.labelPositions == s.labelPositions[..|s.labelPositions| - 1] &&
      (|lbl.arity| == 0 ==> s'.stack == s.stack[..p]) &&
      (|lbl.arity| != 0 ==>
        (p < |s.stack| &&
         s'.stack == s.stack[..p] + [NumberEntry(Stored(RestoredAsWritten(s.stack[|s.stack| - 1].num)).value)]))
  {
    var depth := ReadU(f).value;
    var lbl := GetLabel(s, depth.0).value;
    if |lbl.arity| != 0 {
      var popped := PopValue(s).value;
      assert popped.1.stack == s.stack[..|s.stack| - 1];
      var p := LabelPosition(s, depth.0).value;
      assert popped.1.stack[..p] == s.stack[..p];
    }
  }

  /** A zero condition (`Uint32(0)` or `Int32(0)`) only skips the depth
      immediate; any other number branches. */
  lemma BrIfOnZero(s: StackState, f: Frames.Frame)
    requires PopValue(s).Ok? && PopValue(s).value.0.Some? && ReadU(f).Ok?
    ensures var (cond, s') := PopValue(s).value;
      ((cond.value == Uint32(0) || cond.value == Int32(0)) ==> BrIf(s, f) == Ok((ReadU(f).value.1, s'))) &&
      (cond.value != Uint32(0) && cond.value != Int32(0) ==> BrIf(s, f) == Br(s', f))
  {
  }

  /** `local.set` pops the top into the local; `local.tee` copies the
      stored top into it and leaves the stack alone.  Both change only
      that local. */
  lemma LocalSetAndTee(s: StackState, f: Frames.Frame)
    ensures LocalSet(s, f).Ok? ==>
      var idx := ReadU(f).value;
      var (f', s') := LocalSet(s, f).value;
      s' == PopValue(s).value.1 && Some(f'.localVars[idx.0]) == PopValue(s).value.0 &&
      f'.counter == idx.1.counter &&
      forall j :: 0 <= j < |f.localVars| && j != idx.0 ==> f'.localVars[j] == f.localVars[j]
    ensures LocalTee(s, f).Ok? ==>
      var idx := ReadU(f).value;
      var (f', s') := LocalTee(s, f).value;
      s' == s && f'.localVars[idx.0] == Peek(s).value &&
      f'.counter == idx.1.counter &&
      forall j :: 0 <= j < |f.localVars| && j != idx.0 ==> f'.localVars[j] == f.localVars[j]
  {
  }

  /** `local.get` pushes a copy of the local and panics past the locals. */
  lemma LocalGetPushes(s: StackState, f: Frames.Frame)
    requires ReadU(f).Ok?
    ensures var idx := ReadU(f).value;
      (idx.0 >= |f.localVars| ==> LocalGet(s, f).Panic?) &&
      (idx.0 < |f.localVars| ==> LocalGet(s, f) == Push(s, idx.1, f.localVars[idx.0]))
  {
  }

  /** The two operands of a numeric instruction are the two numbers on
      top, the deeper one on the left. */
  lemma OperandsOrder(s: StackState, m1: string, m2: string)
    requires |s.stack| >= 2
    requires s.stack[|s.stack| - 1].NumberEntry? && s.stack[|s.stack| - 2].NumberEntry?
    ensures Operands(s, m1, m2) == Ok((RestoredAsWritten(s.stack[|s.stack| - 2].num), RestoredAsWritten(s.stack[|s.stack| - 1].num),
      s.(stack := s.stack[..|s.stack| - 2])))
  {
    assert s.stack[..|s.stack| - 1][..|s.stack| - 2] == s.stack[..|s.stack| - 2];
  }

  /** `i32.eq` pushes `Int32(1)` exactly when the operands are equal and
      `Int32(0)` otherwise; the comparison of `i32.ge_u` decides the same
      way. */
  lemma ComparisonsPush(s: StackState, f: Frames.Frame, cmp: (Number, Number) -> bool)
    requires |s.stack| >= 2
    requires s.stack[|s.stack| - 1].NumberEntry? && s.stack[|s.stack| - 2].NumberEntry?
    ensures var left := RestoredAsWritten(s.stack[|s.stack| - 2].num);
      var right := RestoredAsWritten(s.stack[|s.stack| - 1].num);
      var below := s.stack[..|s.stack| - 2];
      I32Eq(s, f) == Ok((f, s.(stack := below + [NumberEntry(Int32(if left == right then 1 else 0))]))) &&
      I32GeU(s, f, cmp) == Ok((f, s.(stack := below + [NumberEntry(Int32(if cmp(left, right) then 1 else 0))])))
  {
    OperandsOrder(s, "[0x46] right value is not on the Stack", "[0x46] left value is not on the Stack");
    OperandsOrder(s, "[0x4f] right value is not on the Stack", "[0x4f] left value is not on the Stack");
  }

  /** `add`, `rem_u` and `shl` put the deeper operand on the left. */
  lemma ArithmeticOrder(s: StackState, f: Frames.Frame, ops: NumberOps)
    requires |s.stack| >= 2
    requires s.stack[|s.stack| - 1].NumberEntry? && s.stack[|s.stack| - 2].NumberEntry?
    ensures var left := RestoredAsWritten(s.stack[|s.stack| - 2].num);
      var right := RestoredAsWritten(s.stack[|s.stack| - 1].num);
      var below := s.(stack := s.stack[..|s.stack| - 2]);
      I32Add(s, f, ops) == Push(below, f, ops.add(left, right)) &&
      I32Shl(s, f, ops) == Push(below, f, ops.shl(left, right)) &&
      (ops.rem(left, right).Ok? ==> I32RemU(s, f, ops) == Push(below, f, ops.rem(left, right).value)) &&
      (ops.rem(left, right).Panic? ==> I32RemU(s, f, ops) == Panic(ops.rem(left, right).reason))
  {
    OperandsOrder(s, "[0x6A] right value is not on the Stack", "[0x6A] left value is not on the Stack");
    OperandsOrder(s, "[0x70] right value is not on the Stack", "[0x70] left value is not on the Stack");
    OperandsOrder(s, "[0x74] the shift amount is not on the Stack", "[0x74] the value to shift is not on the Stack");
  }

  /** With fewer than two entries on the stack the operands of a numeric
      instruction are missing, and the instruction panics. */
  lemma ShortStackPanics(s: StackState, m1: string, m2: string)
    requires |s.stack| < 2
    ensures Operands(s, m1, m2).Panic?
  {
    if |s.stack| == 1 && s.stack[0].NumberEntry? {
      assert PopValue(s).value.1.stack == [];
    }
  }

  /** The top `n` entries are numbers, signed ones with `signedOnly`. */
  predicate NumbersOnTop(st: seq<Entry>, n: nat, signedOnly: bool)
  {
    n <= |st| &&
    forall j :: |st| - n <= j < |st| ==>
      st[j].NumberEntry? && (signedOnly ==> IsSigned(RestoredAsWritten(st[j].num)))
  }

  /** `n` pops of numbers succeed exactly when the top `n` entries are
      numbers (signed ones, with `signedOnly`). */
  lemma {:induction false} PopNumbersSucceeds(s: StackState, n: nat, signedOnly: bool, missing: string)
    ensures PopNumbers(s, n, signedOnly, missing).Ok? <==> NumbersOnTop(s.stack, n, signedOnly)
    decreases n
  {
    if n > 0 && |s.stack| > 0 && s.stack[|s.stack| - 1].NumberEntry? {
      var t := s.(stack := s.stack[..|s.stack| - 1]);
      PopNumbersSucceeds(t, n - 1, signedOnly, missing);
      assert forall j :: 0 <= j < |t.stack| ==> t.stack[j] == s.stack[j];
    }
  }

  /** Popped numbers come off the top, one per turn: the `k`-th popped is
      the `k`-th entry from the top, and the stack keeps what lies below. */
  lemma {:induction false} PopNumbersTakesTop(s: StackState, n: nat, signedOnly: bool, missing: string)
    requires PopNumbers(s, n, signedOnly, missing).Ok?
    ensures var (ns, s') := PopNumbers(s, n, signedOnly, missing).value;
      |ns| == n && n <= |s.stack| && s' == s.(stack := s.stack[..|s.stack| - n]) &&
      forall j :: |s.stack| - n <= j < |s.stack| ==>
        s.stack[j].NumberEntry? && ns[|s.stack| - 1 - j] == RestoredAsWritten(s.stack[j].num)
    decreases n
  {
    if n > 0 {
      var t := s.(stack := s.stack[..|s.stack| - 1]);
      PopNumbersTakesTop(t, n - 1, signedOnly, missing);
      assert t.stack[..|t.stack| - (n - 1)] == s.stack[..|s.stack| - n];
    }
  }

  /** Pushing numbers one by one appends their stored forms. */
  lemma {:induction false} PushAllAppends(s: StackState, ns: seq<Number>)
    ensures PushAll(s, ns).Ok? <==> forall k :: 0 <= k < |ns| ==> Stored(ns[k]).Ok?
    ensures PushAll(s, ns).Ok? ==>
      var s' := PushAll(s, ns).value;
      s'.framePositions == s.framePositions && s'.labelPositions == s.labelPositions &&
      |s'.stack| == |s.stack| + |ns| && s'.stack[..|s.stack|] == s.stack &&
      forall k :: 0 <= k < |ns| ==> s'.stack[|s.stack| + k] == NumberEntry(Stored(ns[k]).value)
    decreases |ns|
  {
    if |ns| > 0 && Stored(ns[0]).Ok? {
      var t := PushValues(s, ns[0]).value;
      PushAllAppends(t, ns[1..]);
      assert forall k :: 1 <= k < |ns| ==> ns[1..][k - 1] == ns[k];
      if PushAll(s, ns).Ok? {
        var s' := PushAll(s, ns).value;
        assert s'.stack[..|t.stack|][..|s.stack|] == s'.stack[..|s.stack|];
      }
    }
  }

  /** A number comes back from the stack as it went in: signed, and
      neither a negative `Int64` nor a negative `Int32` other than -1. */
  predicate Passes(n: Number)
  {
    IsSigned(n) && !(n.Int64? && n.l < 0) && !(n.Int32? && n.i < -1)
  }

  /** Numbers that pass through the stack unchanged lie on top, in their
      order, once pushed. */
  lemma PushedOnTop(s: StackState, args: seq<Number>)
    requires forall k :: 0 <= k < |args| ==> Passes(args[k])
    ensures PushAll(s, args).Ok?
    ensures var t := PushAll(s, args).value;
      NumbersOnTop(t.stack, |args|, true) && |t.stack| == |s.stack| + |args| &&
      t == s.(stack := t.stack) && t.stack[..|s.stack|] == s.stack &&
      forall k :: 0 <= k < |args| ==> RestoredAsWritten(t.stack[|s.stack| + k].num) == args[k]
  {
    forall k | 0 <= k < |args|
      ensures Stored(args[k]).Ok? && RestoredAsWritten(Stored(args[k]).value) == args[k]
    {
      StoredNumbers(args[k]);
    }
    PushAllAppends(s, args);
    var t := PushAll(s, args).value;
    forall j | |t.stack| - |args| <= j < |t.stack|
      ensures t.stack[j].NumberEntry? && IsSigned(RestoredAsWritten(t.stack[j].num))
    {
      var k := j - |s.stack|;
      assert t.stack[|s.stack| + k] == NumberEntry(Stored(args[k]).value);
    }
  }

  /** The arguments `invoke` pushes reach the called function in their
      order, when each passes through the stack unchanged. */
  lemma ArgumentsRoundTrip(s: StackState, args: seq<Number>, func: Functions.Function)
    requires |func.funcType.parameters| == |args|
    requires forall k :: 0 <= k < |args| ==> Passes(args[k])
    ensures PushAll(s, args).Ok?
    ensures GetArgs(PushAll(s, args).value, func) == Ok((args, s))
  {
    PushedOnTop(s, args);
    var t := PushAll(s, args).value;
    var n := |args|;
    PopNumbersSucceeds(t, n, true, NoParameter);
    PopNumbersTakesTop(t, n, true, NoParameter);
    var popped := PopNumbers(t, n, true, NoParameter).value;
    ReversedTop(t.stack, |s.stack|, args, popped.0);
    assert t.stack[..|t.stack| - n] == s.stack;
  }

  /** Numbers popped off the top of `st` above `base`, reversed, are the
      numbers that lie there, bottom first. */
  lemma ReversedTop(st: seq<Entry>, base: nat, args: seq<Number>, popped: seq<Number>)
    requires base + |args| == |st| && |popped| == |args|
    requires forall j :: base <= j < |st| ==> st[j].NumberEntry? && popped[|st| - 1 - j] == RestoredAsWritten(st[j].num)
    requires forall k :: 0 <= k < |args| ==> st[base + k].NumberEntry? && RestoredAsWritten(st[base + k].num) == args[k]
    ensures Reverse(popped) == args
  {
    forall k | 0 <= k < |args|
      ensures Reverse(popped)[k] == args[k]
    {
      assert popped[|st| - 1 - (base + k)] == RestoredAsWritten(st[base + k].num);
    }
  }

  /** A negative `Int32` argument other than -1 is stored unsigned, and
      the argument loop of `call` then reaches `unreachable!`. */
  lemma NegativeArgumentPanics(s: StackState, v: i32, func: Functions.Function)
    requires v < -1 && |func.funcType.parameters| == 1
    ensures PushValues(s, Int32(v)).Ok?
    ensures GetArgs(PushValues(s, Int32(v)).value, func) == Panic(Unreachable)
  {
    StoredNumbers(Int32(v));
  }
}
