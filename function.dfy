/** src/module/function.rs: a function of the older module format, with
    its bytecode, the labels of its blocks keyed by the position of their
    opcode, and its `inspect` strings. */
module Functions {
  import opened Bytes
  import opened Outcomes
  import opened NumberTypes
  import FunctionTypes
  import Numbers
  import opened Strings

  /** A label: the opcode that opened it (0x02 block, 0x03 loop, 0x04 if),
      the types of its results and the positions of its opcode and of its
      `end`. */
  datatype Block = Block(instruction: byte, arity: seq<NumberType>, startIdx: nat, endIdx: nat)

  datatype Function = Function(
    funcType: FunctionTypes.FunctionType,
    localVars: seq<NumberType>,
    bytecodes: seq<byte>,
    blocks: map<nat, Block>)

  /** `Function::new`: the index is ignored. */
  function New(funcType: FunctionTypes.FunctionType, index: Option<nat>): (f: Function)
    ensures f.funcType == funcType
    ensures f.localVars == [] && f.bytecodes == [] && f.blocks == map[]
  {
    Function(funcType, [], [], map[])
  }

  /** `Function::default()`. */
  function Default(): (f: Function)
    ensures f == New(FunctionTypes.Default(), None)
  {
    New(FunctionTypes.Default(), None)
  }

  /** The zero of a number type: integers hold 0, floats the bit pattern
      of +0.0. */
  function ZeroOf(t: NumberType): (n: Numbers.Number)
  {
    match t
    case Int32 => Numbers.Int32(0)
    case Int64 => Numbers.Int64(0)
    case Float32 => Numbers.Float32(0)
    case Float64 => Numbers.Float64(0)
  }

  /** The number type a run-time number has, if any. */
  function TypeOf(n: Numbers.Number): Option<NumberType>
  {
    match n
    case Int32(_) => Some(Int32)
    case Int64(_) => Some(Int64)
    case Float32(_) => Some(Float32)
    case Float64(_) => Some(Float64)
    case _ => None
  }

  predicate IsZero(n: Numbers.Number)
  {
    match n
    case Int32(v) => v == 0
    case Int64(v) => v == 0
    case Uint32(v) => v == 0
    case Uint64(v) => v == 0
    case Float32(b) => b == 0
    case Float64(b) => b == 0
  }

  /** `create_local_variables`: one zero per declared local, of that
      local's type, in order. */
  function CreateLocalVariables(f: Function): (r: seq<Numbers.Number>)
    ensures |r| == |f.localVars|
    ensures forall i :: 0 <= i < |r| ==> TypeOf(r[i]) == Some(f.localVars[i]) && IsZero(r[i])
  {
    seq(|f.localVars|, i requires 0 <= i < |f.localVars| => ZeroOf(f.localVars[i]))
  }

  function TypeNames(ts: seq<NumberType>): (r: seq<string>)
    ensures |r| == |ts|
    ensures forall i :: 0 <= i < |ts| ==> r[i] == TypeName(ts[i])
  {
    seq(|ts|, i requires 0 <= i < |ts| => TypeName(ts[i]))
  }

  /** `Function::inspect`. */
  function Inspect(f: Function): string
  {
    "#<Function func_type:" + FunctionTypes.Inspect(f.funcType)
      + " locals=[" + Join(TypeNames(f.localVars), ", ")
      + "] bytecodes=" + NatToString(|f.bytecodes|) + ">"
  }

  lemma CancelPrefix(p: string, x: string, y: string)
    requires p + x == p + y
    ensures x == y
  {
    assert x == (p + x)[|p|..];
    assert y == (p + y)[|p|..];
  }

  lemma CancelSuffix(x: string, y: string, q: string)
    requires x + q == y + q
    ensures x == y
  {
    assert |x| == |y|;
    assert x == (x + q)[..|x|];
    assert y == (y + q)[..|y|];
  }

  /** The string shows the length of the bytecode: two functions with the
      same signature and locals inspect alike only if their bytecodes are
      equally long. */
  lemma InspectShowsLength(f: Function, g: Function)
    requires f.funcType == g.funcType && f.localVars == g.localVars
    ensures Inspect(f) == Inspect(g) <==> |f.bytecodes| == |g.bytecodes|
  {
    var p := "#<Function func_type:" + FunctionTypes.Inspect(f.funcType)
      + " locals=[" + Join(TypeNames(f.localVars), ", ") + "] bytecodes=";
    assert Inspect(f) == p + (NatToString(|f.bytecodes|) + ">");
    assert Inspect(g) == p + (NatToString(|g.bytecodes|) + ">");
    if Inspect(f) == Inspect(g) {
      CancelPrefix(p, NatToString(|f.bytecodes|) + ">", NatToString(|g.bytecodes|) + ">");
      CancelSuffix(NatToString(|f.bytecodes|), NatToString(|g.bytecodes|), ">");
      NatToStringInjective(|f.bytecodes|, |g.bytecodes|);
    }
  }

  /** `Block::new`: without an end position the block ends where it
      starts. */
  function NewBlock(instruction: byte, arity: seq<NumberType>, startIdx: nat, endIdx: Option<nat>): (b: Block)
    ensures b.instruction == instruction && b.arity == arity && b.startIdx == startIdx
    ensures endIdx.None? ==> b.endIdx == startIdx
    ensures endIdx.Some? ==> b.endIdx == endIdx.value
  {
    Block(instruction, arity, startIdx, if endIdx.Some? then endIdx.value else startIdx)
  }

  /** `Block::inspect`; the arity is printed with `{:?}`. */
  function InspectBlock(b: Block): string
  {
    "#<Block arity=[" + Join(TypeNames(b.arity), ", ") + "] instruction=" + NatToString(b.instruction)
      + ", start_idx=" + NatToString(b.startIdx) + ", end_idx=" + NatToString(b.endIdx) + ">"
  }

  /** The end position is printed last, and it determines the end of the
      string. */
  lemma InspectBlockShowsEnd(b: Block, c: Block)
    requires b.(endIdx := 0) == c.(endIdx := 0)
    ensures InspectBlock(b) == InspectBlock(c) <==> b.endIdx == c.endIdx
  {
    var p := "#<Block arity=[" + Join(TypeNames(b.arity), ", ") + "] instruction=" + NatToString(b.instruction)
      + ", start_idx=" + NatToString(b.startIdx) + ", end_idx=";
    assert b.arity == c.arity && b.instruction == c.instruction && b.startIdx == c.startIdx;
    assert InspectBlock(b) == p + (NatToString(b.endIdx) + ">");
    assert InspectBlock(c) == p + (NatToString(c.endIdx) + ">");
    if InspectBlock(b) == InspectBlock(c) {
      CancelPrefix(p, NatToString(b.endIdx) + ">", NatToString(c.endIdx) + ">");
      CancelSuffix(NatToString(b.endIdx), NatToString(c.endIdx), ">");
      NatToStringInjective(b.endIdx, c.endIdx);
    }
  }
}
