/** src/instruction.rs: the opcodes of the WebAssembly 1.0 instruction set
    (section 5.4 of the WebAssembly Core Specification 1.0) as an enum whose
    discriminants are the opcode bytes, and `From<u8>`, which maps a byte to
    the variant with that discriminant and panics on every byte that is not
    an opcode.

    The 147 variants of the Rust enum are grouped here by the opcode family
    they belong to: a variant is a family constructor applied to an operator,
    `I32Add` is `I32Arith(Add)`, `F64Load` is `Memory(F64Load)`, `End` is
    `Control(End)`.  Within a family the opcodes are consecutive, in the
    order the operators are declared, from the family's first opcode. */
module Instructions {
  import opened Bytes
  import opened Outcomes

  /** Control and call operators: 0x00-0x05 and 0x0b-0x11. */
  datatype ControlOp = Unreachable | Nop | Block | Loop | If | Else | End | Br | BrIf | BrTable | Return | Call | CallIndirect

  /** Position of the operator in its family. */
  function ControlIndex(op: ControlOp): (k: nat)
    ensures k < 13
  {
    match op
    case Unreachable => 0
    case Nop => 1
    case Block => 2
    case Loop => 3
    case If => 4
    case Else => 5
    case End => 6
    case Br => 7
    case BrIf => 8
    case BrTable => 9
    case Return => 10
    case Call => 11
    case CallIndirect => 12
  }

  /** The operator at position `k` of its family. */
  function ControlAt(k: nat): (op: ControlOp)
    requires k < 13
    ensures ControlIndex(op) == k
  {
    match k
    case 0 => ControlOp.Unreachable
    case 1 => ControlOp.Nop
    case 2 => ControlOp.Block
    case 3 => ControlOp.Loop
    case 4 => ControlOp.If
    case 5 => ControlOp.Else
    case 6 => ControlOp.End
    case 7 => ControlOp.Br
    case 8 => ControlOp.BrIf
    case 9 => ControlOp.BrTable
    case 10 => ControlOp.Return
    case 11 => ControlOp.Call
    case _ => ControlOp.CallIndirect
  }

  lemma ControlAtIndex(op: ControlOp)
    ensures ControlAt(ControlIndex(op)) == op
  {
  }

  /** Parametric operators: 0x1a-0x1b. */
  datatype ParametricOp = Drop | Select

  /** Position of the operator in its family. */
  function ParametricIndex(op: ParametricOp): (k: nat)
    ensures k < 2
  {
    match op
    case Drop => 0
    case Select => 1
  }

  /** The operator at position `k` of its family. */
  function ParametricAt(k: nat): (op: ParametricOp)
    requires k < 2
    ensures ParametricIndex(op) == k
  {
    match k
    case 0 => ParametricOp.Drop
    case _ => ParametricOp.Select
  }

  lemma ParametricAtIndex(op: ParametricOp)
    ensures ParametricAt(ParametricIndex(op)) == op
  {
  }

  /** Variable access: 0x20-0x24. */
  datatype VariableOp = GetLocal | SetLocal | TeeLocal | GetGlobal | SetGlobal

  /** Position of the operator in its family. */
  function VariableIndex(op: VariableOp): (k: nat)
    ensures k < 5
  {
    match op
    case GetLocal => 0
    case SetLocal => 1
    case TeeLocal => 2
    case GetGlobal => 3
    case SetGlobal => 4
  }

  /** The operator at position `k` of its family. */
  function VariableAt(k: nat): (op: VariableOp)
    requires k < 5
    ensures VariableIndex(op) == k
  {
    match k
    case 0 => VariableOp.GetLocal
    case 1 => VariableOp.SetLocal
    case 2 => VariableOp.TeeLocal
    case 3 => VariableOp.GetGlobal
    case _ => VariableOp.SetGlobal
  }

  lemma VariableAtIndex(op: VariableOp)
    ensures VariableAt(VariableIndex(op)) == op
  {
  }

  /** Memory-related operators: 0x28-0x40. */
  datatype MemoryOp = I32Load | I64Load | F32Load | F64Load | I32Load8S | I32Load8U | I32Load16S | I32Load16U | I64Load8S | I64Load8U | I64Load16S | I64Load16U | I64Load32S | I64Load32U | I32Store | I64Store | F32Store | F64Store | I32Store8 | I32Store16 | I64Store8 | I64Store16 | I64Store32 | CurrentMemory | GrowMemory

  /** Position of the operator in its family. */
  function MemoryIndex(op: MemoryOp): (k: nat)
    ensures k < 25
  {
    match op
    case I32Load => 0
    case I64Load => 1
    case F32Load => 2
    case F64Load => 3
    case I32Load8S => 4
    case I32Load8U => 5
    case I32Load16S => 6
    case I32Load16U => 7
    case I64Load8S => 8
    case I64Load8U => 9
    case I64Load16S => 10
    case I64Load16U => 11
    case I64Load32S => 12
    case I64Load32U => 13
    case I32Store => 14
    case I64Store => 15
    case F32Store => 16
    case F64Store => 17
    case I32Store8 => 18
    case I32Store16 => 19
    case I64Store8 => 20
    case I64Store16 => 21
    case I64Store32 => 22
    case CurrentMemory => 23
    case GrowMemory => 24
  }

  /** The operator at position `k` of its family. */
  function MemoryAt(k: nat): (op: MemoryOp)
    requires k < 25
    ensures MemoryIndex(op) == k
  {
    match k
    case 0 => MemoryOp.I32Load
    case 1 => MemoryOp.I64Load
    case 2 => MemoryOp.F32Load
    case 3 => MemoryOp.F64Load
    case 4 => MemoryOp.I32Load8S
    case 5 => MemoryOp.I32Load8U
    case 6 => MemoryOp.I32Load16S
    case 7 => MemoryOp.I32Load16U
    case 8 => MemoryOp.I64Load8S
    case 9 => MemoryOp.I64Load8U
    case 10 => MemoryOp.I64Load16S
    case 11 => MemoryOp.I64Load16U
    case 12 => MemoryOp.I64Load32S
    case 13 => MemoryOp.I64Load32U
    case 14 => MemoryOp.I32Store
    case 15 => MemoryOp.I64Store
    case 16 => MemoryOp.F32Store
    case 17 => MemoryOp.F64Store
    case 18 => MemoryOp.I32Store8
    case 19 => MemoryOp.I32Store16
    case 20 => MemoryOp.I64Store8
    case 21 => MemoryOp.I64Store16
    case 22 => MemoryOp.I64Store32
    case 23 => MemoryOp.CurrentMemory
    case _ => MemoryOp.GrowMemory
  }

  lemma MemoryAtIndex(op: MemoryOp)
    ensures MemoryAt(MemoryIndex(op)) == op
  {
  }

  /** Constants: 0x41-0x44. */
  datatype ConstOp = I32Const | I64Const | F32Const | F64Const

  /** Position of the operator in its family. */
  function ConstIndex(op: ConstOp): (k: nat)
    ensures k < 4
  {
    match op
    case I32Const => 0
    case I64Const => 1
    case F32Const => 2
    case F64Const => 3
  }

  /** The operator at position `k` of its family. */
  function ConstAt(k: nat): (op: ConstOp)
    requires k < 4
    ensures ConstIndex(op) == k
  {
    match k
    case 0 => ConstOp.I32Const
    case 1 => ConstOp.I64Const
    case 2 => ConstOp.F32Const
    case _ => ConstOp.F64Const
  }

  lemma ConstAtIndex(op: ConstOp)
    ensures ConstAt(ConstIndex(op)) == op
  {
  }

  /** Integer comparisons; `i32` at 0x45-0x4f, `i64` at 0x50-0x5a. */
  datatype IntCompareOp = Eqz | Eq | Ne | LtS | LtU | GtS | GtU | LeS | LeU | GeS | GeU

  /** Position of the operator in its family. */
  function IntCompareIndex(op: IntCompareOp): (k: nat)
    ensures k < 11
  {
    match op
    case Eqz => 0
    case Eq => 1
    case Ne => 2
    case LtS => 3
    case LtU => 4
    case GtS => 5
    case GtU => 6
    case LeS => 7
    case LeU => 8
    case GeS => 9
    case GeU => 10
  }

  /** The operator at position `k` of its family. */
  function IntCompareAt(k: nat): (op: IntCompareOp)
    requires k < 11
    ensures IntCompareIndex(op) == k
  {
    match k
    case 0 => IntCompareOp.Eqz
    case 1 => IntCompareOp.Eq
    case 2 => IntCompareOp.Ne
    case 3 => IntCompareOp.LtS
    case 4 => IntCompareOp.LtU
    case 5 => IntCompareOp.GtS
    case 6 => IntCompareOp.GtU
    case 7 => IntCompareOp.LeS
    case 8 => IntCompareOp.LeU
    case 9 => IntCompareOp.GeS
    case _ => IntCompareOp.GeU
  }

  lemma IntCompareAtIndex(op: IntCompareOp)
    ensures IntCompareAt(IntCompareIndex(op)) == op
  {
  }

  /** Floating-point comparisons; `f32` at 0x5b-0x60, `f64` at 0x61-0x66. */
  datatype FloatCompareOp = Eq | Ne | Lt | Gt | Le | Ge

  /** Position of the operator in its family. */
  function FloatCompareIndex(op: FloatCompareOp): (k: nat)
    ensures k < 6
  {
    match op
    case Eq => 0
    case Ne => 1
    case Lt => 2
    case Gt => 3
    case Le => 4
    case Ge => 5
  }

  /** The operator at position `k` of its family. */
  function FloatCompareAt(k: nat): (op: FloatCompareOp)
    requires k < 6
    ensures FloatCompareIndex(op) == k
  {
    match k
    case 0 => FloatCompareOp.Eq
    case 1 => FloatCompareOp.Ne
    case 2 => FloatCompareOp.Lt
    case 3 => FloatCompareOp.Gt
    case 4 => FloatCompareOp.Le
    case _ => FloatCompareOp.Ge
  }

  lemma FloatCompareAtIndex(op: FloatCompareOp)
    ensures FloatCompareAt(FloatCompareIndex(op)) == op
  {
  }

  /** Integer numeric operators; `i32` at 0x67-0x78, `i64` at 0x79-0x8a. */
  datatype IntArithOp = Clz | Ctz | Popcnt | Add | Sub | Mul | DivS | DivU | RemS | RemU | And | Or | Xor | Shl | ShrS | ShrU | Rotl | Rotr

  /** Position of the operator in its family. */
  function IntArithIndex(op: IntArithOp): (k: nat)
    ensures k < 18
  {
    match op
    case Clz => 0
    case Ctz => 1
    case Popcnt => 2
    case Add => 3
    case Sub => 4
    case Mul => 5
    case DivS => 6
    case DivU => 7
    case RemS => 8
    case RemU => 9
    case And => 10
    case Or => 11
    case Xor => 12
    case Shl => 13
    case ShrS => 14
    case ShrU => 15
    case Rotl => 16
    case Rotr => 17
  }

  /** The operator at position `k` of its family. */
  function IntArithAt(k: nat): (op: IntArithOp)
    requires k < 18
    ensures IntArithIndex(op) == k
  {
    match k
    case 0 => IntArithOp.Clz
    case 1 => IntArithOp.Ctz
    case 2 => IntArithOp.Popcnt
    case 3 => IntArithOp.Add
    case 4 => IntArithOp.Sub
    case 5 => IntArithOp.Mul
    case 6 => IntArithOp.DivS
    case 7 => IntArithOp.DivU
    case 8 => IntArithOp.RemS
    case 9 => IntArithOp.RemU
    case 10 => IntArithOp.And
    case 11 => IntArithOp.Or
    case 12 => IntArithOp.Xor
    case 13 => IntArithOp.Shl
    case 14 => IntArithOp.ShrS
    case 15 => IntArithOp.ShrU
    case 16 => IntArithOp.Rotl
    case _ => IntArithOp.Rotr
  }

  lemma IntArithAtIndex(op: IntArithOp)
    ensures IntArithAt(IntArithIndex(op)) == op
  {
  }

  /** Floating-point numeric operators; `f32` at 0x8b-0x98, `f64` at 0x99-0xa6. */
  datatype FloatArithOp = Abs | Neg | Ceil | Floor | Trunc | Nearest | Sqrt | Add | Sub | Mul | Div | Min | Max | Copysign

  /** Position of the operator in its family. */
  function FloatArithIndex(op: FloatArithOp): (k: nat)
    ensures k < 14
  {
    match op
    case Abs => 0
    case Neg => 1
    case Ceil => 2
    case Floor => 3
    case Trunc => 4
    case Nearest => 5
    case Sqrt => 6
    case Add => 7
    case Sub => 8
    case Mul => 9
    case Div => 10
    case Min => 11
    case Max => 12
    case Copysign => 13
  }

  /** The operator at position `k` of its family. */
  function FloatArithAt(k: nat): (op: FloatArithOp)
    requires k < 14
    ensures FloatArithIndex(op) == k
  {
    match k
    case 0 => FloatArithOp.Abs
    case 1 => FloatArithOp.Neg
    case 2 => FloatArithOp.Ceil
    case 3 => FloatArithOp.Floor
    case 4 => FloatArithOp.Trunc
    case 5 => FloatArithOp.Nearest
    case 6 => FloatArithOp.Sqrt
    case 7 => FloatArithOp.Add
    case 8 => FloatArithOp.Sub
    case 9 => FloatArithOp.Mul
    case 10 => FloatArithOp.Div
    case 11 => FloatArithOp.Min
    case 12 => FloatArithOp.Max
    case _ => FloatArithOp.Copysign
  }

  lemma FloatArithAtIndex(op: FloatArithOp)
    ensures FloatArithAt(FloatArithIndex(op)) == op
  {
  }

  datatype Instruction =
      Control(opControl: ControlOp)
    | Parametric(opParametric: ParametricOp)
    | Variable(opVariable: VariableOp)
    | Memory(opMemory: MemoryOp)
    | Const(opConst: ConstOp)
    | I32Compare(opI32Compare: IntCompareOp)
    | I64Compare(opI64Compare: IntCompareOp)
    | F32Compare(opF32Compare: FloatCompareOp)
    | F64Compare(opF64Compare: FloatCompareOp)
    | I32Arith(opI32Arith: IntArithOp)
    | I64Arith(opI64Arith: IntArithOp)
    | F32Arith(opF32Arith: FloatArithOp)
    | F64Arith(opF64Arith: FloatArithOp)

  /** The opcode bytes: the bytes `From<u8>` maps to a variant. */
  predicate IsOpcode(b: byte)
  {
    b <= 0x05 || 0x0b <= b <= 0x11 || 0x1a <= b <= 0x1b || 0x20 <= b <= 0x24 || 0x28 <= b <= 0xa6
  }

  /** The enum discriminant, `instruction as u8`. */
  function Discriminant(i: Instruction): (b: byte)
    ensures IsOpcode(b)
  {
    match i
    case Control(op) => var k := ControlIndex(op); if k < 6 then k else k + 5
    case Parametric(op) => 0x1a + ParametricIndex(op)
    case Variable(op) => 0x20 + VariableIndex(op)
    case Memory(op) => 0x28 + MemoryIndex(op)
    case Const(op) => 0x41 + ConstIndex(op)
    case I32Compare(op) => 0x45 + IntCompareIndex(op)
    case I64Compare(op) => 0x50 + IntCompareIndex(op)
    case F32Compare(op) => 0x5b + FloatCompareIndex(op)
    case F64Compare(op) => 0x61 + FloatCompareIndex(op)
    case I32Arith(op) => 0x67 + IntArithIndex(op)
    case I64Arith(op) => 0x79 + IntArithIndex(op)
    case F32Arith(op) => 0x8b + FloatArithIndex(op)
    case F64Arith(op) => 0x99 + FloatArithIndex(op)
  }

  /** `Instruction::from(byte)`: the variant whose discriminant is `byte`;
      any other byte panics. */
  function FromByte(b: byte): Result<Instruction>
  {
    if b <= 0x05 then Ok(Control(ControlAt(b)))
    else if 0x0b <= b <= 0x11 then Ok(Control(ControlAt(b - 5)))
    else if 0x1a <= b <= 0x1b then Ok(Parametric(ParametricAt(b - 0x1a)))
    else if 0x20 <= b <= 0x24 then Ok(Variable(VariableAt(b - 0x20)))
    else if 0x28 <= b <= 0x40 then Ok(Memory(MemoryAt(b - 0x28)))
    else if 0x41 <= b <= 0x44 then Ok(Const(ConstAt(b - 0x41)))
    else if 0x45 <= b <= 0x4f then Ok(I32Compare(IntCompareAt(b - 0x45)))
    else if 0x50 <= b <= 0x5a then Ok(I64Compare(IntCompareAt(b - 0x50)))
    else if 0x5b <= b <= 0x60 then Ok(F32Compare(FloatCompareAt(b - 0x5b)))
    else if 0x61 <= b <= 0x66 then Ok(F64Compare(FloatCompareAt(b - 0x61)))
    else if 0x67 <= b <= 0x78 then Ok(I32Arith(IntArithAt(b - 0x67)))
    else if 0x79 <= b <= 0x8a then Ok(I64Arith(IntArithAt(b - 0x79)))
    else if 0x8b <= b <= 0x98 then Ok(F32Arith(FloatArithAt(b - 0x8b)))
    else if 0x99 <= b <= 0xa6 then Ok(F64Arith(FloatArithAt(b - 0x99)))
    else Panic("Invalid byte OpCode")
  }

  /** `From<u8>` inverts the discriminant: every variant comes back from its
      own opcode byte. */
  lemma FromDiscriminant(i: Instruction)
    ensures FromByte(Discriminant(i)) == Ok(i)
  {
    match i
    case Control(op) => ControlRoundTrip(op);
    case Parametric(op) => ParametricRoundTrip(op);
    case Variable(op) => VariableRoundTrip(op);
    case Memory(op) => MemoryRoundTrip(op);
    case Const(op) => ConstRoundTrip(op);
    case I32Compare(op) => I32CompareRoundTrip(op);
    case I64Compare(op) => I64CompareRoundTrip(op);
    case F32Compare(op) => F32CompareRoundTrip(op);
    case F64Compare(op) => F64CompareRoundTrip(op);
    case I32Arith(op) => I32ArithRoundTrip(op);
    case I64Arith(op) => I64ArithRoundTrip(op);
    case F32Arith(op) => F32ArithRoundTrip(op);
    case F64Arith(op) => F64ArithRoundTrip(op);
  }

  lemma ControlRoundTrip(op: ControlOp)
    ensures FromByte(Discriminant(Control(op))) == Ok(Control(op))
  {
    ControlAtIndex(op);
  }

  lemma ParametricRoundTrip(op: ParametricOp)
    ensures FromByte(Discriminant(Parametric(op))) == Ok(Parametric(op))
  {
    ParametricAtIndex(op);
  }

  lemma VariableRoundTrip(op: VariableOp)
    ensures FromByte(Discriminant(Variable(op))) == Ok(Variable(op))
  {
    VariableAtIndex(op);
  }

  lemma MemoryRoundTrip(op: MemoryOp)
    ensures FromByte(Discriminant(Memory(op))) == Ok(Memory(op))
  {
    MemoryAtIndex(op);
  }

  lemma ConstRoundTrip(op: ConstOp)
    ensures FromByte(Discriminant(Const(op))) == Ok(Const(op))
  {
    ConstAtIndex(op);
  }

  lemma I32CompareRoundTrip(op: IntCompareOp)
    ensures FromByte(Discriminant(I32Compare(op))) == Ok(I32Compare(op))
  {
    IntCompareAtIndex(op);
  }

  lemma I64CompareRoundTrip(op: IntCompareOp)
    ensures FromByte(Discriminant(I64Compare(op))) == Ok(I64Compare(op))
  {
    IntCompareAtIndex(op);
  }

  lemma F32CompareRoundTrip(op: FloatCompareOp)
    ensures FromByte(Discriminant(F32Compare(op))) == Ok(F32Compare(op))
  {
    FloatCompareAtIndex(op);
  }

  lemma F64CompareRoundTrip(op: FloatCompareOp)
    ensures FromByte(Discriminant(F64Compare(op))) == Ok(F64Compare(op))
  {
    FloatCompareAtIndex(op);
  }

  lemma I32ArithRoundTrip(op: IntArithOp)
    ensures FromByte(Discriminant(I32Arith(op))) == Ok(I32Arith(op))
  {
    IntArithAtIndex(op);
  }

  lemma I64ArithRoundTrip(op: IntArithOp)
    ensures FromByte(Discriminant(I64Arith(op))) == Ok(I64Arith(op))
  {
    IntArithAtIndex(op);
  }

  lemma F32ArithRoundTrip(op: FloatArithOp)
    ensures FromByte(Discriminant(F32Arith(op))) == Ok(F32Arith(op))
  {
    FloatArithAtIndex(op);
  }

  lemma F64ArithRoundTrip(op: FloatArithOp)
    ensures FromByte(Discriminant(F64Arith(op))) == Ok(F64Arith(op))
  {
    FloatArithAtIndex(op);
  }

  /** `From<u8>` succeeds exactly on the opcode bytes, and then returns the
      variant whose discriminant is that byte. */
  lemma FromByteSpec(b: byte)
    ensures FromByte(b).Ok? <==> IsOpcode(b)
    ensures FromByte(b).Ok? ==> Discriminant(FromByte(b).value) == b
  {
  }

  /** Distinct variants have distinct opcodes. */
  lemma DiscriminantInjective(i: Instruction, j: Instruction)
    ensures Discriminant(i) == Discriminant(j) ==> i == j
  {
    FromDiscriminant(i);
    FromDiscriminant(j);
  }

  /** Distinct opcode bytes decode to distinct variants. */
  lemma FromByteInjective(a: byte, b: byte)
    ensures FromByte(a).Ok? && FromByte(a) == FromByte(b) ==> a == b
  {
    FromByteSpec(a);
    FromByteSpec(b);
  }

  /** A few entries of the table of `From<u8>`, one per family border, and
      the two gaps of the opcode space. */
  lemma KnownOpcodes()
    ensures FromByte(0x00) == Ok(Control(Unreachable)) && FromByte(0x02) == Ok(Control(Block)) && FromByte(0x05) == Ok(Control(Else))
    ensures FromByte(0x0b) == Ok(Control(End)) && FromByte(0x11) == Ok(Control(CallIndirect))
    ensures FromByte(0x1b) == Ok(Parametric(Select)) && FromByte(0x24) == Ok(Variable(SetGlobal))
    ensures FromByte(0x40) == Ok(Memory(GrowMemory)) && FromByte(0x41) == Ok(Const(I32Const))
    ensures FromByte(0x45) == Ok(I32Compare(IntCompareOp.Eqz)) && FromByte(0x6a) == Ok(I32Arith(IntArithOp.Add))
    ensures FromByte(0x7c) == Ok(I64Arith(IntArithOp.Add)) && FromByte(0xa6) == Ok(F64Arith(FloatArithOp.Copysign))
    ensures FromByte(0x06).Panic? && FromByte(0x1c).Panic? && FromByte(0xa7).Panic?
  {
  }
}
