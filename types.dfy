/** src/types.rs: the value, vector, reference and block types of the
    binary format and their `From<u8>` conversions.  A byte outside a
    conversion's table reaches `unreachable!`, which panics. */
module Types {
  import opened Bytes
  import opened Outcomes

  datatype NumberType = I32 | I64 | F32 | F64

  /** The byte of a number type in section 5.3.1 of the WebAssembly Core
      Specification 1.0. */
  function NumberTypeCode(t: NumberType): (b: byte)
    ensures 0x7C <= b <= 0x7F
  {
    match t
    case I32 => 0x7F
    case I64 => 0x7E
    case F32 => 0x7D
    case F64 => 0x7C
  }

  /** `NumberType::from`. */
  function NumberTypeFrom(b: byte): (r: Result<NumberType>)
    ensures r.Ok? <==> 0x7C <= b <= 0x7F
  {
    match b
    case 0x7F => Ok(I32)
    case 0x7E => Ok(I64)
    case 0x7D => Ok(F32)
    case 0x7C => Ok(F64)
    case _ => Panic("Invalid ValueType")
  }

  /** Every number type comes back from its own byte, and an accepted byte
      is the code of what it decodes to. */
  lemma NumberTypeRoundTrip(t: NumberType, b: byte)
    ensures NumberTypeFrom(NumberTypeCode(t)) == Ok(t)
    ensures NumberTypeFrom(b).Ok? ==> NumberTypeCode(NumberTypeFrom(b).value) == b
  {
  }

  lemma NumberTypeInjective(a: byte, b: byte)
    ensures NumberTypeFrom(a).Ok? && NumberTypeFrom(a) == NumberTypeFrom(b) ==> a == b
  {
    NumberTypeRoundTrip(I32, a);
    NumberTypeRoundTrip(I32, b);
  }

  datatype VectorType = V128

  /** `VectorType::from`: the code accepts 0x7F, the byte section 5.3.1
      gives to `i32`, not 0x7B. */
  function VectorTypeFrom(b: byte): (r: Result<VectorType>)
    ensures r.Ok? <==> b == 0x7F
  {
    if b == 0x7F then Ok(V128) else Panic("Invalid ValueType")
  }

  datatype ReferenceType = FunctionRef | ExternRef

  /** The byte of a reference type in section 5.3.3 of the WebAssembly Core
      Specification 2.0. */
  function ReferenceTypeCode(t: ReferenceType): (b: byte)
    ensures b == 0x6F || b == 0x70
  {
    match t
    case FunctionRef => 0x70
    case ExternRef => 0x6F
  }

  /** `ReferenceType::from`. */
  function ReferenceTypeFrom(b: byte): (r: Result<ReferenceType>)
    ensures r.Ok? <==> b == 0x6F || b == 0x70
  {
    match b
    case 0x70 => Ok(FunctionRef)
    case 0x6F => Ok(ExternRef)
    case _ => Panic("Invalid ReferenceType")
  }

  lemma ReferenceTypeRoundTrip(t: ReferenceType, b: byte)
    ensures ReferenceTypeFrom(ReferenceTypeCode(t)) == Ok(t)
    ensures ReferenceTypeFrom(b).Ok? ==> ReferenceTypeCode(ReferenceTypeFrom(b).value) == b
  {
  }

  /** `ValueType`, whose vector and reference alternatives are commented
      out in the source; src/parser.rs spells its one variant `Number`. */
  datatype ValueType = Number(numberType: NumberType)

  datatype BlockType = Empty | ValType(valueType: ValueType)

  /** The byte of a block type in section 5.4.1 of the WebAssembly Core
      Specification 1.0: 0x40 for the empty type, else the value type's. */
  function BlockTypeCode(t: BlockType): (b: byte)
    ensures b == 0x40 || 0x7C <= b <= 0x7F
  {
    match t
    case Empty => 0x40
    case ValType(Number(n)) => NumberTypeCode(n)
  }

  /** `BlockType::from`: only the empty type and `i32`; the other three
      value types are commented out of the table. */
  function BlockTypeFrom(b: byte): (r: Result<BlockType>)
    ensures r.Ok? <==> b == 0x40 || b == 0x7F
  {
    match b
    case 0x40 => Ok(Empty)
    case 0x7F => Ok(ValType(Number(I32)))
    case _ => Panic("invalid value in BlockType")
  }

  /** On the standard's block type codes `BlockType::from` is the inverse
      of the encoding for exactly the empty type and `i32`, and it panics
      on the codes of `i64`, `f32` and `f64`. */
  lemma BlockTypeRoundTrip(t: BlockType)
    ensures BlockTypeFrom(BlockTypeCode(t)).Ok? <==> t == Empty || t == ValType(Number(I32))
    ensures BlockTypeFrom(BlockTypeCode(t)).Ok? ==> BlockTypeFrom(BlockTypeCode(t)) == Ok(t)
  {
  }
}
