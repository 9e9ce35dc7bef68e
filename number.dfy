/** src/module/number.rs: number types and the `Number` descriptor of a
    type's width.  `from_byte` never fails: an unknown byte is logged and
    read as `Int32` (the log line is left out). */
module NumberTypes {
  import opened Bytes
  import opened Outcomes

  datatype NumberType = Int32 | Int64 | Float32 | Float64

  /** The standard's byte for each number type (section 5.3.1 of the
      WebAssembly Core Specification 1.0). */
  function Code(t: NumberType): (b: byte)
    ensures 0x7C <= b <= 0x7F
  {
    match t
    case Int32 => 0x7F
    case Int64 => 0x7E
    case Float32 => 0x7D
    case Float64 => 0x7C
  }

  /** `NumberType::from_byte`. */
  function FromByte(b: byte): (r: Option<NumberType>)
    ensures r.Some?
    ensures 0x7C <= b <= 0x7F ==> Code(r.value) == b
    ensures !(0x7C <= b <= 0x7F) ==> r.value == Int32
  {
    match b
    case 0x7F => Some(Int32)
    case 0x7E => Some(Int64)
    case 0x7D => Some(Float32)
    case 0x7C => Some(Float64)
    case _ => Some(Int32)
  }

  lemma FromByteRoundTrip(t: NumberType)
    ensures FromByte(Code(t)) == Some(t)
  {
  }

  datatype Number = Number(bits: byte, numType: NumberType)

  /** The width of each number type. */
  function Width(t: NumberType): nat
  {
    match t
    case Int32 => 32
    case Int64 => 64
    case Float32 => 32
    case Float64 => 64
  }

  function I32(): (n: Number)
    ensures n.bits == 32 && n.numType == Int32
  {
    Number(32, Int32)
  }

  function I64(): (n: Number)
    ensures n.bits == 64 && n.numType == Int64
  {
    Number(64, Int64)
  }

  function F32(): (n: Number)
    ensures n.bits == 32 && n.numType == Float32
  {
    Number(32, Float32)
  }

  function F64(): (n: Number)
    ensures n.bits == 64 && n.numType == Float64
  {
    Number(64, Float64)
  }

  /** `NumberType::decode_type`: the `unwrap` of `from_byte` never panics,
      so decoding never fails, and the descriptor has the type `from_byte`
      reads and that type's width. */
  function DecodeType(b: byte): (r: Result<Number>)
    ensures r.Ok?
    ensures r.value.numType == FromByte(b).value
    ensures r.value.bits == Width(r.value.numType)
  {
    match FromByte(b).value
    case Int32 => Ok(I32())
    case Int64 => Ok(I64())
    case Float32 => Ok(F32())
    case Float64 => Ok(F64())
  }

  /** The `Debug` name of a number type. */
  function TypeName(t: NumberType): (s: string)
    ensures |s| > 0
  {
    match t
    case Int32 => "Int32"
    case Int64 => "Int64"
    case Float32 => "Float32"
    case Float64 => "Float64"
  }

  /** `Number::inspect`: the `Debug` name of the type. */
  function Inspect(n: Number): string
  {
    TypeName(n.numType)
  }

  /** Different types inspect differently. */
  lemma TypeNameInjective(s: NumberType, t: NumberType)
    ensures TypeName(s) == TypeName(t) ==> s == t
  {
  }
}
