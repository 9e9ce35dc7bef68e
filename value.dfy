/** src/module/value.rs: value types and the `Value` descriptor of a
    type's width.  Unlike src/module/number.rs, an unknown byte panics. */
module ValueTypes {
  import opened Bytes
  import opened Outcomes

  datatype ValueType = Int32 | Int64 | Float32 | Float64

  /** The standard's byte for each value type (section 5.3.1 of the
      WebAssembly Core Specification 1.0). */
  function Code(t: ValueType): (b: byte)
    ensures 0x7C <= b <= 0x7F
  {
    match t
    case Int32 => 0x7F
    case Int64 => 0x7E
    case Float32 => 0x7D
    case Float64 => 0x7C
  }

  /** `ValueType::from_byte`: either `Some` type or a panic, never
      `None`. */
  function FromByte(b: byte): (r: Result<Option<ValueType>>)
    ensures r.Ok? <==> 0x7C <= b <= 0x7F
    ensures r.Ok? ==> r.value.Some? && Code(r.value.value) == b
  {
    match b
    case 0x7F => Ok(Some(Int32))
    case 0x7E => Ok(Some(Int64))
    case 0x7D => Ok(Some(Float32))
    case 0x7C => Ok(Some(Float64))
    case _ => Panic("Invalid ValueType")
  }

  lemma FromByteRoundTrip(t: ValueType)
    ensures FromByte(Code(t)) == Ok(Some(t))
  {
  }

  datatype Value = Value(bits: byte, valueType: ValueType)

  function I32(): (v: Value)
    ensures v.bits == 32 && v.valueType == Int32
  {
    Value(32, Int32)
  }

  function I64(): (v: Value)
    ensures v.bits == 64 && v.valueType == Int64
  {
    Value(64, Int64)
  }

  function F32(): (v: Value)
    ensures v.bits == 32 && v.valueType == Float32
  {
    Value(32, Float32)
  }

  function F64(): (v: Value)
    ensures v.bits == 64 && v.valueType == Float64
  {
    Value(64, Float64)
  }
}
