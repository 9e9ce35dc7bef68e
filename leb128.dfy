/** src/leb128.rs: the LEB128 decoders that drain a byte vector from the
    front, and the encoders that build a vector.

    The Rust decoders take `&mut Vec<u8>`; here the vector is passed in and
    what is left of it is returned as `rest`.  `value |= (b & 0x7F) << shift`
    is an addition, since the new group occupies bits the value has not used
    yet, truncated to 32 bits as the `u32` shift truncates it. */
module Leb128 {
  import opened Bytes
  import opened Outcomes
  import opened LebSpec

  /** A group is appended at bit `7 * count`, inside the 32-bit accumulator. */
  lemma AccumulateGroup(s: seq<byte>, count: nat)
    requires count < |s|
    ensures (Payload(s[..count]) % TWO32 + Low7(s[count]) * Pow2(7 * count)) % TWO32
         == Payload(s[..count + 1]) % TWO32
  {
    PayloadPrefix(s, count);
    ModAddLeft(Payload(s[..count]), Low7(s[count]) * Pow2(7 * count), TWO32);
  }

  /** Five continuation bits in a row put the terminator past the fifth byte. */
  lemma NoTerminatorInFive(s: seq<byte>)
    requires |s| >= 5 && forall j :: 0 <= j < 5 ==> More(s[j])
    ensures Terminator(s) >= 5
  {
  }

  /** `decode_unsigned_leb128`. */
  method DecodeUnsignedLeb128(bytes: seq<byte>) returns (r: Result<(u32, nat)>, rest: seq<byte>)
    ensures r == DrainUnsigned32(bytes)
    ensures r.Ok? ==> rest == bytes[r.value.1..]
  {
    var value: u32 := 0;
    var shift: nat := 0;
    var count: nat := 0;
    rest := bytes;
    while true
      invariant count <= 4 && count <= |bytes| && shift == 7 * count
      invariant rest == bytes[count..]
      invariant value == Payload(bytes[..count]) % TWO32
      invariant forall j :: 0 <= j < count ==> More(bytes[j])
      decreases |rest|
    {
      if |rest| == 0 {
        TerminatorAt(bytes, count);
        return Panic("index out of bounds"), rest;
      }
      var b := rest[0];
      rest := rest[1..];
      AccumulateGroup(bytes, count);
      value := (value + Low7(b) * Pow2(shift)) % TWO32;
      shift := shift + 7;
      count := count + 1;
      if !More(b) {
        TerminatorAt(bytes, count - 1);
        return Ok((value, count)), rest;
      }
      if shift > 32 {
        NoTerminatorInFive(bytes);
        return Panic("unsigned LEB128 overflow"), rest;
      }
    }
  }

  /** `decode_signed_leb128`.  `value` holds the 32-bit pattern the `i32`
      accumulator holds; the final shift by `shift - 1` is only defined for
      `shift - 1 < 32`. */
  method DecodeSignedLeb128(bytes: seq<byte>) returns (r: Result<(i32, nat)>, rest: seq<byte>)
    ensures r == DrainSigned32(bytes)
    ensures r.Ok? ==> rest == bytes[r.value.1..]
  {
    var value: u32 := 0;
    var shift: nat := 0;
    var count: nat := 0;
    rest := bytes;
    while true
      invariant count <= 4 && count <= |bytes| && shift == 7 * count
      invariant rest == bytes[count..]
      invariant value == Payload(bytes[..count]) % TWO32
      invariant forall j :: 0 <= j < count ==> More(bytes[j])
      decreases |rest|
    {
      if |rest| == 0 {
        DrainSignedEmpty(bytes, count);
        return Panic("index out of bounds"), rest;
      }
      var b := rest[0];
      rest := rest[1..];
      AccumulateGroup(bytes, count);
      value := (value + Low7(b) * Pow2(shift)) % TWO32;
      shift := shift + 7;
      count := count + 1;
      if !More(b) {
        break;
      }
      if shift > 32 {
        DrainSignedOverflow(bytes);
        return Panic("signed LEB128 overflow"), rest;
      }
    }
    TerminatorAt(bytes, count - 1);
    if shift - 1 >= 32 {
      DrainSignedFive(bytes);
      return Panic("attempt to shift right with overflow"), rest;
    }
    SignedTail(bytes, count, shift, value);
    if (value / Pow2(shift - 1)) % 2 == 1 {
      return Ok((value - Pow2(shift), count)), rest;
    }
    return Ok((value, count)), rest;
  }

  /** The corrected `decode_signed_leb128`: the same loop, with the sign
      extension skipped once five groups have filled the 32 bits. */
  method DecodeSignedLeb128Intended(bytes: seq<byte>) returns (r: Result<(i32, nat)>, rest: seq<byte>)
    ensures r == DrainSigned32Intended(bytes)
    ensures r.Ok? ==> rest == bytes[r.value.1..]
  {
    var value: u32 := 0;
    var shift: nat := 0;
    var count: nat := 0;
    rest := bytes;
    while true
      invariant count <= 4 && count <= |bytes| && shift == 7 * count
      invariant rest == bytes[count..]
      invariant value == Payload(bytes[..count]) % TWO32
      invariant forall j :: 0 <= j < count ==> More(bytes[j])
      decreases |rest|
    {
      if |rest| == 0 {
        DrainSignedEmpty(bytes, count);
        IntendedAgrees(bytes);
        return Panic("index out of bounds"), rest;
      }
      var b := rest[0];
      rest := rest[1..];
      AccumulateGroup(bytes, count);
      value := (value + Low7(b) * Pow2(shift)) % TWO32;
      shift := shift + 7;
      count := count + 1;
      if !More(b) {
        break;
      }
      if shift > 32 {
        DrainSignedOverflow(bytes);
        IntendedAgrees(bytes);
        return Panic("signed LEB128 overflow"), rest;
      }
    }
    TerminatorAt(bytes, count - 1);
    if shift - 1 >= 32 {
      DrainIntendedFive(bytes);
      return Ok((ToI32(value), count)), rest;
    }
    SignedTail(bytes, count, shift, value);
    IntendedAgrees(bytes);
    if (value / Pow2(shift - 1)) % 2 == 1 {
      return Ok((value - Pow2(shift), count)), rest;
    }
    return Ok((value, count)), rest;
  }

  /** The two decoders differ only on numbers of five bytes. */
  lemma IntendedAgrees(s: seq<byte>)
    ensures Terminator(s) != 4 ==> DrainSigned32Intended(s) == DrainSigned32(s)
  {
  }

  /** The three ways `DrainSigned32` panics, one lemma each. */
  lemma DrainSignedEmpty(s: seq<byte>, count: nat)
    requires count <= 4 && count == |s| && forall j :: 0 <= j < count ==> More(s[j])
    ensures DrainSigned32(s) == Panic("index out of bounds")
  {
    TerminatorAt(s, count);
  }

  lemma DrainSignedOverflow(s: seq<byte>)
    requires |s| >= 5 && forall j :: 0 <= j < 5 ==> More(s[j])
    ensures DrainSigned32(s) == Panic("signed LEB128 overflow")
  {
    NoTerminatorInFive(s);
  }

  lemma DrainSignedFive(s: seq<byte>)
    requires |s| >= 5 && Terminator(s) == 4
    ensures DrainSigned32(s) == Panic("attempt to shift right with overflow")
  {
  }

  /** After the loop of `decode_signed_leb128` has read at most four bytes:
      the accumulator holds the untruncated payload and the sign test picks
      the result of `DrainSigned32`. */
  lemma SignedTail(s: seq<byte>, count: nat, shift: nat, value: int)
    requires 1 <= count <= 4 && count <= |s| && Terminator(s) == count - 1 && shift == 7 * count
    requires value == Payload(s[..count]) % TWO32
    ensures 0 <= value < Pow2(shift)
    ensures (value / Pow2(shift - 1)) % 2 == 1 ==>
      -TWO31 <= value - Pow2(shift) && DrainSigned32(s) == Ok((value - Pow2(shift), count))
    ensures (value / Pow2(shift - 1)) % 2 != 1 ==>
      value < TWO31 && DrainSigned32(s) == Ok((value, count))
  {
    Untruncated(s[..count]);
    SignBit(value, shift);
    Pow2Monotonic(shift - 1, 31);
    Pow2Words();
    assert Pow2(shift) == 2 * Pow2(shift - 1);
  }

  /** Bit `shift - 1` of a `shift`-bit pattern is set exactly when the
      pattern is at least `2^(shift-1)`. */
  lemma SignBit(p: int, shift: nat)
    requires 1 <= shift && 0 <= p < Pow2(shift)
    ensures (p / Pow2(shift - 1)) % 2 == 1 <==> p >= Pow2(shift - 1)
  {
    var h := Pow2(shift - 1);
    assert Pow2(shift) == 2 * h;
    if p >= h {
      DivModUnique(p, 1, p - h, h);
    } else {
      DivModUnique(p, 0, p, h);
    }
  }

  /** One iteration of either encoder: the bytes pushed so far followed by
      the encoding of what remains. */
  lemma PushGroup(result: seq<byte>, b: byte, tail: seq<byte>, whole: seq<byte>)
    requires whole == [b] + tail
    ensures (result + [b]) + tail == result + whole
  {
  }

  /** `encode_u32_to_leb128`. */
  method EncodeU32ToLeb128(v: u32) returns (result: seq<byte>)
    ensures result == EncodeU(v)
  {
    var value: nat := v;
    result := [];
    while true
      invariant result + EncodeU(value) == EncodeU(v)
      decreases value
    {
      var b := value % 128;
      ghost var before := value;
      value := value / 128;
      if value == 0 {
        assert EncodeU(before) == [b];
        result := result + [b];
        return;
      } else {
        PushGroup(result, b + 128, EncodeU(value), EncodeU(before));
        result := result + [b + 128];
      }
    }
  }

  /** One iteration of `encode_i32_to_leb128` that does not stop keeps the
      loop's invariant and brings the remaining value closer to 0 or -1. */
  lemma SignedGroup(result: seq<byte>, value: int, v: int)
    requires result + EncodeS(value) == EncodeS(v)
    requires !((value / 128 == 0 && value % 128 < 64) || (value / 128 == -1 && value % 128 >= 64))
    ensures (result + [value % 128 + 128]) + EncodeS(value / 128) == EncodeS(v)
    ensures (if value / 128 >= 0 then value / 128 else -(value / 128)) < (if value >= 0 then value else -value)
  {
    assert EncodeS(value) == [value % 128 + 128] + EncodeS(value / 128);
  }

  /** The last iteration of `encode_i32_to_leb128`. */
  lemma SignedLast(result: seq<byte>, value: int, v: int)
    requires result + EncodeS(value) == EncodeS(v)
    requires (value / 128 == 0 && value % 128 < 64) || (value / 128 == -1 && value % 128 >= 64)
    ensures result + [value % 128] == EncodeS(v)
  {
    assert EncodeS(value) == [value % 128];
  }

  /** `encode_i32_to_leb128`.  `value & 0x7F` of a two's-complement number is
      its Euclidean remainder by 128 and `value >>= 7` is floor division. */
  method EncodeI32ToLeb128(v: i32) returns (result: seq<byte>)
    ensures result == EncodeS(v)
  {
    var value: int := v;
    result := [];
    while true
      invariant result + EncodeS(value) == EncodeS(v)
      decreases if value >= 0 then value else -value
    {
      var b := value % 128;
      if (value / 128 == 0 && b < 64) || (value / 128 == -1 && b >= 64) {
        SignedLast(result, value, v);
        result := result + [b];
        return;
      }
      SignedGroup(result, value, v);
      result := result + [b + 128];
      value := value / 128;
    }
  }

  /** What the two directions give together: the decoder returns the value,
      the length of the encoding and the untouched rest of the vector. */
  method RoundTripUnsigned(v: u32, tail: seq<byte>) returns (decoded: u32, count: nat, rest: seq<byte>)
    ensures decoded == v && count == |EncodeU(v)| && rest == tail
  {
    var enc := EncodeU32ToLeb128(v);
    DrainUnsignedRoundTrip(v, tail);
    var r;
    r, rest := DecodeUnsignedLeb128(enc + tail);
    decoded, count := r.value.0, r.value.1;
    assert (enc + tail)[|enc|..] == tail;
  }
}
