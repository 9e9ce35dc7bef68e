/** src/util/leb.rs: LEB128 readers over a borrowed slice.  They never
    change their input (a `seq` here is a value), walk it with a `for` loop
    and stop at the first byte whose continuation bit is clear or at the end
    of the slice. */
module UtilLeb {
  import opened Bytes
  import opened Outcomes
  import opened LebSpec
  import Leb128

  /** `read_unsigned_leb128`. */
  method ReadUnsignedLeb128(bytes: seq<byte>) returns (r: Result<(nat, nat)>)
    ensures r == SliceUnsigned(bytes)
  {
    var value: nat := 0;
    var shift: nat := 0;
    var size: nat := 0;
    for i := 0 to |bytes|
      invariant size == i && shift == 7 * i && i <= 4
      invariant value == Payload(bytes[..i])
      invariant forall j :: 0 <= j < i ==> More(bytes[j])
    {
      var b := bytes[i];
      PayloadPrefix(bytes, i);
      value := value + Low7(b) * Pow2(shift);
      shift := shift + 7;
      size := size + 1;
      if !More(b) {
        TerminatorAt(bytes, i);
        return Ok((value, size));
      }
      if shift > 32 {
        Leb128.NoTerminatorInFive(bytes);
        return Panic("Invalid LEB128 encoding");
      }
    }
    SliceEnd(bytes);
    return Ok((value, size));
  }

  /** The loop ran off the end of the slice without a terminating byte. */
  lemma SliceEnd(s: seq<byte>)
    requires |s| <= 4 && forall j :: 0 <= j < |s| ==> More(s[j])
    ensures Terminator(s) == |s| && s[..|s|] == s
  {
    TerminatorAt(s, |s|);
  }

  /** `read_signed_leb128`: the same loop into an `isize`, then the value
      is sign extended from bit `shift - 1`, which underflows on an empty
      slice. */
  method ReadSignedLeb128(bytes: seq<byte>) returns (r: Result<(int, nat)>)
    ensures r == SliceSigned(bytes)
  {
    var value: nat := 0;
    var shift: nat := 0;
    var size: nat := 0;
    for i := 0 to |bytes|
      invariant size == i && shift == 7 * i && i <= 4
      invariant value == Payload(bytes[..i])
      invariant forall j :: 0 <= j < i ==> More(bytes[j])
    {
      var b := bytes[i];
      PayloadPrefix(bytes, i);
      value := value + Low7(b) * Pow2(shift);
      shift := shift + 7;
      size := size + 1;
      if !More(b) {
        TerminatorAt(bytes, i);
        break;
      }
      if shift > 32 {
        Leb128.NoTerminatorInFive(bytes);
        return Panic("Invalid LEB128 encoding");
      }
    }
    if shift == 0 {
      return Panic("attempt to subtract with overflow");
    }
    SliceSignedTail(bytes, size, value);
    if (value / Pow2(shift - 1)) % 2 == 1 {
      return Ok((value - Pow2(shift), size));
    }
    return Ok((value, size));
  }

  /** After the loop of `read_signed_leb128` has read `size` bytes: the sign
      test on bit `7 * size - 1` picks the result of `SliceSigned`. */
  lemma SliceSignedTail(s: seq<byte>, size: nat, value: nat)
    requires 1 <= size <= 5 && size <= |s| && value == Payload(s[..size])
    requires Terminator(s) == size - 1 || (size == |s| && size <= 4 && forall j :: 0 <= j < |s| ==> More(s[j]))
    ensures (value / Pow2(7 * size - 1)) % 2 == 1 ==> SliceSigned(s) == Ok((value - Pow2(7 * size), size))
    ensures (value / Pow2(7 * size - 1)) % 2 != 1 ==> SliceSigned(s) == Ok((value, size))
  {
    if Terminator(s) != size - 1 {
      SliceEnd(s);
    }
    SliceSignedAt(s, size);
    Leb128.SignBit(value, 7 * size);
  }

  /** `SliceSigned` on input whose number ends after `size` bytes. */
  lemma SliceSignedAt(s: seq<byte>, size: nat)
    requires 1 <= size <= 5 && size <= |s|
    requires Terminator(s) == size - 1 || (Terminator(s) == size == |s| && size <= 4)
    ensures Payload(s[..size]) < Pow2(7 * size)
    ensures SliceSigned(s) == Ok((SignExtend(Payload(s[..size]), 7 * size), size))
  {
    PayloadBound(s[..size]);
    var e := Terminator(s);
    if e == size - 1 {
      assert e != |s|;
    } else {
      assert e == |s|;
    }
  }
}
