/** old/src/reader.rs: `WasmBinaryReader`, a cursor over an in-memory
    module.  Every read first advances `pc` and then slices or indexes
    `buffer` behind it, so a read past the end panics after `pc` has moved. */
module OldReader {
  import opened Bytes
  import opened Outcomes
  import opened LebSpec
  import opened ReaderSpec
  import Leb128

  class WasmBinaryReader {
    var buffer: seq<byte>
    var pc: nat

    constructor (bytes: seq<byte>)
      ensures buffer == bytes && pc == 0
    {
      buffer := bytes;
      pc := 0;
    }

    /** `WasmBinaryReader::new(None, wasm_module)`: the module bytes become
        the buffer; with no module the constructor panics. */
    static method New(wasmModule: Option<seq<byte>>) returns (r: Result<WasmBinaryReader>)
      ensures r.Panic? <==> wasmModule.None?
      ensures r.Ok? ==> fresh(r.value) && r.value.buffer == wasmModule.value && r.value.pc == 0
    {
      if wasmModule.None? {
        return Panic("no wasm module given");
      }
      var reader := new WasmBinaryReader(wasmModule.value);
      return Ok(reader);
    }

    /** `read_header`: the eight bytes at `pc`. */
    method ReadHeader() returns (r: Result<seq<byte>>)
      modifies this
      ensures buffer == old(buffer) && pc == old(pc) + 8
      ensures r == Slice(buffer, old(pc), 8)
    {
      pc := pc + 8;
      if pc > |buffer| {
        return Panic("range end index out of range");
      }
      return Ok(buffer[pc - 8..pc]);
    }

    /** `read_next_byte`: the byte at `pc`, or `None` past the end; `pc`
        advances either way. */
    method ReadNextByte() returns (r: Option<byte>)
      modifies this
      ensures buffer == old(buffer) && pc == old(pc) + 1
      ensures r == ByteAt(buffer, old(pc))
    {
      pc := pc + 1;
      if pc - 1 < |buffer| {
        return Some(buffer[pc - 1]);
      }
      return None;
    }

    /** `read_bytes(size)`: the `size` bytes at `pc`. */
    method ReadBytes(size: nat) returns (r: Result<seq<byte>>)
      modifies this
      ensures buffer == old(buffer) && pc == old(pc) + size
      ensures r == Slice(buffer, old(pc), size)
    {
      pc := pc + size;
      if pc > |buffer| {
        return Panic("range end index out of range");
      }
      return Ok(buffer[pc - size..pc]);
    }

    /** `read_unsigned_leb128`: the number at `pc` and its byte count, with
        `pc` moved past it. */
    method ReadUnsignedLeb128() returns (r: Result<(nat, nat)>)
      modifies this
      ensures buffer == old(buffer)
      ensures r == CursorUnsigned(Rest(buffer, old(pc)))
      ensures r.Ok? ==> pc == old(pc) + r.value.1
    {
      ghost var s := Rest(buffer, pc);
      ghost var start := pc;
      var value: nat := 0;
      var shift: nat := 0;
      var count: nat := 0;
      while true
        invariant buffer == old(buffer) && start == old(pc) && s == Rest(buffer, start)
        invariant pc == start + count && count <= 4 && shift == 7 * count && count <= |s|
        invariant value == Payload(s[..count])
        invariant forall j :: 0 <= j < count ==> More(s[j])
        decreases 5 - count
      {
        pc := pc + 1;
        if pc > |buffer| {
          TerminatorAt(s, count);
          return Panic("index out of bounds");
        }
        var b := buffer[pc - 1];
        assert b == s[count];
        PayloadPrefix(s, count);
        value := value + Low7(b) * Pow2(shift);
        shift := shift + 7;
        count := count + 1;
        if !More(b) {
          TerminatorAt(s, count - 1);
          return Ok((value, count));
        }
        if shift > 32 {
          Leb128.NoTerminatorInFive(s);
          return Panic("Invalid LEB128 encoding");
        }
      }
    }

    /** `read_signed_leb128`: the same loop into an `isize`, sign extended
        from bit `shift - 1`. */
    method ReadSignedLeb128() returns (r: Result<(int, nat)>)
      modifies this
      ensures buffer == old(buffer)
      ensures r == CursorSigned(Rest(buffer, old(pc)))
      ensures r.Ok? ==> pc == old(pc) + r.value.1
    {
      ghost var s := Rest(buffer, pc);
      ghost var start := pc;
      var value: nat := 0;
      var shift: nat := 0;
      var count: nat := 0;
      while true
        invariant buffer == old(buffer) && start == old(pc) && s == Rest(buffer, start)
        invariant pc == start + count && count <= 4 && shift == 7 * count && count <= |s|
        invariant value == Payload(s[..count])
        invariant forall j :: 0 <= j < count ==> More(s[j])
        decreases 5 - count
      {
        pc := pc + 1;
        if pc > |buffer| {
          TerminatorAt(s, count);
          return Panic("index out of bounds");
        }
        var b := buffer[pc - 1];
        assert b == s[count];
        PayloadPrefix(s, count);
        value := value + Low7(b) * Pow2(shift);
        shift := shift + 7;
        count := count + 1;
        if !More(b) {
          TerminatorAt(s, count - 1);
          break;
        }
        if shift > 32 {
          Leb128.NoTerminatorInFive(s);
          return Panic("Invalid LEB128 encoding");
        }
      }
      CursorSignedTail(s, count, value);
      if (value / Pow2(shift - 1)) % 2 == 1 {
        return Ok((value - Pow2(shift), count));
      }
      return Ok((value, count));
    }
  }

  /** After the loop of `read_signed_leb128`: the sign test on bit
      `7 * count - 1` picks the result of `CursorSigned`. */
  lemma CursorSignedTail(s: seq<byte>, count: nat, value: nat)
    requires 1 <= count <= 5 && count <= |s| && Terminator(s) == count - 1
    requires value == Payload(s[..count])
    ensures (value / Pow2(7 * count - 1)) % 2 == 1 ==> CursorSigned(s) == Ok((value - Pow2(7 * count), count))
    ensures (value / Pow2(7 * count - 1)) % 2 != 1 ==> CursorSigned(s) == Ok((value, count))
  {
    CursorSignedAt(s, count - 1);
    Leb128.SignBit(value, 7 * count);
  }

  /** `CursorSigned` on a number that ends at byte `e`. */
  lemma CursorSignedAt(s: seq<byte>, e: nat)
    requires e < 5 && e < |s| && Terminator(s) == e
    ensures Payload(s[..e + 1]) < Pow2(7 * (e + 1))
    ensures CursorSigned(s) == Ok((SignExtend(Payload(s[..e + 1]), 7 * (e + 1)), e + 1))
  {
    PayloadBound(s[..e + 1]);
  }
}
