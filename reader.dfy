/** src/reader.rs: the later copy of the `WasmBinaryReader` cursor.  `pc`
    is private and the signed reader, also private, never advances it. */
module Reader {
  import opened Bytes
  import opened Outcomes
  import opened LebSpec
  import opened ReaderSpec
  import Leb128

  class WasmBinaryReader {
    var buffer: seq<byte>
    var pc: nat

    constructor (bytes: seq<byte>)
      ensures buffer == bytes && pc == 0
    {
      buffer := bytes;
      pc := 0;
    }

    /** `WasmBinaryReader::new(None, wasm_module)`: the module bytes become
        the buffer; with no module the constructor panics. */
    static method New(wasmModule: Option<seq<byte>>) returns (r: Result<WasmBinaryReader>)
      ensures r.Panic? <==> wasmModule.None?
      ensures r.Ok? ==> fresh(r.value) && r.value.buffer == wasmModule.value && r.value.pc == 0
    {
      if wasmModule.None? {
        return Panic("no wasm module given");
      }
      var reader := new WasmBinaryReader(wasmModule.value);
      return Ok(reader);
    }

    /** `read_header`: the eight bytes at `pc`. */
    method ReadHeader() returns (r: Result<seq<byte>>)
      modifies this
      ensures buffer == old(buffer) && pc == old(pc) + 8
      ensures r == Slice(buffer, old(pc), 8)
    {
      pc := pc + 8;
      if pc > |buffer| {
        return Panic("range end index out of range");
      }
      return Ok(buffer[pc - 8..pc]);
    }

    /** `read_next_byte`: the byte at `pc`, or `None` past the end; `pc`
        advances either way. */
    method ReadNextByte() returns (r: Option<byte>)
      modifies this
      ensures buffer == old(buffer) && pc == old(pc) + 1
      ensures r == ByteAt(buffer, old(pc))
    {
      pc := pc + 1;
      if pc - 1 < |buffer| {
        return Some(buffer[pc - 1]);
      }
      return None;
    }

    /** `read_bytes(size)`: the `size` bytes at `pc`. */
    method ReadBytes(size: nat) returns (r: Result<seq<byte>>)
      modifies this
      ensures buffer == old(buffer) && pc == old(pc) + size
      ensures r == Slice(buffer, old(pc), size)
    {
      pc := pc + size;
      if pc > |buffer| {
        return Panic("range end index out of range");
      }
      return Ok(buffer[pc - size..pc]);
    }

    /** `read_unsigned_leb128`: the number at `pc` and its byte count, with
        `pc` moved past it. */
    method ReadUnsignedLeb128() returns (r: Result<(nat, nat)>)
      modifies this
      ensures buffer == old(buffer)
      ensures r == CursorUnsigned(Rest(buffer, old(pc)))
      ensures r.Ok? ==> pc == old(pc) + r.value.1
    {
      ghost var s := Rest(buffer, pc);
      ghost var start := pc;
      var value: nat := 0;
      var shift: nat := 0;
      var count: nat := 0;
      while true
        invariant buffer == old(buffer) && start == old(pc) && s == Rest(buffer, start)
        invariant pc == start + count && count <= 4 && shift == 7 * count && count <= |s|
        invariant value == Payload(s[..count])
        invariant forall j :: 0 <= j < count ==> More(s[j])
        decreases 5 - count
      {
        pc := pc + 1;
        if pc > |buffer| {
          TerminatorAt(s, count);
          return Panic("index out of bounds");
        }
        var b := buffer[pc - 1];
        assert b == s[count];
        PayloadPrefix(s, count);
        value := value + Low7(b) * Pow2(shift);
        shift := shift + 7;
        count := count + 1;
        if !More(b) {
          TerminatorAt(s, count - 1);
          return Ok((value, count));
        }
        if shift > 32 {
          Leb128.NoTerminatorInFive(s);
          return Panic("Invalid LEB128 encoding");
        }
      }
    }

    /** The private `read_signed_leb128`: the loop of the unsigned reader
        without `pc += 1`, so each iteration reads `buffer[pc - 1]` again;
        the result is a `usize`, sign extended by `!0 << shift`. */
    method ReadSignedLeb128() returns (r: Result<(nat, nat)>)
      ensures r == StuckSigned(buffer, pc)
    {
      var value: nat := 0;
      var shift: nat := 0;
      var count: nat := 0;
      while true
        invariant count <= 4 && shift == 7 * count
        invariant count == 0 ==> value == 0
        invariant count > 0 ==> 1 <= pc <= |buffer| && More(buffer[pc - 1])
        decreases 5 - count
      {
        if pc == 0 {
          return Panic("attempt to subtract with overflow");
        }
        if pc > |buffer| {
          return Panic("range end index out of range");
        }
        var b := buffer[pc - 1];
        value := value + Low7(b) * Pow2(shift);
        shift := shift + 7;
        count := count + 1;
        if !More(b) {
          break;
        }
        if shift > 32 {
          return Panic("Invalid LEB128 encoding");
        }
      }
      SignBit7(value);
      if (value / Pow2(shift - 1)) % 2 == 1 {
        value := value + (TWO64 - Pow2(shift));
      }
      return Ok((value, count));
    }
  }

  /** The sign bit of a one-byte number is bit 6. */
  lemma SignBit7(value: nat)
    requires value < 128
    ensures Pow2(7) == 128 && ((value / Pow2(6)) % 2 == 1 <==> value >= 64)
  {
    Pow2Groups();
    Leb128.SignBit(value, 7);
  }
}
