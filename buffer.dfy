/** src/buffer.rs: the byte buffer a module is emitted into. */
module Buffers {
  import opened Bytes
  import opened Outcomes
  import opened LebSpec
  import Leb128

  class Buffer {
    var bytes: seq<byte>

    /** `Buffer::new`. */
    constructor ()
      ensures bytes == []
    {
      bytes := [];
    }

    /** `write_u8`: one byte at the end. */
    method WriteU8(value: byte)
      modifies this
      ensures bytes == old(bytes) + [value]
    {
      bytes := bytes + [value];
    }

    /** `write_bytes`: the argument, in order, after what is there. */
    method WriteBytes(more: seq<byte>)
      modifies this
      ensures bytes == old(bytes) + more
    {
      bytes := bytes + more;
    }

    /** `write_u32`: the unsigned LEB128 of `value`, built in a local vector
        by a shift-and-push loop and then appended. */
    method WriteU32(value: u32)
      modifies this
      ensures bytes == old(bytes) + EncodeU(value)
    {
      var rest: nat := value;
      var result: seq<byte> := [];
      while true
        invariant bytes == old(bytes)
        invariant result + EncodeU(rest) == EncodeU(value)
        decreases rest
      {
        var b := rest % 128;
        ghost var before := rest;
        rest := rest / 128;
        if rest == 0 {
          assert EncodeU(before) == [b];
          result := result + [b];
          break;
        } else {
          Leb128.PushGroup(result, b + 128, EncodeU(rest), EncodeU(before));
          result := result + [b + 128];
        }
      }
      WriteBytes(result);
    }

    /** `clear`. */
    method Clear()
      modifies this
      ensures bytes == []
    {
      bytes := [];
    }
  }

  /** The encodings the tests of src/buffer.rs expect from `write_u32`. */
  lemma WriteU32Vectors()
    ensures EncodeU(0) == [0x00] && EncodeU(1) == [0x01] && EncodeU(127) == [0x7F]
    ensures EncodeU(128) == [0x80, 0x01] && EncodeU(129) == [0x81, 0x01]
    ensures EncodeU(130) == [0x82, 0x01] && EncodeU(255) == [0xFF, 0x01]
    ensures EncodeU(256) == [0x80, 0x02] && EncodeU(1023) == [0xFF, 0x07]
    ensures EncodeU(1024) == [0x80, 0x08]
    ensures EncodeU(65535) == [0xFF, 0xFF, 0x03] && EncodeU(65536) == [0x80, 0x80, 0x04]
  {
    assert EncodeU(1) == [1];
    assert EncodeU(512) == [0x80] + EncodeU(4);
    assert EncodeU(65536) == [0x80] + EncodeU(512);
    assert EncodeU(65535) == [0xFF] + EncodeU(511);
  }

  /** The pattern of the tests of src/buffer.rs: write `v` into a cleared
      buffer, then read it back with `Parser::read_u32` (which is
      `decode_unsigned_leb128`): the value and the length of its encoding
      come back and the buffer is drained. */
  method WriteThenRead(buffer: Buffer, v: u32) returns (value: u32, size: nat)
    modifies buffer
    ensures value == v && size == |EncodeU(v)|
    ensures size == 1 <==> v < 128
    ensures buffer.bytes == []
  {
    buffer.Clear();
    buffer.WriteU32(v);
    DrainUnsignedRoundTrip(v, []);
    EncodeUSizes(v);
    assert buffer.bytes == EncodeU(v) + [];
    var r, rest := Leb128.DecodeUnsignedLeb128(buffer.bytes);
    value, size := r.value.0, r.value.1;
    buffer.bytes := rest;
  }
}
