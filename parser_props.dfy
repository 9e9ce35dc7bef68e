/** What the parser of src/parser.rs promises, stated about the functions
    of `ParserSpec` (which the methods of `Parsers` are proved to compute). */
module ParserProperties {
  import opened Bytes
  import opened Outcomes
  import opened Types
  import opened Nodes
  import opened ModuleNodes
  import opened Instructions
  import opened ParserSpec
  import LebSpec
  import Leb128

  /** `read_u32` reads back what `encode_u32_to_leb128` (and so
      `Buffer::write_u32`) wrote, with the encoding's length, and leaves
      the bytes behind it. */
  lemma ReadU32RoundTrip(v: u32, rest: seq<byte>)
    ensures ReadU32(LebSpec.EncodeU(v) + rest) == Ok(((v, |LebSpec.EncodeU(v)|), rest))
  {
    var enc := LebSpec.EncodeU(v);
    LebSpec.DrainUnsignedRoundTrip(v, rest);
    assert (enc + rest)[|enc|..] == rest;
  }

  /** `read_i32` reads back every `i32` in [-2^27, 2^27) that
      `encode_i32_to_leb128` wrote, and panics on every other `i32`, whose
      encoding takes five bytes. */
  lemma ReadI32RoundTrip(v: i32, rest: seq<byte>)
    ensures -0x800_0000 <= v < 0x800_0000 ==>
      ReadI32(LebSpec.EncodeS(v) + rest) == Ok(((v, |LebSpec.EncodeS(v)|), rest))
    ensures v < -0x800_0000 || 0x800_0000 <= v ==>
      ReadI32(LebSpec.EncodeS(v) + rest) == Panic("attempt to shift right with overflow")
  {
    var enc := LebSpec.EncodeS(v);
    if -0x800_0000 <= v < 0x800_0000 {
      LebSpec.DrainSignedRoundTrip(v, rest);
      assert (enc + rest)[|enc|..] == rest;
    } else {
      LebSpec.DrainSignedWidePanics(v, rest);
    }
  }

  /** The decodes the tests of src/parser.rs check. */
  lemma KnownReads()
    ensures ReadU32([229, 142, 38, 0, 0, 0, 0, 0]) == Ok(((624485, 3), [0, 0, 0, 0, 0]))
    ensures ReadU32([0x80, 0x80, 0xC0, 0x00, 0x0B]) == Ok(((1048576, 4), [0x0B]))
    ensures ReadI32([127, 0, 0, 0, 0, 0, 0, 0]) == Ok(((-1, 1), [0, 0, 0, 0, 0, 0, 0]))
  {
    LebSpec.KnownUnsignedDecodes();
    LebSpec.KnownSignedDecode();
    var s: seq<byte> := [127, 0, 0, 0, 0, 0, 0, 0];
  }

  /** The loops read their elements in input order: element `n + 1` is
      read from what the first `n` left, and comes after them. */
  lemma {:induction false} ManySnoc<T>(p: seq<byte> -> Parsed<T>, bytes: seq<byte>, n: nat)
    requires Many(p, bytes, n).Ok?
    ensures var (xs, rest) := Many(p, bytes, n).value;
            Many(p, bytes, n + 1) == (match p(rest)
                                      case Panic(m) => Panic(m)
                                      case Ok((x, after)) => Ok((xs + [x], after)))
    decreases n
  {
    if n == 0 {
      match p(bytes)
      case Panic(_) =>
      case Ok((x, after)) =>
        assert Many(p, after, 0) == Ok(([], after));
        assert [x] + [] == [] + [x];
    } else {
      var first := p(bytes).value;
      ManySnoc(p, first.1, n - 1);
      var (ys, rest) := Many(p, first.1, n - 1).value;
      assert Many(p, bytes, n).value == ([first.0] + ys, rest);
      match p(rest)
      case Panic(_) =>
      case Ok((x, after)) =>
        assert Many(p, first.1, n) == Ok((ys + [x], after));
        assert [first.0] + (ys + [x]) == ([first.0] + ys) + [x];
    }
  }

  /** The type, function, export and code sections hold exactly as many
      entries as their count says. */
  lemma SectionCounts(bytes: seq<byte>)
    ensures TypeSection(bytes).Ok? ==>
              |TypeSection(bytes).value.0.functionTypes| == ReadU32(bytes).value.0.0
    ensures FunctionSection(bytes).Ok? ==>
              |FunctionSection(bytes).value.0.typeIndexes| == ReadU32(bytes).value.0.0
    ensures ExportSection(bytes).Ok? ==>
              |ExportSection(bytes).value.0.exports| == ReadU32(bytes).value.0.0
    ensures CodeSection(bytes).Ok? ==>
              |CodeSection(bytes).value.0.bodies| == ReadU32(bytes).value.0.0
  {
  }

  /** `read_u8` and `read_bytes` take their bytes off the front. */
  lemma ReadPrefixes(bytes: seq<byte>, size: nat)
    ensures ReadU8(bytes).Ok? ==> ReadU8(bytes) == Ok((bytes[0], bytes[1..]))
    ensures ReadBytes(bytes, size).Ok? ==> ReadBytes(bytes, size) == Ok((bytes[..size], bytes[size..]))
  {
    if |bytes| > 0 {
      assert bytes == [bytes[0]] + bytes[1..];
    }
    if size <= |bytes| {
      var r := ReadBytes(bytes, size).value;
      assert r.0 == bytes[..size] by {
        assert r.0 == (r.0 + r.1)[..size];
      }
    }
  }

  /** An instruction that ends an expression. */
  predicate EndsBlock(i: InstructionNode)
  {
    i.End? || i.Else?
  }

  /** The list `expression` returns starts with the seed, ends with its
      first `End` or `Else` and holds no other after the seed; the count
      grows by one per instruction read. */
  lemma {:induction false} ExpressionShape(bytes: seq<byte>, seed: seq<InstructionNode>, size: nat)
    requires Expression(bytes, seed, size).Ok?
    ensures var (e, n) := Expression(bytes, seed, size).value.0;
            && |seed| < |e.instructions|
            && e.instructions[..|seed|] == seed
            && EndsBlock(e.instructions[|e.instructions| - 1])
            && (forall j :: |seed| <= j < |e.instructions| - 1 ==> !EndsBlock(e.instructions[j]))
            && n == size + |e.instructions| - |seed|
    decreases |bytes|
  {
    var i := ParserSpec.Instruction(bytes).value;
    var instructions := seed + [i.0];
    if !EndsBlock(i.0) {
      ExpressionShape(i.1, instructions, size + 1);
      var e := Expression(i.1, instructions, size + 1).value.0.0;
      assert e.instructions[..|seed|] == instructions[..|seed|];
      assert e.instructions[|seed|] == i.0;
    }
  }

  /** The two shapes of an `If` (src/parser.rs, `Instruction::If`): when
      the then-expression ends in `Else`, that `Else` is taken off it and
      starts the else-expression; when it ends in `End`, the `End` stays
      and there is no else part.  Either way no `End` or `Else` comes
      before the last instruction of either part. */
  lemma IfShape(rest: seq<byte>)
    requires IfArm(rest).Ok?
    ensures IfArm(rest).value.0.If?
    ensures var i := IfArm(rest).value.0;
            var t := i.thenExpr.instructions;
            i.elseExpr.Some? ==>
              && (forall j :: 0 <= j < |t| ==> !EndsBlock(t[j]))
              && |i.elseExpr.value.instructions| > 1
              && i.elseExpr.value.instructions[0] == InstructionNode.Else
              && EndsBlock(i.elseExpr.value.instructions[|i.elseExpr.value.instructions| - 1])
    ensures var i := IfArm(rest).value.0;
            var t := i.thenExpr.instructions;
            i.elseExpr.None? ==>
              && |t| > 0 && t[|t| - 1] == InstructionNode.End
              && (forall j :: 0 <= j < |t| - 1 ==> !EndsBlock(t[j]))
  {
    var bt := BlockTypeOf(rest).value;
    ExpressionShape(bt.1, [], 0);
    var t := Expression(bt.1, [], 0).value;
    var ts := t.0.0.instructions;
    if ts[|ts| - 1].Else? {
      ExpressionShape(t.1, [ts[|ts| - 1]], t.0.1);
    }
  }

  /** Every opcode byte `Instruction::from` accepts but `instruction` has
      no arm for reaches `todo!`, and every instruction read has an arm. */
  lemma UnparsedOpcodes(op: byte, rest: seq<byte>)
    ensures FromByte(op).Ok? && !Parsable(FromByte(op).value) ==>
              ParserSpec.Instruction([op] + rest) == Panic("not yet implemented")
    ensures ParserSpec.Instruction([op] + rest).Ok? ==> FromByte(op).Ok? && Parsable(FromByte(op).value)
  {
    assert ([op] + rest)[1..] == rest;
    assert ParserSpec.Instruction([op] + rest) == InstructionArm(op, rest);
  }

  /** A section that parses is a type, function, export or code section;
      the other six kinds reach `todo!` once their bytes are framed. */
  lemma UnsupportedSections(bytes: seq<byte>, s: Sections, idOf: byte -> Result<SectionKind>)
    ensures Section(bytes, s, idOf).Ok? ==>
              idOf(bytes[0]).Ok? && idOf(bytes[0]).value in {TypeId, FunctionId, ExportId, CodeId}
    ensures && ReadU8(bytes).Ok?
            && ReadU32(bytes[1..]).Ok?
            && ReadBytes(ReadU32(bytes[1..]).value.1, ReadU32(bytes[1..]).value.0.0).Ok?
            && idOf(bytes[0]).Ok?
            && idOf(bytes[0]).value !in {TypeId, FunctionId, ExportId, CodeId}
            ==> Section(bytes, s, idOf).Panic?
  {
  }

  /** `section` drops the id byte, the size and exactly `size` further
      bytes, whatever the section's own parser makes of them. */
  lemma SectionConsumes(bytes: seq<byte>, s: Sections, idOf: byte -> Result<SectionKind>)
    requires Section(bytes, s, idOf).Ok?
    ensures ReadU32(bytes[1..]).Ok?
    ensures var (size, n) := ReadU32(bytes[1..]).value.0;
            1 + n + size <= |bytes| && Section(bytes, s, idOf).value.1 == bytes[1 + n + size..]
  {
    var id := ReadU8(bytes).value;
    assert id.1 == bytes[1..];
    var size := ReadU32(id.1).value;
    var body := ReadBytes(size.1, size.0.0).value;
    assert body.1 == size.1[size.0.0..];
  }

  /** `parse` accepts only vectors that start with the standard header,
      and the module keeps those eight bytes as magic and version. */
  lemma ParseHeader(bytes: seq<byte>, idOf: byte -> Result<SectionKind>)
    ensures Parse(bytes, idOf).Ok? ==>
              && |bytes| >= 8 && bytes[..8] == MagicBytes + VersionBytes
              && Parse(bytes, idOf).value.magic == MagicBytes
              && Parse(bytes, idOf).value.version == VersionBytes
    ensures |bytes| >= 8 && bytes[..4] != MagicBytes ==> Parse(bytes, idOf) == Panic("Invalid magic bytes")
    ensures |bytes| >= 8 && bytes[..4] == MagicBytes && bytes[4..8] != VersionBytes ==>
              Parse(bytes, idOf) == Panic("Unsupported version")
  {
    if |bytes| >= 8 {
      var h := Header(bytes).value;
      assert h.0 == bytes[..4] && h.1 == bytes[4..8] by {
        assert bytes[..4] == (h.0 + h.1 + h.2)[..4];
        assert bytes[4..8] == (h.0 + h.1 + h.2)[4..8];
      }
      assert bytes[..8] == bytes[..4] + bytes[4..8];
    }
  }

  /** A vector that is only the header parses to a module without
      sections. */
  lemma ParseHeaderOnly(idOf: byte -> Result<SectionKind>)
    ensures Parse(MagicBytes + VersionBytes, idOf) == Ok(ParsedModule(MagicBytes, VersionBytes, NoSections))
  {
    var bytes := MagicBytes + VersionBytes;
    assert bytes[..4] == MagicBytes && bytes[4..8] == VersionBytes && bytes[8..] == [];
  }

  /** `local.get x` with a one-byte index. */
  lemma GetLocalRead(x: u32, rest: seq<byte>)
    requires x < 128
    ensures ParserSpec.Instruction([0x20, x] + rest) == Ok((InstructionNode.GetLocal(x), rest))
  {
    ReadU32RoundTrip(x, rest);
    assert LebSpec.EncodeU(x) == [x];
    assert ([0x20, x] + rest)[1..] == [x] + rest;
    assert FromByte(0x20) == Ok(Variable(VariableOp.GetLocal));
  }

  /** `i32.const v` reads back `v` when `v` lies in [-2^27, 2^27), and
      panics on every other `v`, as `read_i32` does. */
  lemma I32ConstRead(v: i32, rest: seq<byte>)
    ensures -0x800_0000 <= v < 0x800_0000 ==>
      ParserSpec.Instruction([0x41] + LebSpec.EncodeS(v) + rest) == Ok((InstructionNode.I32Const(v), rest))
    ensures v < -0x800_0000 || 0x800_0000 <= v ==>
      ParserSpec.Instruction([0x41] + LebSpec.EncodeS(v) + rest) == Panic("attempt to shift right with overflow")
  {
    ReadI32RoundTrip(v, rest);
    assert ([0x41] + LebSpec.EncodeS(v) + rest)[1..] == LebSpec.EncodeS(v) + rest;
    assert FromByte(0x41) == Ok(Const(ConstOp.I32Const));
  }

  /** `i32.add` and `end` need no immediates. */
  lemma SimpleReads(rest: seq<byte>)
    ensures ParserSpec.Instruction([0x6A] + rest) == Ok((I32Add, rest))
    ensures ParserSpec.Instruction([0x0B] + rest) == Ok((InstructionNode.End, rest))
  {
    assert ([0x6A] + rest)[1..] == rest;
    assert ([0x0B] + rest)[1..] == rest;
    assert FromByte(0x6A) == Ok(I32Arith(IntArithOp.Add));
    assert FromByte(0x0B) == Ok(Control(ControlOp.End));
  }

  /** One turn of `expression`. */
  lemma ExpressionStep(bytes: seq<byte>, seed: seq<InstructionNode>, size: nat, i: InstructionNode, rest: seq<byte>)
    requires ParserSpec.Instruction(bytes) == Ok((i, rest))
    ensures EndsBlock(i) ==> Expression(bytes, seed, size) == Ok(((ExpressionNode(seed + [i]), size + 1), rest))
    ensures !EndsBlock(i) ==> Expression(bytes, seed, size) == Expression(rest, seed + [i], size + 1)
  {
  }

  /** The body `local.get 0; local.get 1; i32.add; end` parses to those
      four instructions, and what follows it is left. */
  lemma AddBody(rest: seq<byte>)
    ensures Expression([0x20, 0x00, 0x20, 0x01, 0x6A, 0x0B] + rest, [], 0)
            == Ok(((ExpressionNode([InstructionNode.GetLocal(0), InstructionNode.GetLocal(1), I32Add, InstructionNode.End]), 4), rest))
  {
    var s3 := [0x0B] + rest;
    var s2 := [0x6A] + s3;
    var s1 := [0x20, 0x01] + s2;
    var s0 := [0x20, 0x00] + s1;
    assert s0 == [0x20, 0x00, 0x20, 0x01, 0x6A, 0x0B] + rest;
    GetLocalRead(0, s1);
    GetLocalRead(1, s2);
    SimpleReads(s3);
    SimpleReads(rest);
    var g0 := InstructionNode.GetLocal(0);
    var g1 := InstructionNode.GetLocal(1);
    assert [] + [g0] == [g0] && [g0] + [g1] == [g0, g1] && [g0, g1] + [I32Add] == [g0, g1, I32Add];
    assert [g0, g1, I32Add] + [InstructionNode.End] == [g0, g1, I32Add, InstructionNode.End];
    ExpressionStep(s0, [], 0, g0, s1);
    ExpressionStep(s1, [g0], 1, g1, s2);
    ExpressionStep(s2, [g0, g1], 2, I32Add, s3);
    ExpressionStep(s3, [g0, g1, I32Add], 3, InstructionNode.End, rest);
  }
}
