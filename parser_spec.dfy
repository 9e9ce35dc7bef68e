/** What `Parser` of src/parser.rs reads, one function per parsing routine.

    Every routine of the parser drains the vector it is given from the
    front.  Here each one is a function from the bytes to the value read and
    the bytes left, or to the panic that ends the program: `Parsed<T>`.
    The methods of src/parser.rs are modelled in module `Parsers`, each
    proved equal to its function here; the lemmas of `ParserProperties`
    state what the parser promises. */
module ParserSpec {
  import opened Bytes
  import opened Outcomes
  import opened Types
  import opened Nodes
  import opened ModuleNodes
  import opened Instructions
  import LebSpec

  /** A value read from the front of a byte vector, and what is left. */
  type Parsed<T> = Result<(T, seq<byte>)>

  /** `read_u8`: indexing an empty vector panics. */
  function ReadU8(bytes: seq<byte>): (r: Parsed<byte>)
    ensures r.Ok? <==> |bytes| > 0
    ensures r.Ok? ==> [r.value.0] + r.value.1 == bytes
  {
    if |bytes| == 0 then Panic("index out of bounds") else Ok((bytes[0], bytes[1..]))
  }

  /** `read_bytes(size)`: the first `size` bytes, or a panic when there are
      fewer. */
  function ReadBytes(bytes: seq<byte>, size: nat): (r: Parsed<seq<byte>>)
    ensures r.Ok? <==> size <= |bytes|
    ensures r.Ok? ==> |r.value.0| == size && r.value.0 + r.value.1 == bytes
  {
    if size <= |bytes| then Ok((bytes[..size], bytes[size..])) else Panic("range end index out of range")
  }

  /** `read_u32`: `decode_unsigned_leb128`, which drains the bytes it read
      and returns the value with their count. */
  function ReadU32(bytes: seq<byte>): (r: Parsed<(u32, nat)>)
    ensures r.Ok? <==> LebSpec.DrainUnsigned32(bytes).Ok?
    ensures r.Ok? ==> LebSpec.DrainUnsigned32(bytes) == Ok(r.value.0)
    ensures r.Ok? ==> 1 <= r.value.0.1 <= |bytes| && r.value.1 == bytes[r.value.0.1..]
  {
    match LebSpec.DrainUnsigned32(bytes)
    case Panic(m) => Panic(m)
    case Ok(d) => Ok((d, bytes[d.1..]))
  }

  /** `read_i32`: `decode_signed_leb128`, as written: a number of five
      bytes panics at its sign extension (see `LebSpec.DrainSigned32`). */
  function ReadI32(bytes: seq<byte>): (r: Parsed<(i32, nat)>)
    ensures r.Ok? <==> LebSpec.DrainSigned32(bytes).Ok?
    ensures r.Ok? ==> LebSpec.DrainSigned32(bytes) == Ok(r.value.0)
    ensures r.Ok? ==> 1 <= r.value.0.1 <= |bytes| && r.value.1 == bytes[r.value.0.1..]
  {
    match LebSpec.DrainSigned32(bytes)
    case Panic(m) => Panic(m)
    case Ok(d) => Ok((d, bytes[d.1..]))
  }

  /** `number_type`: one byte through `NumberType::from`. */
  function NumberTypeOf(bytes: seq<byte>): (r: Parsed<NumberType>)
    ensures r.Ok? <==> |bytes| > 0 && NumberTypeFrom(bytes[0]).Ok?
    ensures r.Ok? ==> r.value == (NumberTypeFrom(bytes[0]).value, bytes[1..])
  {
    var b :- ReadU8(bytes);
    var t :- NumberTypeFrom(b.0);
    Ok((t, b.1))
  }

  /** One element of `result_types`: a number type as a value type. */
  function ValueTypeOf(bytes: seq<byte>): (r: Parsed<ValueType>)
    ensures r.Ok? <==> NumberTypeOf(bytes).Ok?
    ensures r.Ok? ==> r.value == (Number(NumberTypeOf(bytes).value.0), NumberTypeOf(bytes).value.1)
  {
    var t :- NumberTypeOf(bytes);
    Ok((Number(t.0), t.1))
  }

  /** `block_type`: one byte through `BlockType::from`. */
  function BlockTypeOf(bytes: seq<byte>): (r: Parsed<BlockType>)
    ensures r.Ok? <==> |bytes| > 0 && BlockTypeFrom(bytes[0]).Ok?
    ensures r.Ok? ==> r.value == (BlockTypeFrom(bytes[0]).value, bytes[1..])
  {
    var b :- ReadU8(bytes);
    var t :- BlockTypeFrom(b.0);
    Ok((t, b.1))
  }

  /** `n` elements read one after the other by `p`, in the order read: the
      `for _ in 0..count` loops of the parser. */
  function Many<T>(p: seq<byte> -> Parsed<T>, bytes: seq<byte>, n: nat): (r: Parsed<seq<T>>)
    ensures r.Ok? ==> |r.value.0| == n
    decreases n
  {
    if n == 0 then Ok(([], bytes))
    else
      var x :- p(bytes);
      var xs :- Many(p, x.1, n - 1);
      Ok(([x.0] + xs.0, xs.1))
  }

  /** The elements a loop has pushed so far, in front of what the rest of
      the loop reads. */
  function Prepend<T>(pushed: seq<T>, r: Parsed<seq<T>>): Parsed<seq<T>>
  {
    match r
    case Panic(m) => Panic(m)
    case Ok((xs, rest)) => Ok((pushed + xs, rest))
  }

  /** `result_types`: a count, then that many number types. */
  function ResultTypes(bytes: seq<byte>): Parsed<ResultTypeNode>
  {
    var count :- ReadU32(bytes);
    var ts :- Many(ValueTypeOf, count.1, count.0.0);
    Ok((ResultTypeNode(ts.0), ts.1))
  }

  /** `function_type`: the header byte, the parameters and the results; the
      header is checked only after both have been read. */
  function FunctionType(bytes: seq<byte>): Parsed<FunctionTypeNode>
  {
    var header :- ReadU8(bytes);
    var params :- ResultTypes(header.1);
    var results :- ResultTypes(params.1);
    var _ :- ValidateHeader(header.0);
    Ok((FunctionTypeNode(params.0, results.0), results.1))
  }

  function TypeSection(bytes: seq<byte>): Parsed<TypeSectionNode>
  {
    var count :- ReadU32(bytes);
    var fs :- Many(FunctionType, count.1, count.0.0);
    Ok((TypeSectionNode(fs.0), fs.1))
  }

  /** One type index of the function section. */
  function TypeIndex(bytes: seq<byte>): (r: Parsed<u32>)
    ensures r.Ok? <==> ReadU32(bytes).Ok?
    ensures r.Ok? ==> r.value == (ReadU32(bytes).value.0.0, ReadU32(bytes).value.1)
  {
    var v :- ReadU32(bytes);
    Ok((v.0.0, v.1))
  }

  function FunctionSection(bytes: seq<byte>): Parsed<FunctionSectionNode>
  {
    var count :- ReadU32(bytes);
    var ts :- Many(TypeIndex, count.1, count.0.0);
    Ok((FunctionSectionNode(ts.0), ts.1))
  }

  /** `export_desc`: the kind byte and the index are both read before the
      kind byte is converted. */
  function ExportDesc(bytes: seq<byte>): Parsed<ExportDescNode>
  {
    var id :- ReadU8(bytes);
    var index :- ReadU32(id.1);
    var kind :- ExportTypeFrom(id.0);
    Ok((ExportDescNode(kind, index.0.0), index.1))
  }

  /** One entry of the export section: the name's length, the name and the
      descriptor. */
  function Export(bytes: seq<byte>): Parsed<ExportNode>
  {
    var size :- ReadU32(bytes);
    var name :- ReadBytes(size.1, size.0.0);
    var desc :- ExportDesc(name.1);
    Ok((ExportNode(name.0, desc.0), desc.1))
  }

  function ExportSection(bytes: seq<byte>): Parsed<ExportSectionNode>
  {
    var count :- ReadU32(bytes);
    var es :- Many(Export, count.1, count.0.0);
    Ok((ExportSectionNode(es.0), es.1))
  }

  /** `local_entry`: a count and a number type. */
  function LocalEntry(bytes: seq<byte>): Parsed<LocalEntryNode>
  {
    var count :- ReadU32(bytes);
    var t :- NumberTypeOf(count.1);
    Ok((LocalEntryNode(count.0.0, Number(t.0)), t.1))
  }

  /** `code`: the body size (kept, not used to bound the body), the local
      entries and the body's expression. */
  function Code(bytes: seq<byte>): Parsed<CodeNode>
  {
    var bodySize :- ReadU32(bytes);
    var count :- ReadU32(bodySize.1);
    var locals :- Many(LocalEntry, count.1, count.0.0);
    var e :- Expression(locals.1, [], 0);
    Ok((CodeNode(bodySize.0.0, count.0.0, locals.0, e.0.0), e.1))
  }

  function CodeSection(bytes: seq<byte>): Parsed<CodeSectionNode>
  {
    var count :- ReadU32(bytes);
    var cs :- Many(Code, count.1, count.0.0);
    Ok((CodeSectionNode(cs.0), cs.1))
  }

  /** `expression(bytes, seed, size)`: the seed instructions, then
      instructions up to and including the first `End` or `Else`; `size`
      counts the instructions read.  The result is the expression and the
      final count. */
  function Expression(bytes: seq<byte>, seed: seq<InstructionNode>, size: nat): (r: Parsed<(ExpressionNode, nat)>)
    ensures r.Ok? ==> |r.value.1| < |bytes|
    decreases |bytes|, 2
  {
    var i :- Instruction(bytes);
    var instructions := seed + [i.0];
    if i.0.End? || i.0.Else? then Ok(((ExpressionNode(instructions), size + 1), i.1))
    else Expression(i.1, instructions, size + 1)
  }

  /** The opcodes `instruction` has an arm for; every other opcode reaches
      `todo!`. */
  predicate Parsable(i: Instruction)
  {
    match i
    case Control(Block) | Control(Loop) | Control(If) | Control(Else) | Control(End) => true
    case Control(Br) | Control(BrIf) | Control(Call) => true
    case Variable(GetLocal) | Variable(SetLocal) | Const(I32Const) => true
    case I32Compare(Eqz) | I32Compare(LtS) | I32Compare(LtU) | I32Compare(GeS) => true
    case I32Arith(Add) | I32Arith(Sub) | I32Arith(RemS) | I32Arith(RemU) => true
    case _ => false
  }

  /** `instruction`: the opcode byte, `Instruction::from`, and the
      immediates of the opcode.  A block, loop or if reads its block type
      and then its body with a fresh count.  An if's then-expression ends in
      `End` or `Else`: on `Else` that instruction starts the else-expression,
      which continues the then-expression's count; on `End` it stays where it
      is and there is no else part. */
  function Instruction(bytes: seq<byte>): (r: Parsed<InstructionNode>)
    ensures r.Ok? ==> |r.value.1| < |bytes|
    decreases |bytes|, 1
  {
    var op :- ReadU8(bytes);
    InstructionArm(op.0, op.1)
  }

  /** The rest of `instruction` once the opcode byte is read:
      `Instruction::from` and the arm for the opcode, on the bytes after
      it. */
  function InstructionArm(opcode: byte, rest: seq<byte>): (r: Parsed<InstructionNode>)
    ensures r.Ok? ==> |r.value.1| <= |rest|
    decreases |rest|, 1
  {
    var instr :- FromByte(opcode);
    if !Parsable(instr) then Panic("not yet implemented")
    else
      match instr
      case Control(Block) =>
        var bt :- BlockTypeOf(rest);
        var e :- Expression(bt.1, [], 0);
        Ok((InstructionNode.Block(bt.0, e.0.0, e.0.1), e.1))
      case Control(Loop) =>
        var bt :- BlockTypeOf(rest);
        var e :- Expression(bt.1, [], 0);
        Ok((InstructionNode.Loop(bt.0, e.0.0, e.0.1), e.1))
      case Control(If) => IfArm(rest)
      case Control(Else) => Ok((InstructionNode.Else, rest))
      case Control(End) => Ok((InstructionNode.End, rest))
      case Control(Br) =>
        var d :- ReadU32(rest);
        Ok((InstructionNode.Br(d.0.0), d.1))
      case Control(BrIf) =>
        var d :- ReadU32(rest);
        Ok((InstructionNode.BrIf(d.0.0), d.1))
      case Control(Call) =>
        var x :- ReadU32(rest);
        Ok((InstructionNode.Call(x.0.0), x.1))
      case Variable(GetLocal) =>
        var x :- ReadU32(rest);
        Ok((InstructionNode.GetLocal(x.0.0), x.1))
      case Variable(SetLocal) =>
        var x :- ReadU32(rest);
        Ok((InstructionNode.SetLocal(x.0.0), x.1))
      case Const(I32Const) =>
        var v :- ReadI32(rest);
        Ok((InstructionNode.I32Const(v.0.0), v.1))
      case I32Compare(Eqz) => Ok((I32Eqz, rest))
      case I32Compare(LtS) => Ok((I32LtS, rest))
      case I32Compare(LtU) => Ok((I32LtU, rest))
      case I32Compare(GeS) => Ok((I32GeS, rest))
      case I32Arith(Add) => Ok((I32Add, rest))
      case I32Arith(Sub) => Ok((I32Sub, rest))
      case I32Arith(RemS) => Ok((I32RemS, rest))
      case I32Arith(RemU) => Ok((I32RemU, rest))
      case _ => Panic("not yet implemented")
  }

  /** The `If` arm of `instruction`, after the opcode. */
  function IfArm(rest: seq<byte>): (r: Parsed<InstructionNode>)
    ensures r.Ok? ==> |r.value.1| < |rest|
    decreases |rest|, 0
  {
    var bt :- BlockTypeOf(rest);
    var t :- Expression(bt.1, [], 0);
    var thenInstructions := t.0.0.instructions;
    if |thenInstructions| == 0 then Panic("Failed to pop if-then instruction")
    else
      var last := thenInstructions[|thenInstructions| - 1];
      if last.Else? then
        var e :- Expression(t.1, [last], t.0.1);
        Ok((InstructionNode.If(bt.0, ExpressionNode(thenInstructions[..|thenInstructions| - 1]), Some(e.0.0), e.0.1), e.1))
      else if last.End? then
        Ok((InstructionNode.If(bt.0, t.0.0, None, t.0.1), t.1))
      else Panic("Invalid if-then expression")
  }

  /** The section ids the parser's `SectionId` distinguishes; the
      conversion `SectionId::from` is not part of this model and is given as
      a function `idOf`. */
  datatype SectionKind = CustomId | TypeId | ImportId | FunctionId | GlobalId | ExportId | StartId | CodeId | ElementId | DataId

  /** The four section slots of a `ModuleNode`. */
  datatype Sections = Sections(typeSection: Option<TypeSectionNode>, functionSection: Option<FunctionSectionNode>,
                               exportSection: Option<ExportSectionNode>, codeSection: Option<CodeSectionNode>)

  const NoSections := Sections(None, None, None, None)

  /** `section`: the id byte, the size, and exactly `size` further bytes,
      which are taken off the vector before the section's own parser sees
      them; what that parser leaves of them is dropped.  Six kinds of
      section reach `todo!`. */
  function Section(bytes: seq<byte>, s: Sections, idOf: byte -> Result<SectionKind>): (r: Result<(Sections, seq<byte>)>)
    ensures r.Ok? ==> |r.value.1| < |bytes|
  {
    var id :- ReadU8(bytes);
    var size :- ReadU32(id.1);
    var body :- ReadBytes(size.1, size.0.0);
    var kind :- idOf(id.0);
    var content := body.0;
    match kind
    case TypeId =>
      var t :- TypeSection(content);
      Ok((s.(typeSection := Some(t.0)), body.1))
    case FunctionId =>
      var f :- FunctionSection(content);
      Ok((s.(functionSection := Some(f.0)), body.1))
    case ExportId =>
      var e :- ExportSection(content);
      Ok((s.(exportSection := Some(e.0)), body.1))
    case CodeId =>
      var c :- CodeSection(content);
      Ok((s.(codeSection := Some(c.0)), body.1))
    case CustomId => Panic("not yet implemented: Custom section")
    case ImportId => Panic("not yet implemented: import section")
    case GlobalId => Panic("not yet implemented: global section")
    case StartId => Panic("not yet implemented: start section")
    case ElementId => Panic("not yet implemented: element section")
    case DataId => Panic("not yet implemented: data section")
  }

  /** `module_header`: the first four bytes, the next four, and the rest;
      a vector shorter than eight bytes panics on the slicing. */
  function Header(bytes: seq<byte>): (r: Result<(seq<byte>, seq<byte>, seq<byte>)>)
    ensures r.Ok? <==> |bytes| >= 8
    ensures r.Ok? ==> |r.value.0| == 4 && |r.value.1| == 4 && r.value.0 + r.value.1 + r.value.2 == bytes
  {
    if |bytes| < 4 then Panic("range end index 4 out of range")
    else if |bytes| < 8 then Panic("range end index 8 out of range")
    else Ok((bytes[..4], bytes[4..8], bytes[8..]))
  }

  /** The sections of the `while bytes.len() > 0` loop of `parse`. */
  function SectionsFrom(bytes: seq<byte>, s: Sections, idOf: byte -> Result<SectionKind>): Result<Sections>
    decreases |bytes|
  {
    if |bytes| == 0 then Ok(s)
    else
      var n :- Section(bytes, s, idOf);
      SectionsFrom(n.1, n.0, idOf)
  }

  /** The module `parse` returns: header bytes and sections. */
  datatype ParsedModule = ParsedModule(magic: seq<byte>, version: seq<byte>, sections: Sections)

  /** `parse`: the header, the checks of `ModuleNode::new`, then sections
      until the vector is empty. */
  function Parse(bytes: seq<byte>, idOf: byte -> Result<SectionKind>): Result<ParsedModule>
  {
    var h :- Header(bytes);
    var _ :- ValidateMagic(h.0);
    var _ :- ValidateVersion(h.1);
    if |h.2| == 0 then Ok(ParsedModule(h.0, h.1, NoSections))
    else
      var s :- SectionsFrom(h.2, NoSections, idOf);
      Ok(ParsedModule(h.0, h.1, s))
  }
}
