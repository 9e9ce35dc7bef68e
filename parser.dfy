/** src/parser.rs: `Parser`, which drains a byte vector from the front
    into a `ModuleNode`.  The vector a routine drains in place is passed in
    and what is left of it comes back with the value read; each method is
    proved to return exactly what its function in `ParserSpec` describes.
    `read_u8`, `read_bytes`, `number_type` and `block_type` contain no loop
    and are used directly as those functions. */
module Parsers {
  import opened Bytes
  import opened Outcomes
  import opened Types
  import opened Nodes
  import opened ModuleNodes
  import opened ParserSpec
  import Leb128

  /** The four section slots of a module node. */
  function SectionsOf(m: ModuleNode): Sections
    reads m
  {
    Sections(m.typeSection, m.functionSection, m.exportSection, m.codeSection)
  }

  /** One turn of a `for _ in 0..count` loop: the element `p` reads is
      pushed after the ones before it, or its panic ends the loop. */
  lemma ManyStep<T>(p: seq<byte> -> Parsed<T>, bytes: seq<byte>, n: nat, pushed: seq<T>)
    requires n > 0
    ensures p(bytes).Panic? ==> Prepend(pushed, Many(p, bytes, n)) == Panic(p(bytes).reason)
    ensures p(bytes).Ok? ==>
      Prepend(pushed, Many(p, bytes, n)) == Prepend(pushed + [p(bytes).value.0], Many(p, p(bytes).value.1, n - 1))
  {
    if p(bytes).Ok? {
      var x := p(bytes).value;
      match Many(p, x.1, n - 1)
      case Panic(_) =>
      case Ok(xs) =>
        assert pushed + ([x.0] + xs.0) == (pushed + [x.0]) + xs.0;
    }
  }

  /** A loop turn that read `x`, leaving `after`, keeps the invariant
      `whole == Prepend(pushed, Many(p, bytes, n))`, with `m` turns left. */
  lemma ManyTurn<T>(p: seq<byte> -> Parsed<T>, whole: Parsed<seq<T>>, pushed: seq<T>, bytes: seq<byte>, n: nat, m: nat, x: T, after: seq<byte>)
    requires n == m + 1 && whole == Prepend(pushed, Many(p, bytes, n)) && p(bytes) == Ok((x, after))
    ensures whole == Prepend(pushed + [x], Many(p, after, m))
  {
    ManyStep(p, bytes, n, pushed);
  }

  /** A loop turn whose read panicked ends the whole loop with that panic. */
  lemma ManyFails<T>(p: seq<byte> -> Parsed<T>, whole: Parsed<seq<T>>, pushed: seq<T>, bytes: seq<byte>, n: nat, reason: string)
    requires n > 0 && whole == Prepend(pushed, Many(p, bytes, n)) && p(bytes) == Panic(reason)
    ensures whole == Panic(reason)
  {
    ManyStep(p, bytes, n, pushed);
  }

  /** Before the first turn nothing has been pushed. */
  lemma PrependNothing<T>(r: Parsed<seq<T>>)
    ensures Prepend([], r) == r
  {
    match r
    case Panic(_) =>
    case Ok((xs, rest)) => assert [] + xs == xs;
  }

  /** After the last turn the loop has pushed every element. */
  lemma PrependAll<T>(pushed: seq<T>, rest: seq<byte>)
    ensures Prepend(pushed, Ok(([], rest))) == Ok((pushed, rest))
  {
    assert pushed + [] == pushed;
  }

  /** `read_u32`. */
  method ReadU32(bytes: seq<byte>) returns (r: Parsed<(u32, nat)>)
    ensures r == ParserSpec.ReadU32(bytes)
  {
    var d, rest := Leb128.DecodeUnsignedLeb128(bytes);
    if d.Panic? {
      return Panic(d.reason);
    }
    return Ok((d.value, rest));
  }

  /** `read_i32`, on `decode_signed_leb128` as written. */
  method ReadI32(bytes: seq<byte>) returns (r: Parsed<(i32, nat)>)
    ensures r == ParserSpec.ReadI32(bytes)
  {
    var d, rest := Leb128.DecodeSignedLeb128(bytes);
    if d.Panic? {
      return Panic(d.reason);
    }
    return Ok((d.value, rest));
  }

  /** The `for _ in 0..count` loop of `result_types`. */
  method ValueTypes(bytes: seq<byte>, count: nat) returns (r: Parsed<seq<ValueType>>)
    ensures r == Many(ValueTypeOf, bytes, count)
  {
    ghost var whole := Many(ValueTypeOf, bytes, count);
    ghost var todo := count;
    var rest := bytes;
    var pushed: seq<ValueType> := [];
    PrependNothing(whole);
    for i := 0 to count
      invariant todo == count - i
      invariant whole == Prepend(pushed, Many(ValueTypeOf, rest, todo))
    {
      var t := NumberTypeOf(rest);
      if t.Panic? {
        ManyFails(ValueTypeOf, whole, pushed, rest, todo, t.reason);
        return Panic(t.reason);
      }
      ghost var left := todo - 1;
      ManyTurn(ValueTypeOf, whole, pushed, rest, todo, left, Number(t.value.0), t.value.1);
      rest, pushed, todo := t.value.1, pushed + [Number(t.value.0)], left;
    }
    PrependAll(pushed, rest);
    return Ok((pushed, rest));
  }

  /** `result_types`. */
  method ResultTypes(bytes: seq<byte>) returns (r: Parsed<ResultTypeNode>)
    ensures r == ParserSpec.ResultTypes(bytes)
  {
    var count := ReadU32(bytes);
    if count.Panic? {
      return Panic(count.reason);
    }
    var xs := ValueTypes(count.value.1, count.value.0.0);
    if xs.Panic? {
      return Panic(xs.reason);
    }
    return Ok((ResultTypeNode(xs.value.0), xs.value.1));
  }

  /** `function_type`. */
  method FunctionType(bytes: seq<byte>) returns (r: Parsed<FunctionTypeNode>)
    ensures r == ParserSpec.FunctionType(bytes)
  {
    var header := ReadU8(bytes);
    if header.Panic? {
      return Panic(header.reason);
    }
    var params := ResultTypes(header.value.1);
    if params.Panic? {
      return Panic(params.reason);
    }
    var results := ResultTypes(params.value.1);
    if results.Panic? {
      return Panic(results.reason);
    }
    var node := FunctionTypeNode(params.value.0, results.value.0);
    var valid := ValidateHeader(header.value.0);
    if valid.Panic? {
      return Panic(valid.reason);
    }
    return Ok((node, results.value.1));
  }

  /** The `for _ in 0..count` loop of `type_section`. */
  method FunctionTypes(bytes: seq<byte>, count: nat) returns (r: Parsed<seq<FunctionTypeNode>>)
    ensures r == Many(ParserSpec.FunctionType, bytes, count)
  {
    ghost var whole := Many(ParserSpec.FunctionType, bytes, count);
    ghost var todo := count;
    var rest := bytes;
    var pushed: seq<FunctionTypeNode> := [];
    PrependNothing(whole);
    for i := 0 to count
      invariant todo == count - i
      invariant whole == Prepend(pushed, Many(ParserSpec.FunctionType, rest, todo))
    {
      var f := FunctionType(rest);
      if f.Panic? {
        ManyFails(ParserSpec.FunctionType, whole, pushed, rest, todo, f.reason);
        return Panic(f.reason);
      }
      ghost var left := todo - 1;
      ManyTurn(ParserSpec.FunctionType, whole, pushed, rest, todo, left, f.value.0, f.value.1);
      rest, pushed, todo := f.value.1, pushed + [f.value.0], left;
    }
    PrependAll(pushed, rest);
    return Ok((pushed, rest));
  }

  /** `type_section`. */
  method TypeSection(bytes: seq<byte>) returns (r: Parsed<TypeSectionNode>)
    ensures r == ParserSpec.TypeSection(bytes)
  {
    var count := ReadU32(bytes);
    if count.Panic? {
      return Panic(count.reason);
    }
    var xs := FunctionTypes(count.value.1, count.value.0.0);
    if xs.Panic? {
      return Panic(xs.reason);
    }
    return Ok((TypeSectionNode(xs.value.0), xs.value.1));
  }

  /** The `for _ in 0..count` loop of `function_section`. */
  method TypeIndexes(bytes: seq<byte>, count: nat) returns (r: Parsed<seq<u32>>)
    ensures r == Many(TypeIndex, bytes, count)
  {
    ghost var whole := Many(TypeIndex, bytes, count);
    ghost var todo := count;
    var rest := bytes;
    var pushed: seq<u32> := [];
    PrependNothing(whole);
    for i := 0 to count
      invariant todo == count - i
      invariant whole == Prepend(pushed, Many(TypeIndex, rest, todo))
    {
      var t := ReadU32(rest);
      if t.Panic? {
        ManyFails(TypeIndex, whole, pushed, rest, todo, t.reason);
        return Panic(t.reason);
      }
      ghost var left := todo - 1;
      ManyTurn(TypeIndex, whole, pushed, rest, todo, left, t.value.0.0, t.value.1);
      rest, pushed, todo := t.value.1, pushed + [t.value.0.0], left;
    }
    PrependAll(pushed, rest);
    return Ok((pushed, rest));
  }

  /** `function_section`. */
  method FunctionSection(bytes: seq<byte>) returns (r: Parsed<FunctionSectionNode>)
    ensures r == ParserSpec.FunctionSection(bytes)
  {
    var count := ReadU32(bytes);
    if count.Panic? {
      return Panic(count.reason);
    }
    var xs := TypeIndexes(count.value.1, count.value.0.0);
    if xs.Panic? {
      return Panic(xs.reason);
    }
    return Ok((FunctionSectionNode(xs.value.0), xs.value.1));
  }

  /** `export_desc`. */
  method ExportDesc(bytes: seq<byte>) returns (r: Parsed<ExportDescNode>)
    ensures r == ParserSpec.ExportDesc(bytes)
  {
    var id := ReadU8(bytes);
    if id.Panic? {
      return Panic(id.reason);
    }
    var index := ReadU32(id.value.1);
    if index.Panic? {
      return Panic(index.reason);
    }
    var kind := ExportTypeFrom(id.value.0);
    if kind.Panic? {
      return Panic(kind.reason);
    }
    return Ok((ExportDescNode(kind.value, index.value.0.0), index.value.1));
  }

  /** One export: its name's length, its name and its descriptor, in
      that order. */
  method Export(bytes: seq<byte>) returns (r: Parsed<ExportNode>)
    ensures r == ParserSpec.Export(bytes)
  {
    var size := ReadU32(bytes);
    if size.Panic? {
      return Panic(size.reason);
    }
    var name := ReadBytes(size.value.1, size.value.0.0);
    if name.Panic? {
      return Panic(name.reason);
    }
    var desc := ExportDesc(name.value.1);
    if desc.Panic? {
      return Panic(desc.reason);
    }
    return Ok((ExportNode(name.value.0, desc.value.0), desc.value.1));
  }

  /** The `for _ in 0..count` loop of `export_section`. */
  method Exports(bytes: seq<byte>, count: nat) returns (r: Parsed<seq<ExportNode>>)
    ensures r == Many(ParserSpec.Export, bytes, count)
  {
    ghost var whole := Many(ParserSpec.Export, bytes, count);
    ghost var todo := count;
    var rest := bytes;
    var pushed: seq<ExportNode> := [];
    PrependNothing(whole);
    for i := 0 to count
      invariant todo == count - i
      invariant whole == Prepend(pushed, Many(ParserSpec.Export, rest, todo))
    {
      var e := Export(rest);
      if e.Panic? {
        ManyFails(ParserSpec.Export, whole, pushed, rest, todo, e.reason);
        return Panic(e.reason);
      }
      ghost var left := todo - 1;
      ManyTurn(ParserSpec.Export, whole, pushed, rest, todo, left, e.value.0, e.value.1);
      rest, pushed, todo := e.value.1, pushed + [e.value.0], left;
    }
    PrependAll(pushed, rest);
    return Ok((pushed, rest));
  }

  /** `export_section`. */
  method ExportSection(bytes: seq<byte>) returns (r: Parsed<ExportSectionNode>)
    ensures r == ParserSpec.ExportSection(bytes)
  {
    var count := ReadU32(bytes);
    if count.Panic? {
      return Panic(count.reason);
    }
    var xs := Exports(count.value.1, count.value.0.0);
    if xs.Panic? {
      return Panic(xs.reason);
    }
    return Ok((ExportSectionNode(xs.value.0), xs.value.1));
  }

  /** `local_entry`. */
  method LocalEntry(bytes: seq<byte>) returns (r: Parsed<LocalEntryNode>)
    ensures r == ParserSpec.LocalEntry(bytes)
  {
    var count := ReadU32(bytes);
    if count.Panic? {
      return Panic(count.reason);
    }
    var t := NumberTypeOf(count.value.1);
    if t.Panic? {
      return Panic(t.reason);
    }
    return Ok((LocalEntryNode(count.value.0.0, Number(t.value.0)), t.value.1));
  }

  /** The `for _ in 0..count` loop of `code` over the local entries. */
  method LocalEntries(bytes: seq<byte>, count: nat) returns (r: Parsed<seq<LocalEntryNode>>)
    ensures r == Many(ParserSpec.LocalEntry, bytes, count)
  {
    ghost var whole := Many(ParserSpec.LocalEntry, bytes, count);
    ghost var todo := count;
    var rest := bytes;
    var pushed: seq<LocalEntryNode> := [];
    PrependNothing(whole);
    for i := 0 to count
      invariant todo == count - i
      invariant whole == Prepend(pushed, Many(ParserSpec.LocalEntry, rest, todo))
    {
      var entry := LocalEntry(rest);
      if entry.Panic? {
        ManyFails(ParserSpec.LocalEntry, whole, pushed, rest, todo, entry.reason);
        return Panic(entry.reason);
      }
      ghost var left := todo - 1;
      ManyTurn(ParserSpec.LocalEntry, whole, pushed, rest, todo, left, entry.value.0, entry.value.1);
      rest, pushed, todo := entry.value.1, pushed + [entry.value.0], left;
    }
    PrependAll(pushed, rest);
    return Ok((pushed, rest));
  }

  /** `code`. */
  method Code(bytes: seq<byte>) returns (r: Parsed<CodeNode>)
    ensures r == ParserSpec.Code(bytes)
  {
    var bodySize := ReadU32(bytes);
    if bodySize.Panic? {
      return Panic(bodySize.reason);
    }
    var count := ReadU32(bodySize.value.1);
    if count.Panic? {
      return Panic(count.reason);
    }
    var locals := LocalEntries(count.value.1, count.value.0.0);
    if locals.Panic? {
      return Panic(locals.reason);
    }
    var e := Expression(locals.value.1, [], 0);
    if e.Panic? {
      return Panic(e.reason);
    }
    return Ok((CodeNode(bodySize.value.0.0, count.value.0.0, locals.value.0, e.value.0.0), e.value.1));
  }

  /** The `for _ in 0..count` loop of `code_section`. */
  method Codes(bytes: seq<byte>, count: nat) returns (r: Parsed<seq<CodeNode>>)
    ensures r == Many(ParserSpec.Code, bytes, count)
  {
    ghost var whole := Many(ParserSpec.Code, bytes, count);
    ghost var todo := count;
    var rest := bytes;
    var pushed: seq<CodeNode> := [];
    PrependNothing(whole);
    for i := 0 to count
      invariant todo == count - i
      invariant whole == Prepend(pushed, Many(ParserSpec.Code, rest, todo))
    {
      var body := Code(rest);
      if body.Panic? {
        ManyFails(ParserSpec.Code, whole, pushed, rest, todo, body.reason);
        return Panic(body.reason);
      }
      ghost var left := todo - 1;
      ManyTurn(ParserSpec.Code, whole, pushed, rest, todo, left, body.value.0, body.value.1);
      rest, pushed, todo := body.value.1, pushed + [body.value.0], left;
    }
    PrependAll(pushed, rest);
    return Ok((pushed, rest));
  }

  /** `code_section`. */
  method CodeSection(bytes: seq<byte>) returns (r: Parsed<CodeSectionNode>)
    ensures r == ParserSpec.CodeSection(bytes)
  {
    var count := ReadU32(bytes);
    if count.Panic? {
      return Panic(count.reason);
    }
    var xs := Codes(count.value.1, count.value.0.0);
    if xs.Panic? {
      return Panic(xs.reason);
    }
    return Ok((CodeSectionNode(xs.value.0), xs.value.1));
  }

  /** `expression`: the seed, then instructions until one is `End` or
      `Else`, counting each in `size`. */
  method Expression(bytes: seq<byte>, seed: seq<InstructionNode>, size: nat) returns (r: Parsed<(ExpressionNode, nat)>)
    ensures r == ParserSpec.Expression(bytes, seed, size)
    decreases |bytes|, 2
  {
    var instructions := seed;
    var n := size;
    var rest := bytes;
    while true
      invariant |rest| <= |bytes|
      invariant ParserSpec.Expression(bytes, seed, size) == ParserSpec.Expression(rest, instructions, n)
      decreases |rest|
    {
      var i := Instruction(rest);
      if i.Panic? {
        return Panic(i.reason);
      }
      n := n + 1;
      instructions := instructions + [i.value.0];
      if i.value.0.End? || i.value.0.Else? {
        return Ok(((ExpressionNode(instructions), n), i.value.1));
      }
      rest := i.value.1;
    }
  }

  /** `instruction`. */
  method Instruction(bytes: seq<byte>) returns (r: Parsed<InstructionNode>)
    ensures r == ParserSpec.Instruction(bytes)
    decreases |bytes|, 1
  {
    var op := ReadU8(bytes);
    if op.Panic? {
      return Panic(op.reason);
    }
    r := InstructionArm(op.value.0, op.value.1);
  }

  /** The rest of `instruction` once the opcode byte is read. */
  method InstructionArm(opcode: byte, rest: seq<byte>) returns (r: Parsed<InstructionNode>)
    ensures r == ParserSpec.InstructionArm(opcode, rest)
    decreases |rest|, 1
  {
    var instr := Instructions.FromByte(opcode);
    if instr.Panic? {
      return Panic(instr.reason);
    }
    if !Parsable(instr.value) {
      return Panic("not yet implemented");
    }
    match instr.value {
      case Control(Block) =>
        var bt := BlockTypeOf(rest);
        if bt.Panic? {
          return Panic(bt.reason);
        }
        var e := Expression(bt.value.1, [], 0);
        if e.Panic? {
          return Panic(e.reason);
        }
        return Ok((InstructionNode.Block(bt.value.0, e.value.0.0, e.value.0.1), e.value.1));
      case Control(Loop) =>
        var bt := BlockTypeOf(rest);
        if bt.Panic? {
          return Panic(bt.reason);
        }
        var e := Expression(bt.value.1, [], 0);
        if e.Panic? {
          return Panic(e.reason);
        }
        return Ok((InstructionNode.Loop(bt.value.0, e.value.0.0, e.value.0.1), e.value.1));
      case Control(If) =>
        r := IfInstruction(rest);
      case Control(Else) =>
        return Ok((InstructionNode.Else, rest));
      case Control(End) =>
        return Ok((InstructionNode.End, rest));
      case Control(Br) =>
        var d := ReadU32(rest);
        if d.Panic? {
          return Panic(d.reason);
        }
        return Ok((InstructionNode.Br(d.value.0.0), d.value.1));
      case Control(BrIf) =>
        var d := ReadU32(rest);
        if d.Panic? {
          return Panic(d.reason);
        }
        return Ok((InstructionNode.BrIf(d.value.0.0), d.value.1));
      case Control(Call) =>
        var x := ReadU32(rest);
        if x.Panic? {
          return Panic(x.reason);
        }
        return Ok((InstructionNode.Call(x.value.0.0), x.value.1));
      case Variable(GetLocal) =>
        var x := ReadU32(rest);
        if x.Panic? {
          return Panic(x.reason);
        }
        return Ok((InstructionNode.GetLocal(x.value.0.0), x.value.1));
      case Variable(SetLocal) =>
        var x := ReadU32(rest);
        if x.Panic? {
          return Panic(x.reason);
        }
        return Ok((InstructionNode.SetLocal(x.value.0.0), x.value.1));
      case Const(I32Const) =>
        var v := ReadI32(rest);
        if v.Panic? {
          return Panic(v.reason);
        }
        return Ok((InstructionNode.I32Const(v.value.0.0), v.value.1));
      case I32Compare(Eqz) => return Ok((I32Eqz, rest));
      case I32Compare(LtS) => return Ok((I32LtS, rest));
      case I32Compare(LtU) => return Ok((I32LtU, rest));
      case I32Compare(GeS) => return Ok((I32GeS, rest));
      case I32Arith(Add) => return Ok((I32Add, rest));
      case I32Arith(Sub) => return Ok((I32Sub, rest));
      case I32Arith(RemS) => return Ok((I32RemS, rest));
      case I32Arith(RemU) => return Ok((I32RemU, rest));
      case _ => return Panic("not yet implemented");
    }
  }

  /** The `If` arm of `instruction`, after the opcode: the then-expression
      loses its last instruction; an `Else` there seeds the else-expression,
      an `End` is put back. */
  method IfInstruction(rest: seq<byte>) returns (r: Parsed<InstructionNode>)
    ensures r == IfArm(rest)
    decreases |rest|, 0
  {
    var bt := BlockTypeOf(rest);
    if bt.Panic? {
      return Panic(bt.reason);
    }
    var t := Expression(bt.value.1, [], 0);
    if t.Panic? {
      return Panic(t.reason);
    }
    var thenInstructions := t.value.0.0.instructions;
    if |thenInstructions| == 0 {
      return Panic("Failed to pop if-then instruction");
    }
    var last := thenInstructions[|thenInstructions| - 1];
    if last.Else? {
      var e := Expression(t.value.1, [last], t.value.0.1);
      if e.Panic? {
        return Panic(e.reason);
      }
      var thenExpr := ExpressionNode(thenInstructions[..|thenInstructions| - 1]);
      return Ok((InstructionNode.If(bt.value.0, thenExpr, Some(e.value.0.0), e.value.0.1), e.value.1));
    } else if last.End? {
      return Ok((InstructionNode.If(bt.value.0, t.value.0.0, None, t.value.0.1), t.value.1));
    }
    return Panic("Invalid if-then expression");
  }

  /** `section`: reads one section off `bytes` and stores what its parser
      returns in `node`'s slot for that kind; the result is the bytes
      after the section. */
  method Section(bytes: seq<byte>, node: ModuleNode, idOf: byte -> Result<SectionKind>) returns (r: Result<seq<byte>>)
    modifies node
    ensures ParserSpec.Section(bytes, old(SectionsOf(node)), idOf)
            == (if r.Ok? then Ok((SectionsOf(node), r.value)) else Panic(r.reason))
    ensures node.magic == old(node.magic) && node.version == old(node.version)
  {
    var id := ReadU8(bytes);
    if id.Panic? {
      return Panic(id.reason);
    }
    var size := ReadU32(id.value.1);
    if size.Panic? {
      return Panic(size.reason);
    }
    var body := ReadBytes(size.value.1, size.value.0.0);
    if body.Panic? {
      return Panic(body.reason);
    }
    var kind := idOf(id.value.0);
    if kind.Panic? {
      return Panic(kind.reason);
    }
    var content := body.value.0;
    match kind.value {
      case TypeId =>
        var t := TypeSection(content);
        if t.Panic? {
          return Panic(t.reason);
        }
        node.SetTypeSection(t.value.0);
      case FunctionId =>
        var f := FunctionSection(content);
        if f.Panic? {
          return Panic(f.reason);
        }
        node.SetFunctionSection(f.value.0);
      case ExportId =>
        var e := ExportSection(content);
        if e.Panic? {
          return Panic(e.reason);
        }
        node.SetExportSection(e.value.0);
      case CodeId =>
        var c := CodeSection(content);
        if c.Panic? {
          return Panic(c.reason);
        }
        node.SetCodeSection(c.value.0);
      case CustomId => return Panic("not yet implemented: Custom section");
      case ImportId => return Panic("not yet implemented: import section");
      case GlobalId => return Panic("not yet implemented: global section");
      case StartId => return Panic("not yet implemented: start section");
      case ElementId => return Panic("not yet implemented: element section");
      case DataId => return Panic("not yet implemented: data section");
    }
    return Ok(body.value.1);
  }

  /** `parse`: the header, `ModuleNode::new`, then one section after the
      other until no bytes are left.  The node is new, and it holds what
      the sections put in it. */
  method Parse(bytes: seq<byte>, idOf: byte -> Result<SectionKind>) returns (r: Result<ModuleNode>)
    ensures r.Ok? <==> ParserSpec.Parse(bytes, idOf).Ok?
    ensures r.Panic? ==> ParserSpec.Parse(bytes, idOf) == Panic(r.reason)
    ensures r.Ok? ==> fresh(r.value)
    ensures r.Ok? ==> ParserSpec.Parse(bytes, idOf).value
                      == ParsedModule(r.value.magic, r.value.version, SectionsOf(r.value))
  {
    var h := Header(bytes);
    if h.Panic? {
      return Panic(h.reason);
    }
    var (magic, version, sections) := h.value;
    var created := ModuleNode.New(magic, version);
    if created.Panic? {
      return Panic(created.reason);
    }
    var node := created.value;
    if |sections| == 0 {
      return Ok(node);
    }
    var rest := sections;
    while |rest| > 0
      invariant fresh(node)
      invariant node.magic == magic && node.version == version
      invariant SectionsFrom(sections, NoSections, idOf) == SectionsFrom(rest, SectionsOf(node), idOf)
      decreases |rest|
    {
      var next := Section(rest, node, idOf);
      if next.Panic? {
        return Panic(next.reason);
      }
      rest := next.value;
    }
    return Ok(node);
  }
}
