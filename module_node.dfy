/** src/module/mod.rs: `ModuleNode`, the root of the syntax tree
    `Parser::parse` builds, and its section nodes.  The section node types
    are not part of this model's sources; their fields are the ones
    src/parser.rs fills in. */
module ModuleNodes {
  import opened Bytes
  import opened Outcomes
  import opened Nodes
  import Buffers

  datatype TypeSectionNode = TypeSectionNode(functionTypes: seq<FunctionTypeNode>)
  datatype FunctionSectionNode = FunctionSectionNode(typeIndexes: seq<u32>)
  datatype ExportSectionNode = ExportSectionNode(exports: seq<ExportNode>)
  datatype CodeSectionNode = CodeSectionNode(bodies: seq<CodeNode>)

  const MagicBytes: seq<byte> := [0x00, 0x61, 0x73, 0x6D]
  const VersionBytes: seq<byte> := [0x01, 0x00, 0x00, 0x00]

  /** `validate_magic`: `true` for the magic of section 5.5.15 of the
      WebAssembly Core Specification 1.0, a panic for anything else. */
  function ValidateMagic(bytes: seq<byte>): (r: Result<bool>)
    ensures r.Ok? <==> bytes == [0x00, 0x61, 0x73, 0x6D]
    ensures r.Ok? ==> r.value
  {
    if bytes == MagicBytes then Ok(true) else Panic("Invalid magic bytes")
  }

  /** `validate_version`: `true` for version 1 only. */
  function ValidateVersion(bytes: seq<byte>): (r: Result<bool>)
    ensures r.Ok? <==> bytes == [0x01, 0x00, 0x00, 0x00]
    ensures r.Ok? ==> r.value
  {
    if bytes == VersionBytes then Ok(true) else Panic("Unsupported version")
  }

  /** What one `emit` appends: magic, version and, when there is a type
      section, its encoding.  The other three sections are only logged, so
      they do not appear here.  `TypeSectionNode::encode` is not part of this
      model and is given as `encode`. */
  function EmitBytes(magic: seq<byte>, version: seq<byte>, typeSection: Option<TypeSectionNode>,
                     encode: TypeSectionNode -> seq<byte>): seq<byte>
  {
    magic + version + (if typeSection.Some? then encode(typeSection.value) else [])
  }

  /** The eight header bytes come first, and the type section's encoding is
      all that follows them; with no type section only the header is
      written. */
  lemma EmitHeaderFirst(magic: seq<byte>, version: seq<byte>, typeSection: Option<TypeSectionNode>,
                        encode: TypeSectionNode -> seq<byte>)
    requires |magic| == 4 && |version| == 4
    ensures |EmitBytes(magic, version, typeSection, encode)| >= 8
    ensures EmitBytes(magic, version, typeSection, encode)[..4] == magic
    ensures EmitBytes(magic, version, typeSection, encode)[4..8] == version
    ensures typeSection.None? ==> EmitBytes(magic, version, typeSection, encode) == magic + version
    ensures typeSection.Some? ==> EmitBytes(magic, version, typeSection, encode)[8..] == encode(typeSection.value)
  {
  }

  class ModuleNode {
    var magic: seq<byte>
    var version: seq<byte>
    var typeSection: Option<TypeSectionNode>
    var functionSection: Option<FunctionSectionNode>
    var exportSection: Option<ExportSectionNode>
    var codeSection: Option<CodeSectionNode>
    const buffer: Buffers.Buffer

    constructor (magic: seq<byte>, version: seq<byte>)
      ensures this.magic == magic && this.version == version
      ensures typeSection.None? && functionSection.None? && exportSection.None? && codeSection.None?
      ensures fresh(buffer) && buffer.bytes == []
    {
      this.magic := magic;
      this.version := version;
      typeSection := None;
      functionSection := None;
      exportSection := None;
      codeSection := None;
      buffer := new Buffers.Buffer();
    }

    /** `ModuleNode::new`: checks the magic, then the version (each check
        panics on failure), and builds a module with no sections and an
        empty buffer. */
    static method New(magic: seq<byte>, version: seq<byte>) returns (r: Result<ModuleNode>)
      requires |magic| == 4 && |version| == 4
      ensures r.Ok? <==> magic == MagicBytes && version == VersionBytes
      ensures magic != MagicBytes ==> r == Panic("Invalid magic bytes")
      ensures magic == MagicBytes && version != VersionBytes ==> r == Panic("Unsupported version")
      ensures r.Ok? ==> fresh(r.value) && fresh(r.value.buffer)
      ensures r.Ok? ==> r.value.magic == magic && r.value.version == version
      ensures r.Ok? ==> r.value.typeSection.None? && r.value.functionSection.None?
      ensures r.Ok? ==> r.value.exportSection.None? && r.value.codeSection.None?
      ensures r.Ok? ==> r.value.buffer.bytes == []
    {
      var m := ValidateMagic(magic);
      if m.Panic? {
        return m.PropagateFailure();
      }
      var v := ValidateVersion(version);
      if v.Panic? {
        return v.PropagateFailure();
      }
      var node := new ModuleNode(magic, version);
      return Ok(node);
    }

    method SetTypeSection(section: TypeSectionNode)
      modifies this
      ensures typeSection == Some(section)
      ensures magic == old(magic) && version == old(version)
      ensures functionSection == old(functionSection) && exportSection == old(exportSection)
      ensures codeSection == old(codeSection)
    {
      typeSection := Some(section);
    }

    method SetFunctionSection(section: FunctionSectionNode)
      modifies this
      ensures functionSection == Some(section)
      ensures magic == old(magic) && version == old(version)
      ensures typeSection == old(typeSection) && exportSection == old(exportSection)
      ensures codeSection == old(codeSection)
    {
      functionSection := Some(section);
    }

    method SetExportSection(section: ExportSectionNode)
      modifies this
      ensures exportSection == Some(section)
      ensures magic == old(magic) && version == old(version)
      ensures typeSection == old(typeSection) && functionSection == old(functionSection)
      ensures codeSection == old(codeSection)
    {
      exportSection := Some(section);
    }

    method SetCodeSection(section: CodeSectionNode)
      modifies this
      ensures codeSection == Some(section)
      ensures magic == old(magic) && version == old(version)
      ensures typeSection == old(typeSection) && functionSection == old(functionSection)
      ensures exportSection == old(exportSection)
    {
      codeSection := Some(section);
    }

    /** `emit`: writes into the buffer without clearing it, so what an
        earlier `emit` wrote stays in front. */
    method Emit(encode: TypeSectionNode -> seq<byte>)
      modifies buffer
      ensures buffer.bytes == old(buffer.bytes) + EmitBytes(magic, version, typeSection, encode)
    {
      buffer.WriteBytes(magic);
      buffer.WriteBytes(version);
      if typeSection.Some? {
        buffer.WriteBytes(encode(typeSection.value));
      }
    }
  }
}
