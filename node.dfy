/** src/node.rs: the syntax tree `Parser::parse` builds.  The file shows
    four instruction nodes; src/parser.rs builds nineteen and gives them
    constructors the file does not define, so the nodes here follow what
    src/parser.rs does with them: an instruction node carries its
    immediates, and a structured instruction its block type, its body and
    the number of instructions parsed for it.  The `opcode` fields of the
    shown nodes are left out, as src/parser.rs never sets them. */
module Nodes {
  import opened Bytes
  import opened Outcomes
  import opened Types

  /** `FunctionTypeNode::validate_header`: the function type header byte
      of section 5.3.3 of the WebAssembly Core Specification 1.0; anything
      else panics. */
  function ValidateHeader(header: byte): (r: Result<()>)
    ensures r.Ok? <==> header == 0x60
  {
    if header != 0x60 then Panic("Invalid TypeSection header") else Ok(())
  }

  datatype ResultTypeNode = ResultTypeNode(valTypes: seq<ValueType>)

  datatype FunctionTypeNode = FunctionTypeNode(params: ResultTypeNode, returnTypes: ResultTypeNode)

  datatype LocalEntryNode = LocalEntryNode(count: u32, valType: ValueType)

  /** `ExportType`: the four export kinds of section 5.5.10 of the
      WebAssembly Core Specification 1.0.  src/node.rs comments out all but
      `Function = 0x00`; src/instance.rs matches on all four. */
  datatype ExportType = Function | Table | Memory | Global

  function ExportTypeDiscriminant(t: ExportType): (b: byte)
    ensures b <= 0x03
  {
    match t
    case Function => 0x00
    case Table => 0x01
    case Memory => 0x02
    case Global => 0x03
  }

  /** `ExportType::from`: the ids of tables, memories and globals (1 to 3)
      are commented out of the table and panic like every other byte. */
  function ExportTypeFrom(b: byte): (r: Result<ExportType>)
    ensures r.Ok? <==> b == 0x00
    ensures r.Ok? ==> r.value == Function
  {
    if b == 0x00 then Ok(Function) else Panic("invalid value in ExportType")
  }

  /** Only the function kind survives the round trip through its byte, and
      every accepted byte is the discriminant of what it decodes to. */
  lemma ExportTypeRoundTrip(t: ExportType, b: byte)
    ensures ExportTypeFrom(ExportTypeDiscriminant(t)).Ok? <==> t == Function
    ensures t == Function ==> ExportTypeFrom(ExportTypeDiscriminant(t)) == Ok(t)
    ensures ExportTypeFrom(b).Ok? ==> ExportTypeDiscriminant(ExportTypeFrom(b).value) == b
  {
  }

  datatype ExportDescNode = ExportDescNode(exportType: ExportType, index: u32)

  /** An export; the name stays the bytes it was read as. */
  datatype ExportNode = ExportNode(name: seq<byte>, exportDesc: ExportDescNode)

  datatype ExpressionNode = ExpressionNode(instructions: seq<InstructionNode>)

  datatype InstructionNode =
      Block(blockType: BlockType, body: ExpressionNode, size: nat)
    | Loop(blockType: BlockType, body: ExpressionNode, size: nat)
    | If(blockType: BlockType, thenExpr: ExpressionNode, elseExpr: Option<ExpressionNode>, size: nat)
    | Else
    | End
    | Br(depth: u32)
    | BrIf(depth: u32)
    | Call(index: u32)
    | GetLocal(index: u32)
    | SetLocal(index: u32)
    | I32Const(value: i32)
    | I32Eqz
    | I32LtS
    | I32LtU
    | I32GeS
    | I32Add
    | I32Sub
    | I32RemS
    | I32RemU

  datatype CodeNode = CodeNode(functionBodySize: u32, localCount: u32, locals: seq<LocalEntryNode>, expr: ExpressionNode)
}
