# wasm-runtime in Dafny

A model of the core of `wasm-runtime`, a small WebAssembly interpreter written in Rust. The repository holds two generations of the interpreter side by side (`old/src` and `src`), and the model covers both, file by file:

- **LEB128.** The codec of section 5.2.2 of the WebAssembly Core Specification 1.0 (`src/leb128.rs`, `src/util/leb.rs`) and its writer (`src/buffer.rs`).
- **Readers.** The byte cursors `WasmBinaryReader` of `old/src/reader.rs` and `src/reader.rs`.
- **Byte tags.** The decoders of the binary format: opcodes, value, block and reference types, section ids, export kinds, magic and version.
- **Parsing.** The `Parser` of `src/parser.rs`, which drains a byte vector into a `ModuleNode`, and the older streaming `Decoder` of `src/decoder.rs`.
- **Instantiation.** `Instance::new` of `src/instance.rs`.
- **Execution.**
  - The `Stack` of `old/src/stack.rs`, which keeps values, labels and frames in one vector.
  - The two byte-code `Evaluator`s built on it (`old/src/evaluator.rs`, `src/evaluator.rs`).
  - The node-driven `Runtime` of `src/runtime.rs`.

Each imperative source file is modelled twice:

- A module of pure functions (`LebSpec`, `ParserSpec`, `DecoderSpec`, `StackSpec`, `HandlerSpec`, `OldEvaluatorSpec`, `EvaluatorSpec`, `RuntimeSpec`) says what the program computes. Lemmas about those functions state the properties.
- A module of methods and classes (`Leb128`, `UtilLeb`, `Buffers`, `OldReader`, `Readers`, `Parsers`, `Decoders`, `Stacks`, `Handlers`, `OldEvaluators`, `Evaluators`, `Runtimes`) follows the program's loops and field updates. Each method is proved to end as its function says.

The pure source files (opcode and type tables, section ids, module headers, constructors and `inspect` formatters) are datatypes and functions.

Modelling conventions:

- **Panics.** A Rust panic, `todo!()`, `unimplemented!()`, `unwrap()` on `None`, an index out of range or an arithmetic overflow (the program's debug-build checks) is the `Panic(reason)` of the `Result` type in `Outcomes`. Its reason is the fixed part of the message the program panics with; a formatted suffix such as the offending value is left off.
- **Integer widths.** Bytes are `byte` (0..255); `u32`, `i32`, `u64` and `i64` are bounded subset types. Wrap-around and truncation are written out.
- **Draining.** A `&mut Vec<u8>` drained from the front is a `seq<byte>` returned beside the result.

## Model

| member | source | states |
|---|---|---|
| LebSpec.Terminator | src/leb128.rs:10-23 | the index at which every LEB128 loop stops: every byte before it has bit 7 set and the byte at it, if any, has bit 7 clear |
| LebSpec.TerminatorAt | src/leb128.rs:17-19 | those facts determine the stopping index uniquely |
| LebSpec.PayloadBound | src/leb128.rs:13 | the groups read from `n` bytes form a number below 2^(7n) |
| LebSpec.PayloadCons | src/leb128.rs:13 | the payload is the first byte's seven bits plus 128 times the payload of the rest |
| LebSpec.SignExtend | src/leb128.rs:46-48 | sign extension of a `bits`-wide pattern lies in [-2^(bits-1), 2^(bits-1)) |
| LebSpec.SignExtendMod | src/leb128.rs:46-48 | sign extension keeps the low `bits` bits of the pattern |
| LebSpec.SignExtendPattern | src/leb128.rs:46-48 | sign extension inverts the two's-complement pattern of every `bits`-wide signed number |
| LebSpec.UnterminatedTerminator | src/leb128.rs:17-22 | the input is unterminated exactly when no byte with bit 7 clear occurs among the first five bytes |
| LebSpec.DrainUnsignedSpec | src/leb128.rs:5-25 | `decode_unsigned_leb128` panics exactly on unterminated input; otherwise it consumes 1 to 5 bytes up to and including the first byte with bit 7 clear, and returns their payload cut to 32 bits |
| LebSpec.DrainSignedSpec | src/leb128.rs:27-50 | `decode_signed_leb128` panics exactly on unterminated input and on five-byte numbers; otherwise it consumes what the unsigned decoder consumes and returns the `7*count`-bit signed value whose pattern is the payload |
| LebSpec.Untruncated | src/leb128.rs:13 | four groups or fewer fit in 32 bits, so the cut changes nothing |
| LebSpec.FourGroupsFit | src/leb128.rs:35 | up to four groups, the payload and its sign extension fit in 32 bits |
| LebSpec.CursorUnsignedSpec | old/src/reader.rs:54-74 | the cursor readers' unsigned LEB128 fails where `decode_unsigned_leb128` fails, consumes the same bytes and returns the untruncated payload, below 2^35 |
| LebSpec.CursorSignedSpec | old/src/reader.rs:76-99 | the cursor readers' signed LEB128 consumes what the unsigned one consumes and returns a signed value whose `7*count`-bit pattern is the unsigned value |
| LebSpec.SliceUnsignedSpec | src/util/leb.rs:3-22 | the slice reader panics only when five leading bytes all have bit 7 set; it agrees with the cursor reader where that one succeeds; on input without a terminator it returns the whole payload and `size == len`; empty input gives `(0, 0)` |
| LebSpec.SliceSignedSpec | src/util/leb.rs:35-57 | the signed slice reader panics exactly on empty input or where the unsigned one panics; otherwise it has the unsigned reader's size and its value's `7*size`-bit pattern is the unsigned value |
| LebSpec.EncodeUShape | src/leb128.rs:52-66 | `encode_u32_to_leb128` is non-empty, every byte but the last has bit 7 set and the last has it clear |
| LebSpec.EncodeSShape | src/leb128.rs:68-83 | `encode_i32_to_leb128` has the same shape |
| LebSpec.TerminatorOfEncoding | src/leb128.rs:10-19 | a decoder reading an encoding followed by anything stops at the encoding's last byte |
| LebSpec.EncodeUPayload | src/leb128.rs:52-66 | the groups of the unsigned encoding add up to the value |
| LebSpec.EncodeULength | src/leb128.rs:52-66 | the unsigned encoding of `v` has at most `k` bytes exactly when `v < 2^(7k)` |
| LebSpec.EncodeUSizes | src/buffer.rs:47-135 | a `u32` takes 1 to 5 bytes: 1 byte exactly below 128, 2 bytes exactly in [128, 16384), 3 bytes exactly in [16384, 2^21) |
| LebSpec.DrainUnsignedRoundTrip | src/leb128.rs:5-66 | `decode_unsigned_leb128` of `encode_u32_to_leb128(v)` followed by anything returns `v` and the encoding's length |
| LebSpec.CursorUnsignedRoundTrip | old/src/reader.rs:54-74 | the cursor readers decode the unsigned encoding back to `v` and its length |
| LebSpec.EncodeSRange | src/leb128.rs:68-83 | `v` is a `7n`-bit signed number for `n` the length of its signed encoding, and the encoding's payload is the pattern of `v` |
| LebSpec.EncodeSFits | src/leb128.rs:75 | the signed encoder stops as soon as the value fits: `k` groups suffice for a `7k`-bit signed number |
| LebSpec.EncodeSSizes | src/leb128.rs:68-83 | an `i32` takes 1 to 5 bytes, and at most 4 exactly when it lies in [-2^27, 2^27) |
| LebSpec.DrainSignedRoundTrip | src/leb128.rs:27-83 | `decode_signed_leb128` recovers every `v` in [-2^27, 2^27) from its signed encoding followed by anything, with the encoding's length |
| LebSpec.SignedDecodesPattern | src/leb128.rs:27-50 | any terminated sequence of at most four groups whose payload is the pattern of `v` decodes to `v` |
| LebSpec.DrainSignedWidePanics | src/leb128.rs:46 | every other `i32` is written with five bytes, and `decode_signed_leb128` panics on them (shift right by 34 of an `i32`) |
| LebSpec.DrainSignedCounterexample | src/leb128.rs:46 | 2^27 is written `80 80 80 C0 00`; the decoder as written panics on it and the corrected one returns 2^27 with 5 bytes |
| LebSpec.DrainSignedIntendedRoundTrip | src/leb128.rs:27-83 | the corrected decoder recovers every `i32` from its signed encoding |
| LebSpec.IntendedDecodesPattern | src/leb128.rs:27-50 | the corrected decoder reads any terminated sequence of at most five groups whose payload is the pattern of `v` as `v` |
| LebSpec.FiveGroupsWrap | src/leb128.rs:35 | the low 32 bits of the 35-bit pattern of an `i32` are its own pattern |
| LebSpec.KnownUnsignedDecodes | src/parser.rs:568-583 | `[229,142,38,…]` decodes to `(624485, 3)` and the non-minimal `[0x80,0x80,0xC0,0x00,…]` to `(1048576, 4)` |
| LebSpec.KnownSignedDecode | src/parser.rs:585-592 | `[127,…]` decodes to `(-1, 1)` |
| Leb128.DecodeUnsignedLeb128 | src/leb128.rs:5-25 | the loop panics and returns as the unsigned decoder says, and leaves the input minus the consumed bytes |
| Leb128.DecodeSignedLeb128 | src/leb128.rs:27-50 | the loop and the sign extension compute `DrainSigned32` (as written), and leave the input minus the consumed bytes |
| Leb128.DecodeSignedLeb128Intended | src/leb128.rs:27-50 | the corrected loop computes `DrainSigned32Intended` |
| Leb128.IntendedAgrees | src/leb128.rs:46-48 | the corrected and the written decoder agree on every input whose number is not five bytes long |
| Leb128.DrainSignedEmpty | src/leb128.rs:33 | input that ends inside a number panics at `bytes[0]` |
| Leb128.DrainSignedOverflow | src/leb128.rs:42-44 | a fifth byte with continuation bit panics with "signed LEB128 overflow" |
| Leb128.DrainSignedFive | src/leb128.rs:46 | a terminated five-byte number panics at the shift |
| Leb128.EncodeU32ToLeb128 | src/leb128.rs:52-66 | the loop builds the unsigned encoding |
| Leb128.EncodeI32ToLeb128 | src/leb128.rs:68-83 | the loop builds the signed encoding |
| Leb128.RoundTripUnsigned | src/leb128.rs:5-66 | encode then decode returns the value, the encoding's length and the untouched rest of the vector |
| UtilLeb.ReadUnsignedLeb128 | src/util/leb.rs:3-22 | the `for` loop over the unmodified slice computes the slice reader's result |
| UtilLeb.ReadSignedLeb128 | src/util/leb.rs:35-57 | the `for` loop and the sign extension compute the signed slice reader's result, including the underflow on an empty slice |
| Buffers.Buffer.constructor | src/buffer.rs:7-9 | a new buffer is empty |
| Buffers.Buffer.WriteU8 | src/buffer.rs:11-13 | one byte is appended and the earlier bytes stay |
| Buffers.Buffer.WriteBytes | src/buffer.rs:15-17 | the argument is appended in order |
| Buffers.Buffer.WriteU32 | src/buffer.rs:19-34 | the unsigned LEB128 of the value is appended |
| Buffers.Buffer.Clear | src/buffer.rs:36-38 | the buffer is empty afterwards |
| Buffers.WriteU32Vectors | src/buffer.rs:47-135 | the encodings the tests expect, 0 → `00` up to 65536 → `80 80 04` |
| Buffers.WriteThenRead | src/buffer.rs:47-135 | writing `v` into a buffer and reading it back with `Parser::read_u32` gives `v` and its encoded length (1 exactly when `v < 128`), and drains the buffer |
| OldReader.WasmBinaryReader.constructor | old/src/reader.rs:29-32 | the buffer is the given bytes and `pc` is 0 |
| OldReader.WasmBinaryReader.New | old/src/reader.rs:15-33 | with a module the reader holds it at `pc == 0`; with neither path nor module it panics |
| OldReader.WasmBinaryReader.ReadHeader | old/src/reader.rs:35-38 | returns `buffer[pc..pc+8]` (a panic past the end), advances `pc` by 8 and leaves the buffer alone |
| OldReader.WasmBinaryReader.ReadNextByte | old/src/reader.rs:40-47 | returns `Some(buffer[pc])` while `pc < len` and `None` after, and advances `pc` by 1 either way |
| OldReader.WasmBinaryReader.ReadBytes | old/src/reader.rs:49-52 | returns `buffer[pc..pc+n]` (a panic past the end) and advances `pc` by `n` |
| OldReader.WasmBinaryReader.ReadUnsignedLeb128 | old/src/reader.rs:54-74 | returns the cursor reader's value and count for the bytes at `pc`, advances `pc` by exactly the count, and panics past 32 bits |
| OldReader.WasmBinaryReader.ReadSignedLeb128 | old/src/reader.rs:76-99 | returns the signed cursor reader's value, sign extended from bit `7*count-1`, and advances `pc` by the count |
| OldReader.CursorSignedAt | old/src/reader.rs:92-96 | on a number that ends at byte `e`, the signed reader returns the sign extension of its payload from `7*(e+1)` bits |
| Reader.WasmBinaryReader.constructor | src/reader.rs:30-33 | the buffer is the given bytes and `pc` is 0 |
| Reader.WasmBinaryReader.New | src/reader.rs:15-34 | with a module the reader holds it at `pc == 0`; with neither it panics |
| Reader.WasmBinaryReader.ReadHeader | src/reader.rs:36-39 | the same slice and `pc` advance as the old reader |
| Reader.WasmBinaryReader.ReadNextByte | src/reader.rs:41-48 | the same byte or `None` and `pc` advance as the old reader |
| Reader.WasmBinaryReader.ReadBytes | src/reader.rs:50-53 | the same slice and `pc` advance as the old reader |
| Reader.WasmBinaryReader.ReadUnsignedLeb128 | src/reader.rs:55-75 | the same value and count as the old reader; `pc` advances by the count and the read panics past 32 bits |
| Reader.WasmBinaryReader.ReadSignedLeb128 | src/reader.rs:77-99 | the loop that never advances `pc` computes `StuckSigned`, and it changes no field |
| ReaderSpec.Rest | src/reader.rs:41-48 | the bytes from `pc` on, or nothing once `pc` has run past the end |
| ReaderSpec.ByteAt | old/src/reader.rs:40-47 | the byte at `pc` exists exactly when `pc < len` |
| ReaderSpec.Slice | old/src/reader.rs:49-52 | the slice exists exactly when `pc + size <= len`, and then has length `size` and equals `buffer[pc..pc+size]` |
| ReaderSpec.Usize | src/reader.rs:77-99 | the `usize` bit pattern of a signed value keeps it modulo 2^64 |
| ReaderSpec.StuckSignedSpec | src/reader.rs:77-99 | the private signed reader succeeds exactly when `buffer[pc-1]` has bit 7 clear; it then reads one byte and returns the `usize` pattern of the old signed reader's value at `pc-1`, and otherwise it panics on the fifth turn |
| ReaderSpec.StuckSignedLocal | src/reader.rs:82-84 | the private signed reader depends on nothing but `buffer[pc-1]` |
| Instructions.Discriminant | src/instruction.rs:1-163 | every variant's discriminant is an opcode byte |
| Instructions.FromDiscriminant | src/instruction.rs:165-326 | `Instruction::from` returns every variant from its own discriminant |
| Instructions.FromByteSpec | src/instruction.rs:165-326 | `from` succeeds exactly on 0x00-0x05, 0x0b-0x11, 0x1a-0x1b, 0x20-0x24 and 0x28-0xa6, and then returns the variant whose discriminant is the byte; every other byte panics |
| Instructions.DiscriminantInjective | src/instruction.rs:1-163 | distinct variants have distinct discriminants |
| Instructions.FromByteInjective | src/instruction.rs:167-324 | distinct accepted bytes decode to distinct variants |
| Instructions.KnownOpcodes | src/instruction.rs:168-324 | fixed entries of the table, among them 0x02 `Block`, 0x0b `End`, 0x41 `I32Const` and 0x6a `I32Add`, and the panics on 0x06, 0x1c and 0xa7 |
| Types.NumberTypeCode | src/types.rs:14-18 | the bytes of the number types lie in 0x7C-0x7F |
| Types.NumberTypeFrom | src/types.rs:10-22 | `NumberType::from` accepts exactly 0x7C-0x7F |
| Types.NumberTypeRoundTrip | src/types.rs:10-22 | 0x7F, 0x7E, 0x7D and 0x7C decode to `I32`, `I64`, `F32` and `F64` and every accepted byte is the code of what it decodes to |
| Types.NumberTypeInjective | src/types.rs:14-19 | distinct accepted bytes decode to distinct number types |
| Types.VectorTypeFrom | src/types.rs:29-38 | `VectorType::from` accepts only 0x7F, as `V128` |
| Types.ReferenceTypeCode | src/types.rs:49-52 | the bytes of the reference types are 0x70 and 0x6F |
| Types.ReferenceTypeFrom | src/types.rs:45-55 | `ReferenceType::from` accepts exactly 0x70 and 0x6F |
| Types.ReferenceTypeRoundTrip | src/types.rs:45-55 | 0x70 is `FunctionRef`, 0x6F is `ExternRef`, and each decodes back to its byte |
| Types.BlockTypeCode | src/types.rs:71-83 | a block type's byte is 0x40 or a number type's |
| Types.BlockTypeFrom | src/types.rs:71-83 | `BlockType::from` accepts exactly 0x40 and 0x7F |
| Types.BlockTypeRoundTrip | src/types.rs:71-83 | 0x40 is `Empty` and 0x7F is `ValType(NumberType(I32))`; the block type codes of `i64`, `f32` and `f64` panic |
| Nodes.ValidateHeader | src/node.rs:10-15 | `FunctionTypeNode::validate_header` returns normally exactly on 0x60 and panics on every other byte |
| Nodes.ExportTypeDiscriminant | src/node.rs:56-62 | the export kind's discriminant is a kind byte (0 to 3) |
| Nodes.ExportTypeFrom | src/node.rs:64-74 | `ExportType::from` accepts only 0x00, as `Function`; 1 to 3 panic like every other byte |
| Nodes.ExportTypeRoundTrip | src/node.rs:56-74 | `Function` comes back from its discriminant 0x00, and an accepted byte is the discriminant of its result |
| Section.Discriminant | src/module/section.rs:1-7 | the section ids are 0, 1, 3, 7 and 10 |
| Section.FromUsize | src/module/section.rs:10-19 | `from_usize` accepts exactly 0, 1, 3, 7 and 10, never returns `None`, and panics otherwise |
| Section.FromUsizeRoundTrip | src/module/section.rs:1-19 | `from_usize` maps 0, 1, 3, 7, 10 to `Custom`, `Type`, `Function`, `Export`, `Code`, and the result's discriminant is the input |
| Section.ValidateHeader | src/module/section.rs:24-29 | `TypeSection::validate_header` accepts only 0x60 |
| OldSection.Discriminant | old/src/module/section.rs:1-10 | the old section ids are 0, 1, 2, 3, 6, 7, 8 and 10 |
| OldSection.FromUsize | old/src/module/section.rs:13-25 | the old `from_usize` accepts exactly those ids, never returns `None`, and reaches `todo!` on 4, 5, 9, 11 and every other id |
| OldSection.FromUsizeRoundTrip | old/src/module/section.rs:1-25 | each accepted id gives `Some` of the variant whose discriminant it is |
| OldSection.ValidateTypeEntryHeader | old/src/module/section.rs:30-35 | accepts only 0x60 |
| OldSection.KindDiscriminant | old/src/module/section.rs:38-43 | the external kinds are 0 to 3 |
| OldSection.KindFromUsize | old/src/module/section.rs:46-54 | `ExternalKind::from_usize` accepts exactly 0 to 3 and panics otherwise |
| OldSection.KindFromUsizeRoundTrip | old/src/module/section.rs:38-54 | 0 to 3 are `Func`, `Table`, `LinearMemory`, `GlobalVariable`, each the variant whose discriminant is the input |
| NumberTypes.Code | src/module/number.rs:12-16 | the bytes of the number types lie in 0x7C-0x7F |
| NumberTypes.FromByte | src/module/number.rs:11-23 | `NumberType::from_byte` never returns `None`: 0x7C-0x7F give the type with that code, and any other byte gives `Int32` |
| NumberTypes.FromByteRoundTrip | src/module/number.rs:11-16 | 0x7F, 0x7E, 0x7D, 0x7C give `Int32`, `Int64`, `Float32`, `Float64`; every type comes back from its own code |
| NumberTypes.I32 | src/module/number.rs:48-50 | `Number::i32()` is 32 bits wide and of type `Int32` |
| NumberTypes.I64 | src/module/number.rs:52-54 | `Number::i64()` is 64 bits wide and of type `Int64` |
| NumberTypes.F32 | src/module/number.rs:56-58 | `Number::f32()` is 32 bits wide and of type `Float32` |
| NumberTypes.F64 | src/module/number.rs:60-62 | `Number::f64()` is 64 bits wide and of type `Float64` |
| NumberTypes.DecodeType | src/module/number.rs:25-32 | `decode_type` never panics; its descriptor has the type `from_byte` reads and that type's width |
| NumberTypes.TypeName | src/module/number.rs:64-66 | `inspect` is the type's non-empty variant name |
| NumberTypes.TypeNameInjective | src/module/number.rs:64-66 | different types inspect differently |
| ValueTypes.Code | src/module/value.rs:10-14 | the bytes of the value types lie in 0x7C-0x7F |
| ValueTypes.FromByte | src/module/value.rs:9-17 | `ValueType::from_byte` accepts exactly 0x7C-0x7F and panics otherwise, so it never returns `None`; the result's code is the byte |
| ValueTypes.FromByteRoundTrip | src/module/value.rs:9-17 | 0x7F, 0x7E, 0x7D, 0x7C give `Int32`, `Int64`, `Float32`, `Float64` |
| ValueTypes.I32 | src/module/value.rs:33-35 | `Value::i32()` is 32 bits of `Int32` |
| ValueTypes.I64 | src/module/value.rs:37-39 | `Value::i64()` is 64 bits of `Int64` |
| ValueTypes.F32 | src/module/value.rs:41-43 | `Value::f32()` is 32 bits of `Float32` |
| ValueTypes.F64 | src/module/value.rs:45-47 | `Value::f64()` is 64 bits of `Float64` |
| FunctionTypes.Default | src/module/function_type.rs:8-15 | the default signature has no parameters and no results |
| FunctionTypes.Names | src/module/function_type.rs:18-23 | the parameters' `inspect` strings, one per parameter and in order |
| FunctionTypes.InspectDefault | src/module/function_type.rs:17-32 | the empty signature inspects as `() => ()` |
| FunctionTypes.InspectLastParameter | src/module/function_type.rs:17-32 | a parameter added last is printed last, after `, ` unless it is the only one: order is preserved |
| Functions.New | src/module/function.rs:24-31 | `Function::new` keeps the signature, ignores the index, and starts with no locals, no bytecode and no blocks |
| Functions.Default | src/module/function.rs:16-21 | `default()` is `new(FunctionType::default(), None)` |
| Functions.CreateLocalVariables | src/module/function.rs:32-43 | one number per declared local, in order, each the zero of that local's type |
| Functions.TypeNames | src/module/function.rs:48-52 | the locals' `inspect` strings, one per local and in order |
| Functions.InspectShowsLength | src/module/function.rs:44-55 | the string shows the bytecode length: two functions with the same signature and locals inspect alike exactly when their bytecodes are equally long |
| Functions.NewBlock | src/module/function.rs:67-80 | `Block::new` keeps instruction, arity and start; with no end the end is the start, otherwise the given end |
| Functions.InspectBlockShowsEnd | src/module/function.rs:82-87 | two blocks that differ at most in their end inspect alike exactly when their ends are equal |
| Strings.Join | src/module/function_type.rs:23 | `join` of nothing is empty and of one part is that part |
| Strings.JoinAppend | src/module/function_type.rs:18-29 | a part added last comes last, after one separator |
| Strings.JoinLength | src/module/function_type.rs:18-29 | the joined string is the parts plus one separator between neighbours, and nothing else |
| Strings.NatToString | src/module/function.rs:53 | `{}` of a count is non-empty decimal digits without a leading zero |
| Strings.NatToStringRoundTrip | src/module/function.rs:53 | reading the printed digits back gives the count |
| Strings.NatToStringInjective | src/module/function.rs:53 | different counts print differently |
| ModuleHeader.Default | src/module.rs:10-17 | the default module has magic `\x00\x61\x73\x6D` and version 1 |
| ModuleHeader.VersionBytes | src/module.rs:20-26 | `None` and `Some(1)` both give `\x01\x00\x00\x00`; any other version panics |
| ModuleHeader.Header | src/module.rs:28-30 | the header is the magic followed by the version bytes, and panics where those do |
| ModuleHeader.ValidHeader | src/module.rs:32-34 | `valid_header(h)` holds exactly when `h` is the module's magic followed by `\x01\x00\x00\x00`; a module of another version panics |
| ModuleHeader.DefaultValidHeader | src/module.rs:10-34 | on a default module `valid_header(h)` holds exactly for the eight characters 00 61 73 6D 01 00 00 00 |
| OldModule.Default | old/src/module.rs:26-38 | the standard magic, version 1, and no functions, function types, imports, exports or globals |
| OldModule.VersionBytes | old/src/module.rs:55-61 | `None` and `Some(1)` give the version-1 bytes; every other version reaches `unimplemented!` |
| OldModule.Header | old/src/module.rs:63-65 | the magic followed by the version bytes |
| OldModule.ValidHeader | old/src/module.rs:67-69 | exact equality with the module's own header |
| OldModule.SameHeaderCheck | old/src/module.rs:26-69 | the old default module accepts exactly the headers the module of src/module.rs accepts |
| ModuleNodes.ValidateMagic | src/module/mod.rs:36-42 | true exactly for `00 61 73 6D`; it panics otherwise |
| ModuleNodes.ValidateVersion | src/module/mod.rs:44-50 | true exactly for `01 00 00 00`; it panics otherwise |
| ModuleNodes.EmitHeaderFirst | src/module/mod.rs:52-67 | `emit` writes the magic then the version as the first 8 bytes, then the encoded type section when there is one and nothing else |
| ModuleNodes.ModuleNode.constructor | src/module/mod.rs:25-33 | the module stores magic and version, has no sections and an empty buffer |
| ModuleNodes.ModuleNode.New | src/module/mod.rs:22-34 | `new` succeeds exactly for a valid magic and version, panicking on the magic first, and then builds that module |
| ModuleNodes.ModuleNode.SetTypeSection | src/module/mod.rs:15 | sets the type section and nothing else |
| ModuleNodes.ModuleNode.SetFunctionSection | src/module/mod.rs:16 | sets the function section and nothing else |
| ModuleNodes.ModuleNode.SetExportSection | src/module/mod.rs:17 | sets the export section and nothing else |
| ModuleNodes.ModuleNode.SetCodeSection | src/module/mod.rs:18 | sets the code section and nothing else |
| ModuleNodes.ModuleNode.Emit | src/module/mod.rs:52-68 | `emit` appends to the buffer without clearing it |
| ParserSpec.ReadU8 | src/parser.rs:543-547 | `read_u8` succeeds exactly on a non-empty vector and splits off its first byte |
| ParserSpec.ReadBytes | src/parser.rs:557-561 | `read_bytes(size)` succeeds exactly when `size` bytes are there, and returns them with the rest |
| ParserSpec.ReadU32 | src/parser.rs:549-551 | `read_u32` succeeds exactly when the unsigned decoder does, with its value and length, and leaves the bytes after the encoding |
| ParserSpec.ReadI32 | src/parser.rs:553-555 | `read_i32` succeeds exactly when `decode_signed_leb128` as written does, with its value and length, and leaves the bytes after the encoding |
| ParserSpec.NumberTypeOf | src/parser.rs:532-535 | `number_type` succeeds exactly when a byte is there and `NumberType::from` accepts it |
| ParserSpec.ValueTypeOf | src/parser.rs:524-527 | one element of `result_types` is the number type read, as a value type |
| ParserSpec.BlockTypeOf | src/parser.rs:537-541 | `block_type` succeeds exactly when a byte is there and `BlockType::from` accepts it |
| ParserSpec.Many | src/parser.rs:104-109 | a `for _ in 0..count` loop that completes has pushed exactly `count` elements |
| ParserSpec.TypeIndex | src/parser.rs:119-122 | one type index is a `read_u32` value |
| ParserSpec.Expression | src/parser.rs:212-244 | `expression` consumes at least one byte |
| ParserSpec.Instruction | src/parser.rs:246-249 | `instruction` consumes at least its opcode byte |
| ParserSpec.InstructionArm | src/parser.rs:250-500 | an arm never consumes more than the bytes after the opcode |
| ParserSpec.IfArm | src/parser.rs:273-304 | the `If` arm consumes at least one byte of what follows the opcode |
| ParserSpec.Section | src/parser.rs:56-97 | `section` consumes at least one byte |
| ParserSpec.Header | src/parser.rs:49-54 | `module_header` succeeds exactly on eight or more bytes and splits them into four, four and the rest |
| Parsers.ReadU32 | src/parser.rs:549-551 | the method agrees with `ParserSpec.ReadU32`, panics included |
| Parsers.ReadI32 | src/parser.rs:553-555 | the method agrees with `ParserSpec.ReadI32`, panics included |
| Parsers.ValueTypes | src/parser.rs:523-528 | the loop of `result_types` reads what `Many` of `ValueTypeOf` reads |
| Parsers.ResultTypes | src/parser.rs:519-530 | `result_types` agrees with its specification function |
| Parsers.FunctionType | src/parser.rs:503-516 | `function_type` agrees with its specification function, header check included |
| Parsers.FunctionTypes | src/parser.rs:104-109 | the loop of `type_section` reads what `Many` of `FunctionType` reads |
| Parsers.TypeSection | src/parser.rs:100-112 | `type_section` agrees with its specification function |
| Parsers.TypeIndexes | src/parser.rs:119-122 | the loop of `function_section` reads what `Many` of `TypeIndex` reads |
| Parsers.FunctionSection | src/parser.rs:115-125 | `function_section` agrees with its specification function |
| Parsers.ExportDesc | src/parser.rs:149-157 | `export_desc` agrees with its specification function |
| Parsers.Export | src/parser.rs:133-143 | one export reads name length, name and descriptor in that order |
| Parsers.Exports | src/parser.rs:132-144 | the loop of `export_section` reads what `Many` of `Export` reads |
| Parsers.ExportSection | src/parser.rs:128-147 | `export_section` agrees with its specification function |
| Parsers.LocalEntry | src/parser.rs:199-210 | `local_entry` agrees with its specification function |
| Parsers.LocalEntries | src/parser.rs:180-185 | the loop of `code` over the local entries reads what `Many` of `LocalEntry` reads |
| Parsers.Code | src/parser.rs:172-197 | `code` agrees with its specification function |
| Parsers.Codes | src/parser.rs:164-167 | the loop of `code_section` reads what `Many` of `Code` reads |
| Parsers.CodeSection | src/parser.rs:160-170 | `code_section` agrees with its specification function |
| Parsers.Expression | src/parser.rs:212-244 | the loop of `expression` agrees with `ParserSpec.Expression` |
| Parsers.Instruction | src/parser.rs:246-249 | `instruction` agrees with `ParserSpec.Instruction` |
| Parsers.InstructionArm | src/parser.rs:250-500 | the `match` of `instruction` agrees with `ParserSpec.InstructionArm` |
| Parsers.IfInstruction | src/parser.rs:273-304 | the `If` arm agrees with `ParserSpec.IfArm` |
| Parsers.Section | src/parser.rs:56-97 | `section` stores into the module node exactly what `ParserSpec.Section` returns, leaves magic and version alone, and returns the same rest or panic |
| Parsers.Parse | src/parser.rs:32-47 | `parse` succeeds exactly when `ParserSpec.Parse` does, with the same panic; the node is new and holds the header and sections it computes |
| ParserProperties.ReadU32RoundTrip | src/parser.rs:549-551 | `read_u32` reads back every `u32` the unsigned encoder writes, with its length, and leaves what follows |
| ParserProperties.ReadI32RoundTrip | src/parser.rs:553-555 | `read_i32` reads back every `i32` in [-2^27, 2^27) the signed encoder writes, with its length, and leaves what follows; on every wider `i32` it panics at the sign extension |
| ParserProperties.I32ConstRead | src/parser.rs:369-371 | an `i32.const` instruction (0x41) reads its immediate back when it lies in [-2^27, 2^27), and panics at the sign extension for every wider `i32` |
| ParserProperties.KnownReads | src/parser.rs:568-592 | the three decodes of the module's tests, with values, lengths and rests |
| ParserProperties.ManySnoc | src/parser.rs:104-109 | the loops read in input order: element `n + 1` is read from what the first `n` left and is appended after them |
| ParserProperties.SectionCounts | src/parser.rs:100-170 | each section holds exactly as many entries as its count |
| ParserProperties.ReadPrefixes | src/parser.rs:543-561 | `read_u8` and `read_bytes` take their bytes off the front |
| ParserProperties.ExpressionShape | src/parser.rs:212-244 | an expression starts with its seed, ends in its only `End` or `Else` after the seed, and the count grows by one per instruction read |
| ParserProperties.IfShape | src/parser.rs:273-304 | an `Else` ending the then-part is moved to start the else-part; an `End` stays and there is no else-part; no other `End`/`Else` occurs in either part |
| ParserProperties.UnparsedOpcodes | src/parser.rs:250-500 | an opcode `Instruction::from` accepts but no arm parses reaches `todo!`, and every instruction read has an arm |
| ParserProperties.UnsupportedSections | src/parser.rs:64-95 | only type, function, export and code sections parse; the other kinds panic once framed |
| ParserProperties.SectionConsumes | src/parser.rs:56-60 | `section` removes the id byte, the size and exactly `size` more bytes |
| ParserProperties.ParseHeader | src/parser.rs:32-35 | `parse` accepts only the standard magic and version, keeps them, and names the panic for each wrong half |
| ParserProperties.ParseHeaderOnly | src/parser.rs:37-39 | a vector that is only the header parses to a module without sections |
| ParserProperties.GetLocalRead | src/parser.rs:329-334 | `local.get x` with a one-byte index reads as `GetLocal(x)` |
| ParserProperties.SimpleReads | src/parser.rs:309-429 | `i32.add` and `end` take no immediates |
| ParserProperties.ExpressionStep | src/parser.rs:223-241 | one turn of `expression`: a block end stops it, anything else is appended and the loop continues |
| ParserProperties.AddBody | src/parser.rs:212-244 | the body `local.get 0; local.get 1; i32.add; end` parses to those four instructions |
| DecoderSpec.Unsigned | src/decoder.rs:152-175 | `read_unsigned_leb128` consumes at least one byte |
| DecoderSpec.NumberOf | src/decoder.rs:132-141 | `decode_type` succeeds exactly when a byte is left, and consumes that one byte |
| DecoderSpec.ManyShrinks | src/decoder.rs:100-104 | a loop of reads that never grow the input never grows it either |
| DecoderSpec.Signature | src/decoder.rs:97-116 | one signature consumes at least one byte |
| DecoderSpec.TypeSection | src/decoder.rs:84-118 | `decode_type_section` consumes at least one byte |
| DecoderSpec.FunctionEntries | src/decoder.rs:125-129 | the loop of `decode_function_section` never grows the input |
| DecoderSpec.FunctionSection | src/decoder.rs:120-130 | `decode_function_section` consumes at least one byte |
| DecoderSpec.Discard | src/decoder.rs:143-150 | `discard_section(size)` succeeds exactly when `size` bytes are left, and drops exactly those |
| DecoderSpec.SectionBody | src/decoder.rs:43-71 | one section never grows the input |
| Decoders.Module.constructor | src/decoder.rs:37 | the module starts with no function types and no functions |
| Decoders.EntriesTurn | src/decoder.rs:125-129 | a turn of the function loop pushes `Function::new` of function type `i` and keeps the loop's invariant |
| Decoders.EntriesFail | src/decoder.rs:126-127 | a turn that panics, on the read or on the index, ends the loop with that panic |
| Decoders.SectionsTurn | src/decoder.rs:40-75 | one turn of `decode_section`'s loop is the section the id byte names |
| Decoders.Decoder.constructor | src/decoder.rs:20-24 | a decoder starts at the first byte of the module |
| Decoders.Decoder.ReadByte | src/decoder.rs:38-42 | `read_exact` of one byte returns the next byte and advances, or fails and reads nothing |
| Decoders.Decoder.ReadUnsignedLeb128 | src/decoder.rs:152-175 | the method reads what `DecoderSpec.Unsigned` reads, panics included, and leaves the reader where it says |
| Decoders.Decoder.DecodeType | src/decoder.rs:132-141 | the method reads what `DecoderSpec.NumberOf` reads |
| Decoders.Decoder.ReadTypes | src/decoder.rs:100-115 | a parameter or result loop reads `count` types, in order |
| Decoders.Decoder.DecodeSignature | src/decoder.rs:97-115 | one signature is read as `DecoderSpec.Signature` says, the one-result assertion included |
| Decoders.Decoder.PushSignature | src/decoder.rs:94-117 | one turn of the signature loop pushes the signature read onto the function types and keeps the loop's invariant |
| Decoders.Decoder.DecodeSignatures | src/decoder.rs:94-117 | the signature loop appends the signatures read, in order, and leaves the functions alone |
| Decoders.Decoder.DecodeTypeSection | src/decoder.rs:84-118 | `decode_type_section` changes the module and the reader as `DecoderSpec.TypeSection` says |
| Decoders.Decoder.PushFunction | src/decoder.rs:125-129 | one turn of the function loop pushes the function of type `i` and keeps the loop's invariant |
| Decoders.Decoder.DecodeFunctions | src/decoder.rs:125-129 | the function loop appends the functions `FunctionEntries` gives, and leaves the function types alone |
| Decoders.Decoder.DecodeFunctionSection | src/decoder.rs:120-130 | `decode_function_section` changes the module and the reader as `DecoderSpec.FunctionSection` says |
| Decoders.Decoder.DiscardSection | src/decoder.rs:143-150 | `discard_section` drops what `DecoderSpec.Discard` drops |
| Decoders.Decoder.DecodeSectionBody | src/decoder.rs:44-71 | one section changes the module and the reader as `DecoderSpec.SectionBody` says |
| Decoders.Decoder.DecodeSection | src/decoder.rs:36-82 | `decode_section` returns what `DecoderSpec.DecodeSection` does, and on success has read every byte |
| DecoderProperties.UnsignedRoundTrip | src/decoder.rs:152-175 | `read_unsigned_leb128` reads back the unsigned encoding of every `u32` and leaves what follows |
| DecoderProperties.UnsignedAgreesWithCursor | src/decoder.rs:152-175 | the decoder reads the same number as the cursor reader of old/src/reader.rs, and runs out of bytes exactly when that reader does |
| DecoderProperties.SignaturesHaveOneResult | src/decoder.rs:106-109 | every signature read has exactly one result |
| DecoderProperties.TypeSectionAppends | src/decoder.rs:84-118 | the type section checks the 0x60 byte, leaves the functions alone and appends `count` one-result function types after the old ones |
| DecoderProperties.EntriesFollowTypes | src/decoder.rs:125-129 | function `i + k` gets function type `i + k`, and the loop ends without panic only when enough function types exist |
| DecoderProperties.FunctionSectionAppends | src/decoder.rs:120-130 | the function section appends `count` functions, the `k`-th new one typed by function type `k`, and leaves the types alone |
| DecoderProperties.SectionKeepsWellFormed | src/decoder.rs:43-71 | each section keeps every function typed by a one-result function type |
| DecoderProperties.SectionsKeepWellFormed | src/decoder.rs:40-75 | every run of sections keeps the module well formed |
| DecoderProperties.DecodedWellFormed | src/decoder.rs:36-82 | the module `decode_section` fills is well formed |
| DecoderProperties.SkippedSection | src/decoder.rs:48-70 | a custom, export or code section is skipped by exactly its size |
| DecoderProperties.UnknownSection | src/decoder.rs:47 | an unknown section id panics |
| DecoderProperties.OneByte | src/decoder.rs:158-166 | a byte below 128 is a whole one-byte number |
| DecoderProperties.ManyOne | src/decoder.rs:100-104 | a loop of one turn reads one element |
| DecoderProperties.OneI32 | src/decoder.rs:132-141 | 0x7F decodes to the `i32` number type |
| DecoderProperties.OneSignature | src/decoder.rs:84-118 | a type section with one `[i32] -> [i32]` signature appends that function type |
| DecoderProperties.TypesRunOut | src/decoder.rs:134 | fewer bytes than types make `read_exact` fail |
| DecoderProperties.NoParameters | src/decoder.rs:97-115 | the signature `[] -> [i32]` |
| DecoderProperties.FormByteAsCount | src/decoder.rs:99 | a form byte read as a parameter count asks for 96 types and runs out |
| DecoderProperties.TwoSignatures | src/decoder.rs:90-94 | with one form byte per section, a second signature with its own form byte panics |
| DecoderProperties.FunctionsBeforeTypes | src/decoder.rs:127 | a function section before any type section panics on the index |
| DecoderProperties.FunctionKind | src/decoder.rs:56 | id 3 decodes a function section after the size |
| DecoderProperties.TypeKind | src/decoder.rs:55 | id 1 decodes a type section after the size |
| DecoderProperties.SectionThen | src/decoder.rs:40-75 | a section that decodes hands its module to the next one |
| DecoderProperties.TypeSectionOfOne | src/decoder.rs:40-118 | a six-byte type section holding `[i32] -> [i32]` |
| DecoderProperties.OneFunction | src/decoder.rs:120-130 | a function-section body declaring one function of type 0 |
| DecoderProperties.FunctionSectionOfOne | src/decoder.rs:40-130 | a two-byte function section declaring one function of type 0 |
| DecoderProperties.SmallModule | src/decoder.rs:36-82 | a type section followed by a function section decodes without panic |
| Instances.InstancesPanicStays | src/instance.rs:36-48 | once a type index panics the whole loop panics the same way |
| Instances.ExportPanicStays | src/instance.rs:55-75 | once an export panics the whole loop panics the same way |
| Instances.InstancesOf | src/instance.rs:36-48 | the loop of `instantiate_functions` builds what `Instances` says |
| Instances.InstantiateFunctions | src/instance.rs:26-51 | `instantiate_functions` agrees with its specification, missing sections included |
| Instances.ExportsOf | src/instance.rs:55-75 | the loop of `instantiate_exports` builds what `ExportMap` says |
| Instances.InstantiateExports | src/instance.rs:53-77 | `instantiate_exports` agrees with its specification, a missing section included |
| Instances.New | src/instance.rs:16-24 | `Instance::new` agrees with its specification, functions before exports |
| Instances.InstancesFollowIndexes | src/instance.rs:36-48 | the loop succeeds exactly when every type index is inside both lists, and then gives one instance per index, in order |
| Instances.ExportMapContents | src/instance.rs:61-73 | the map holds exactly the function exports' names, each mapped to its own index and name |
| Instances.ExportMapDistinct | src/instance.rs:63-69 | the map is built without panic exactly when no two function exports share a name |
| StackSpec.SwapRemove | old/src/stack.rs:87 | `swap_remove(i)` is one shorter, keeps every other slot and puts the old last element at `i` |
| StackSpec.StoredNumbers | old/src/stack.rs:22-41 | a negative `Int32(v)` is stored as `Uint32(2^32 + v)`, a negative `Int64` overflows and panics, every other number is stored as it is |
| StackSpec.RestoredAsWrittenNumbers | old/src/stack.rs:53-68 | only `u32::MAX` and `u64::MAX` are converted when popped; `u32::MAX` pops as -1 |
| StackSpec.RestoredAsWrittenUint64Counterexample | old/src/stack.rs:63-65 | as written, `u64::MAX` pops as `Int64(-4294967297)` where `u32::MAX` pops as -1 |
| StackSpec.RestoredNumbers | old/src/stack.rs:58-67 | corrected: both all-ones patterns pop as -1, everything else as the code computes it |
| StackSpec.PushThenPop | old/src/stack.rs:22-75 | a push then a pop restores the stack and returns the number, except that a negative `i32` other than -1 comes back unsigned, `u32::MAX` as -1 and `u64::MAX` as `Int64(-4294967297)` |
| StackSpec.PopValueOutcomes | old/src/stack.rs:53-75 | `pop_value` is `None` exactly on an empty stack, panics exactly when the top is a frame or label, and otherwise removes just the top |
| StackSpec.PeekThenPop | old/src/stack.rs:98-105 | `peek` shows the stored number that `pop_value` returns after its conversion as written |
| StackSpec.PushFrameThenPop | old/src/stack.rs:43-130 | a pushed frame is the current frame, and popping it restores the stack |
| StackSpec.PushLabelThenPop | old/src/stack.rs:48-151 | a pushed label is at depth 0, older labels move one deeper, and `pop_last_label` removes it again |
| StackSpec.PopAllFromLabelCuts | old/src/stack.rs:77-80 | `pop_all_from_label(p)` succeeds exactly when `p` is within the stack and a label is recorded; it keeps `p` entries and drops one label position |
| StackSpec.PopLastLabelMovesTop | old/src/stack.rs:82-88 | `pop_last_label` moves the top entry into the label's slot and changes nothing else |
| StackSpec.NextOpcodeAdvances | old/src/stack.rs:107-117 | the next opcode is the byte at the counter, or none past the end; the counter always moves on by one |
| StackSpec.UpdateThenCurrentFrame | old/src/stack.rs:119-156 | the frame `update_current_frame` writes is the one `current_frame` returns, and the positions stay |
| StackSpec.PushesKeepConsistent | old/src/stack.rs:43-51 | pushing a frame or a label records where it sits |
| StackSpec.ValuesKeepConsistent | old/src/stack.rs:22-75 | pushing and popping numbers moves no frame and no label |
| StackSpec.InnermostBranchKeepsConsistent | old/src/stack.rs:77-80 | cutting back to the innermost label keeps the positions consistent |
| StackSpec.OuterBranchLeavesStaleLabel | old/src/stack.rs:77-80 | cutting back to an outer label drops only one label position and so leaves a stale one |
| StackSpec.PopLastLabelKeepsConsistent | old/src/stack.rs:82-88 | `pop_last_label` keeps the positions consistent when the label or a number is on top |
| StackSpec.PopCurrentFrameKeepsConsistent | old/src/stack.rs:90-96 | popping the current frame keeps the positions consistent when no label is above it |
| StackSpec.RepushableNumbers | old/src/stack.rs:22-75 | a popped number pushes back unchanged exactly when it is not a negative signed number and not `u64::MAX` |
| Stacks.Stack.constructor | old/src/stack.rs:14-20 | a new stack is empty |
| Stacks.Stack.PushValues | old/src/stack.rs:22-41 | `push_values` changes the stack as `StackSpec.PushValues` says, the panic included |
| Stacks.Stack.PushFrame | old/src/stack.rs:43-46 | `push_frame` changes the stack as `StackSpec.PushFrame` says |
| Stacks.Stack.PushLabel | old/src/stack.rs:48-51 | `push_label` changes the stack as `StackSpec.PushLabel` says |
| Stacks.Stack.PopValue | old/src/stack.rs:53-75 | `pop_value` returns and leaves what `StackSpec.PopValue` says |
| Stacks.Stack.PopAllFromLabel | old/src/stack.rs:77-80 | `pop_all_from_label` changes the stack as `StackSpec.PopAllFromLabel` says |
| Stacks.Stack.PopLastLabel | old/src/stack.rs:82-88 | `pop_last_label` changes the stack as `StackSpec.PopLastLabel` says |
| Stacks.Stack.PopCurrentFrame | old/src/stack.rs:90-96 | `pop_current_frame` changes the stack as `StackSpec.PopCurrentFrame` says |
| Stacks.Stack.Peek | old/src/stack.rs:98-105 | `peek` returns what `StackSpec.Peek` says and changes nothing |
| Stacks.Stack.NextOpcode | old/src/stack.rs:107-117 | `next_opcode` returns the opcode and the advanced frame `StackSpec.NextOpcode` gives |
| Stacks.Stack.CurrentFrame | old/src/stack.rs:119-130 | `current_frame` returns what `StackSpec.CurrentFrame` says |
| Stacks.Stack.CurrentBytecodes | old/src/stack.rs:132-137 | `current_bytecodes` returns what `StackSpec.CurrentBytecodes` says |
| Stacks.Stack.LabelPosition | old/src/stack.rs:139-141 | `label_position` returns what `StackSpec.LabelPosition` says |
| Stacks.Stack.GetLabel | old/src/stack.rs:143-151 | `get_label` returns what `StackSpec.GetLabel` says |
| Stacks.Stack.UpdateCurrentFrame | old/src/stack.rs:153-156 | `update_current_frame` changes the stack as `StackSpec.UpdateCurrentFrame` says |
| Frames.New | old/src/evaluator.rs:41 | a new frame runs `func` from its first opcode; its locals are the arguments, then one zero of each declared local type |
| Frames.LocalVar | src/structure/frame.rs:14-16 | `reference_local_var` succeeds exactly on an index inside the locals and returns that local |
| Frames.SetLocalVar | old/src/evaluator.rs:228 | assigning a local succeeds exactly on an index inside the locals and changes only that local |
| HandlerSpec.Reverse | old/src/evaluator.rs:445 | `reverse` keeps the length and puts element `i` at `|xs| - 1 - i` |
| HandlerSpec.BlockEntersLabel | old/src/evaluator.rs:102-121 | `block`/`loop` succeeds exactly when the opcode's position has a recorded block; it pushes that label and jumps past the block type |
| HandlerSpec.IfOnZero | old/src/evaluator.rs:124-142 | `if` on zero jumps past the block's end; on anything else it enters the block like `block` |
| HandlerSpec.BrTargets | old/src/evaluator.rs:159-185 | `br` jumps to a loop's start or past a block's end, cuts the stack back to the label, and keeps the top value when the block has a result |
| HandlerSpec.BrIfOnZero | old/src/evaluator.rs:188-198 | `br_if` on zero only reads its depth; on anything else it is `br` |
| HandlerSpec.LocalSetAndTee | old/src/evaluator.rs:226-244 | `local.set` stores the popped value and `local.tee` the top value into one local, changing no other |
| HandlerSpec.LocalGetPushes | old/src/evaluator.rs:216-223 | `local.get` pushes the local, and panics on an index past the locals |
| HandlerSpec.OperandsOrder | old/src/evaluator.rs:298-305 | the right operand is the top of the stack and the left one is under it |
| HandlerSpec.ComparisonsPush | old/src/evaluator.rs:297-336 | `i32.eq` and `i32.ge_u` replace the two operands by `Int32(1)` or `Int32(0)` |
| HandlerSpec.ArithmeticOrder | old/src/evaluator.rs:339-379 | `i32.add`, `i32.rem_u` and `i32.shl` apply their operator to left and right, in that order, and push the result |
| HandlerSpec.ShortStackPanics | old/src/evaluator.rs:298-305 | fewer than two entries make a binary operator panic |
| HandlerSpec.PopNumbersSucceeds | old/src/evaluator.rs:426-443 | popping `n` numbers succeeds exactly when the top `n` entries are numbers of the allowed kinds |
| HandlerSpec.PopNumbersTakesTop | old/src/evaluator.rs:426-443 | popping `n` numbers takes exactly the top `n` entries, topmost first |
| HandlerSpec.PushAllAppends | old/src/evaluator.rs:25-27 | pushing a list succeeds exactly when each number can be stored, and appends them in order |
| HandlerSpec.PushedOnTop | old/src/evaluator.rs:25-27 | pushed arguments that survive the sign conversion lie on top in order |
| HandlerSpec.ArgumentsRoundTrip | old/src/evaluator.rs:424-447 | `get_args` gives back, in order, the arguments `invoke` pushed, and leaves the stack as before |
| HandlerSpec.NegativeArgumentPanics | old/src/evaluator.rs:438-442 | a negative `i32` argument below -1 is stored unsigned and `get_args` reaches `unreachable!` |
| Handlers.ReadULeb128 | old/src/evaluator.rs:396-404 | `read_u_leb128` returns what `HandlerSpec.ReadU` says |
| Handlers.ReadSLeb128 | old/src/evaluator.rs:406-414 | `read_s_leb128` returns what `HandlerSpec.ReadS` says |
| Handlers.OperateBlock | old/src/evaluator.rs:102-121 | `operate_block` agrees with `HandlerSpec.Block` |
| Handlers.OperateIf | old/src/evaluator.rs:124-142 | `operate_if` agrees with `HandlerSpec.If` |
| Handlers.OperateBr | old/src/evaluator.rs:159-185 | `operate_br` agrees with `HandlerSpec.Br` |
| Handlers.OperateBrIf | old/src/evaluator.rs:188-198 | `operate_br_if` agrees with `HandlerSpec.BrIf` |
| Handlers.OperateLocalGet | old/src/evaluator.rs:216-223 | `operate_local_get` agrees with `HandlerSpec.LocalGet` |
| Handlers.OperateLocalSet | old/src/evaluator.rs:226-236 | `operate_local_set` agrees with `HandlerSpec.LocalSet` |
| Handlers.OperateLocalTee | old/src/evaluator.rs:239-244 | `operate_local_tee` agrees with `HandlerSpec.LocalTee` and leaves the stack alone |
| Handlers.OperateI32Const | old/src/evaluator.rs:273-278 | `operate_i32_const` agrees with `HandlerSpec.I32Const` |
| Handlers.OperateI64Const | old/src/evaluator.rs:281-286 | `operate_i64_const` agrees with `HandlerSpec.I64Const` |
| Handlers.OperateF64Const | old/src/evaluator.rs:289-294 | `operate_f64_const` agrees with `HandlerSpec.F64Const` |
| Handlers.Operands | old/src/evaluator.rs:298-305 | the two pops of a binary operator agree with `HandlerSpec.Operands` |
| Handlers.PushResult | old/src/evaluator.rs:314 | pushing an operator's result agrees with `HandlerSpec.Push` |
| Handlers.OperateI32Eq | old/src/evaluator.rs:297-315 | `operate_i32_eq` agrees with `HandlerSpec.I32Eq` |
| Handlers.OperateI32GeU | old/src/evaluator.rs:318-336 | `operate_i32_ge_u` agrees with `HandlerSpec.I32GeU` |
| Handlers.OperateI32Add | old/src/evaluator.rs:339-351 | `operate_i32_add` agrees with `HandlerSpec.I32Add` |
| Handlers.OperateI32RemU | old/src/evaluator.rs:354-366 | `operate_i32_rem_u` agrees with `HandlerSpec.I32RemU` |
| Handlers.OperateI32Shl | old/src/evaluator.rs:369-379 | `operate_i32_shl` agrees with `HandlerSpec.I32Shl` |
| Handlers.OperateF32Add | old/src/evaluator.rs:382-394 | `operate_f32_add` agrees with `HandlerSpec.F32Add` |
| Handlers.OperateShared | old/src/evaluator.rs:65-95 | the arms both evaluators share agree with `HandlerSpec.Shared`, `todo!` included |
| Handlers.PopNumbers | old/src/evaluator.rs:46-51 | the pop loop agrees with `HandlerSpec.PopNumbers` |
| Handlers.GetArgs | old/src/evaluator.rs:424-447 | `get_args` agrees with `HandlerSpec.GetArgs` |
| Handlers.PushAll | old/src/evaluator.rs:25-27 | the push loop agrees with `HandlerSpec.PushAll` |
| OldEvaluatorSpec.EndKeepsFrames | old/src/evaluator.rs:150-156 | `end` at the end of the body changes nothing; inside the body it is `pop_last_label` and drops the innermost label |
| OldEvaluatorSpec.GlobalGetPushes | old/src/evaluator.rs:247-262 | `global.get` pushes the global at the index read, and panics on a missing one |
| OldEvaluatorSpec.ReturnStops | old/src/evaluator.rs:76-78 | `return` ends `execute` and changes nothing on the stack |
| OldEvaluatorSpec.GeUIsNonStrict | old/src/evaluator.rs:318-336 | with a reflexive `>=`, equal operands give 1 |
| OldEvaluatorSpec.EnterWithArguments | old/src/evaluator.rs:25-41 | `call` takes back exactly the arguments `invoke` pushed and pushes a frame built from them |
| OldEvaluatorSpec.EnterNeedsArguments | old/src/evaluator.rs:424-447 | a call without enough signed numbers on top panics |
| OldEvaluatorSpec.PushAllRestacks | old/src/evaluator.rs:54-56 | pushing back numbers that were stored as they are restores those entries |
| OldEvaluatorSpec.LeaveKeepsResults | old/src/evaluator.rs:46-56 | after `execute`, `call` keeps the stack below the frame and the `n` results on top, in their order |
| OldEvaluatorSpec.LeaveWithoutResults | old/src/evaluator.rs:46-56 | with no results `call` only pops the frame |
| OldEvaluators.Evaluator.constructor | old/src/evaluator.rs:13-17 | a new evaluator has a new, empty stack |
| OldEvaluators.Evaluator.OperateEnd | old/src/evaluator.rs:150-156 | `operate_end` agrees with `OldEvaluatorSpec.End` |
| OldEvaluators.Evaluator.OperateGlobalGet | old/src/evaluator.rs:247-262 | `operate_global_get` agrees with `OldEvaluatorSpec.GlobalGet` |
| OldEvaluators.Evaluator.Handle | old/src/evaluator.rs:65-95 | the arms of `execute` that do not call agree with `OldEvaluatorSpec.Handle` |
| OldEvaluators.Evaluator.Arm | old/src/evaluator.rs:70-213 | one arm, `call` included, agrees with `OldEvaluatorSpec.Arm` |
| OldEvaluators.Evaluator.Turn | old/src/evaluator.rs:60-97 | one turn of the loop of `execute` agrees with `OldEvaluatorSpec.Turn` |
| OldEvaluators.Evaluator.Execute | old/src/evaluator.rs:59-99 | `execute` agrees with `OldEvaluatorSpec.Execute` |
| OldEvaluators.Evaluator.Call | old/src/evaluator.rs:35-57 | `call` agrees with `OldEvaluatorSpec.Call` |
| OldEvaluators.Evaluator.Invoke | old/src/evaluator.rs:19-33 | `invoke` agrees with `OldEvaluatorSpec.Invoke` |
| EvaluatorSpec.EndPopsFrame | src/evaluator.rs:166-186 | `end` at the end of the body with a value on the frame pops the frame and pushes the value back |
| EvaluatorSpec.EndNeedsValueOnFrame | src/evaluator.rs:174-183 | `end` at the end of the body panics when no value sits on top of a frame |
| EvaluatorSpec.EndInBody | src/evaluator.rs:169-172 | `end` inside the body is `pop_last_label` |
| EvaluatorSpec.ReturnPopsFrame | src/evaluator.rs:232-248 | `return` pops the current frame and pushes the value that was on top back |
| EvaluatorSpec.ReturnEndsExecute | src/evaluator.rs:92-95 | `return` ends `execute` after `operate_return` |
| EvaluatorSpec.GeUIsStrict | src/evaluator.rs:347-365 | `i32.ge_u` compares with `>`: equal operands give 0 |
| EvaluatorSpec.DriveSpins | src/evaluator.rs:65-72 | a current frame whose body is over is run again and again: the loop of `call` never ends |
| EvaluatorSpec.DriveStops | src/evaluator.rs:65-72 | with no frame left, the loop of `call` stops and changes nothing |
| EvaluatorSpec.EnterWithArguments | src/evaluator.rs:24-63 | `call` takes back exactly the arguments `invoke` pushed and pushes a frame built from them |
| EvaluatorSpec.EnterNeedsArguments | src/evaluator.rs:34-60 | a call without enough signed numbers on top panics |
| Evaluators.Evaluator.constructor | src/evaluator.rs:11-15 | a new evaluator has a new, empty stack |
| Evaluators.Evaluator.OperateEnd | src/evaluator.rs:166-186 | `operate_end` agrees with `EvaluatorSpec.End` |
| Evaluators.Evaluator.OperateReturn | src/evaluator.rs:232-248 | `operate_return` agrees with `EvaluatorSpec.Return` |
| Evaluators.Evaluator.Handle | src/evaluator.rs:83-113 | the arms of `execute` that neither call nor return agree with `EvaluatorSpec.Handle` |
| Evaluators.Evaluator.Arm | src/evaluator.rs:88-260 | one arm, `call` included, agrees with `EvaluatorSpec.Arm` |
| Evaluators.Evaluator.Turn | src/evaluator.rs:78-113 | one turn of the loop of `execute` agrees with `EvaluatorSpec.Turn` |
| Evaluators.Evaluator.Execute | src/evaluator.rs:77-115 | `execute` agrees with `EvaluatorSpec.Execute` |
| Evaluators.Evaluator.Call | src/evaluator.rs:33-75 | `call` agrees with `EvaluatorSpec.Call` |
| Evaluators.Evaluator.Invoke | src/evaluator.rs:18-31 | `invoke` agrees with `EvaluatorSpec.Invoke` |
| RuntimeSpec.Execute | src/runtime.rs:125-223 | an arm keeps the running frame's function and position, and leaves the frame list and its counter alone |
| RuntimeSpec.Body | src/runtime.rs:123-224 | the inner loop leaves the frame list and its counter alone |
| RuntimeSpec.Rounds | src/runtime.rs:122-226 | the outer loop ends only when no frame is counted |
| RuntimeSpec.NewFrameLocals | src/runtime.rs:16-39 | `Frame::new` panics exactly when there are more arguments than locals; otherwise the first locals are the arguments, the rest are unset, and `ip` and `base_pointer` are 0 |
| RuntimeSpec.NextInstructionAdvances | src/runtime.rs:41-44 | `next_instruction` returns the instruction at `ip` and moves `ip` on by one, and panics past the body |
| RuntimeSpec.LocalRoundTrip | src/runtime.rs:46-52 | `get_local` after `set_local` reads the value set, and other locals are unchanged |
| RuntimeSpec.StackCountersKept | src/runtime.rs:97-105 | `stack_push` keeps `sp` equal to the stack's length, `stack_pop` undoes it, and `stack_pop` succeeds exactly on a non-empty stack |
| RuntimeSpec.FrameCountersKept | src/runtime.rs:77-91 | `push_frame` keeps `frame_index` equal to the number of frames, the pushed frame is current, `pop_frame` undoes it |
| RuntimeSpec.ExecuteKeepsCounted | src/runtime.rs:125-223 | every arm keeps the counters equal to the lengths |
| RuntimeSpec.BodyKeepsCounted | src/runtime.rs:123-224 | the inner loop keeps the counters equal to the lengths |
| RuntimeSpec.RoundsPopAll | src/runtime.rs:122-226 | the outer loop ends with no frame left |
| RuntimeSpec.ConstAndEnd | src/runtime.rs:126-136 | `i32.const` pushes its value; `end` does nothing |
| RuntimeSpec.LocalInstructions | src/runtime.rs:137-148 | `local.get` pushes a set local and panics on an unset one; `local.set` pops into the local and panics on an empty stack |
| RuntimeSpec.AddOrder | src/runtime.rs:149-160 | `i32.add` pops the top as `a` and the next as `b`, pushes `a + b`, and panics on fewer than two entries |
| RuntimeSpec.TodoArmsPanic | src/runtime.rs:129-162 | block, loop, if, else, br, br_if, call, i32.sub and i32.ge_s reach `todo!` |
| RuntimeSpec.InvokeNeedsFunctionExport | src/runtime.rs:113-119 | a missing name panics on `unwrap`; a non-function export panics |
| RuntimeSpec.InvokeKeepsCounted | src/runtime.rs:107-233 | a successful `invoke` keeps the counters and leaves no frame |
| RuntimeSpec.AddsTwoConstants | src/runtime.rs:107-233 | the body `i32.const 1; i32.const 2; i32.add; end` returns `2 + 1` and leaves the runtime as new |
| Runtimes.BuildFrame | src/runtime.rs:16-39 | the loop of `Frame::new` builds what `RuntimeSpec.NewFrame` says, the panic included |
| Runtimes.Runtime.constructor | src/runtime.rs:64-74 | `Runtime::default()` is the empty runtime |
| Runtimes.Runtime.PushFrame | src/runtime.rs:77-80 | `push_frame` changes the runtime as `RuntimeSpec.PushFrame` says |
| Runtimes.Runtime.PopFrame | src/runtime.rs:82-87 | `pop_frame` returns and leaves what `RuntimeSpec.PopFrame` says |
| Runtimes.Runtime.CurrentFrame | src/runtime.rs:89-91 | `current_frame` returns what `RuntimeSpec.CurrentFrame` says |
| Runtimes.Runtime.FrameIsEmpty | src/runtime.rs:93-95 | `frame_is_empty` holds exactly when no frame is counted, and so, while the counters count, exactly when no frame is left |
| Runtimes.Runtime.StackPush | src/runtime.rs:97-100 | `stack_push` changes the runtime as `RuntimeSpec.StackPush` says |
| Runtimes.Runtime.StackPop | src/runtime.rs:102-105 | `stack_pop` returns and leaves what `RuntimeSpec.StackPop` says |
| Runtimes.Runtime.Step | src/runtime.rs:125-223 | one arm of the `match` agrees with `RuntimeSpec.Execute` |
| Runtimes.Runtime.Invoke | src/runtime.rs:107-233 | `invoke` agrees with `RuntimeSpec.Invoke`, panics included |

## Findings

| source | as written | input that shows it | evidently intended | confidence | as-written member | corrected member |
|---|---|---|---|---|---|---|
| src/leb128.rs:46 | after a five-byte number `shift` is 35, and `value >> (shift - 1)` shifts an `i32` by 34 bits, which panics in a debug build | `[0x80, 0x80, 0x80, 0xC0, 0x00]`, the signed LEB128 of 2^27 (every `i32` outside [-2^27, 2^27) takes five bytes) | a five-byte number already fills all 32 bits, so it is returned without sign extension and every `i32` round-trips | high; not executed | LebSpec.DrainSignedCounterexample | LebSpec.DrainSignedIntendedRoundTrip |
| old/src/stack.rs:63-66 | the 64-bit branch of `pop_value` subtracts `2^31` twice where the 32-bit branch subtracts `2^31` and then `2^30` twice, so it subtracts 2^32 instead of 2^64 | `Uint64(u64::MAX)` pops as `Int64(-4294967297)` | the all-ones 64-bit pattern pops as `Int64(-1)`, as the all-ones 32-bit pattern pops as `Int32(-1)` | medium; not executed | StackSpec.RestoredAsWrittenUint64Counterexample | StackSpec.RestoredNumbers |

The rest of the model follows the code as written: the parser reads `i32.const` immediates with `decode_signed_leb128` as written (`LebSpec.DrainSigned32`), so an immediate outside [-2^27, 2^27) panics (`ParserProperties.I32ConstRead`), and `StackSpec.PopValue` converts with `StackSpec.RestoredAsWritten`. The corrected definitions, `LebSpec.DrainSigned32Intended`, `Leb128.DecodeSignedLeb128Intended` and `StackSpec.Restored`, stand beside them with their intended properties proved.

## Left out

- The Node runners `old/src/wasm/math/addFloat.js`, `src/wasm/math/addInt.js` and `old/src/wasm/if-else/ifElseSimple.js`. They only read files, parse arguments and call the host's WebAssembly engine.
- The command-line glue: `src/main.rs`, `src/util/args.rs`, `example/binary/src/main.rs` and `old/scripts/example/binary/src/leb.rs` (environment, working directory, argument parsing and printing).
- File input. The `path` branches of `WasmBinaryReader::new` in both reader files are not modelled; only the in-memory branch and the panic with neither argument are. `Decoder::new` and its `read_exact` plumbing become a byte cursor over the module's bytes.
- `get_unsigned_leb128` and `get_signed_leb128` of `src/util/leb.rs`. They wrap the external `leb128` crate, which is not part of this model.
- `src/util/byte.rs` and `Decoder::validate_header`. They rely on `String::from_utf8`. For the same reason, export names parsed by src/parser.rs stay byte sequences and are not checked as UTF-8.
- Floating point. `Float32` and `Float64` are opaque bit patterns. The addition of `operate_f32_add` is an abstract operator. `operate_f64_const` pushes the LEB128 value read as the float's bits, and no float value is computed. The zero floats of `create_local_variables` are all-zero bit patterns.
- The `Number` operators `+`, `%`, `<<`, `>` and `>=`, which the file declaring `Number` implements. That file is not part of this model, so they are parameters (`NumberOps`, and `add` in the runtime). Equality of numbers is structural.
- The accessors `ModuleNode::type_section()` and `funcs()`, `SectionId::from` and `TypeSectionNode::encode` are not part of this model. They are passed in as parameters.
- Every `println!` and `dbg!` line, including the log line of `NumberType::from_byte` and the print of the decoded module in `decode_section`. The `Debug` impl of old/src/module.rs is also left out.
- The declaration-only files `src/stack.rs`, `src/instructions.rs`, `src/vm.rs`, `src/export.rs`, `old/src/import.rs`, `old/src/module/function_type.rs` and `src/structure/frame.rs`. They appear only as the shapes of datatypes.
- Release builds. Arithmetic overflow and over-wide shifts panic, as in a debug build. In a release build they would wrap, and that behaviour is not modelled.
- The evaluator tests (fibonacci, isPrime, twice, addInt). They need `.wasm` fixtures that are not part of this model.
- OldEvaluators.Evaluator.Execute: nothing bounds the recursion of `execute` and `call` in the program; here a `fuel` count bounds it, and a run that exhausts it ends in `Panic(OutOfFuel)`, an outcome the program does not have. It is not proved that more fuel never changes a result that does not run out.
- OldEvaluators.Evaluator.Call: bounded by the same `fuel` as `Execute`.
- Evaluators.Evaluator.Execute: bounded by `fuel` in the same way, and so is the loop of `call` that runs frames until none is left.
- Evaluators.Evaluator.Call: bounded by the same `fuel` as `Execute`.
