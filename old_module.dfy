/** old/src/module.rs: the module the older evaluator runs and the
    streaming decoder of src/decoder.rs fills: its header, its functions
    and their types, imports, exports and globals.  The shapes of
    `ImportMap` (old/src/import.rs) and `ExportMap` (src/export.rs) are
    records; the function type of an import keeps the number types of
    old/src/module/function_type.rs. */
module OldModule {
  import opened Bytes
  import opened Outcomes
  import NumberTypes
  import FunctionTypes
  import Functions
  import Numbers
  import ModuleHeader

  datatype ImportFunctionType = ImportFunctionType(parameters: seq<NumberTypes.NumberType>, results: seq<NumberTypes.NumberType>)

  datatype ImportMap = ImportMap(index: nat, functionType: ImportFunctionType)

  datatype ExportMap = ExportMap(index: nat, func: Functions.Function)

  datatype Module = Module(
    magicBytes: string,
    version: byte,
    functions: seq<Functions.Function>,
    functionTypes: seq<FunctionTypes.FunctionType>,
    imports: map<string, ImportMap>,
    exports: map<string, ExportMap>,
    globalVars: seq<Numbers.Number>)

  /** `Module::default()`: the standard header and nothing else. */
  function Default(): (m: Module)
    ensures m.magicBytes == ModuleHeader.Magic && m.version == 1
    ensures m.functions == [] && m.functionTypes == [] && m.globalVars == []
    ensures m.imports == map[] && m.exports == map[]
  {
    Module(ModuleHeader.Magic, 1, [], [], map[], map[], [])
  }

  /** `version_bytes`: any version but 1 reaches `unimplemented!`. */
  function VersionBytes(v: Option<byte>): (r: Result<string>)
    ensures r.Ok? <==> v == None || v == Some(1)
    ensures r.Ok? ==> r.value == ModuleHeader.VersionOne
  {
    match v
    case None => Ok(ModuleHeader.VersionOne)
    case Some(n) => if n == 1 then Ok(ModuleHeader.VersionOne) else Panic("not implemented")
  }

  /** `header`: `format!` of the magic and the version bytes. */
  function Header(m: Module, v: Option<byte>): (r: Result<string>)
    ensures r.Ok? <==> VersionBytes(v).Ok?
    ensures r.Ok? ==> r.value == m.magicBytes + ModuleHeader.VersionOne
  {
    var version :- VersionBytes(v);
    Ok(m.magicBytes + version)
  }

  /** `valid_header`. */
  function ValidHeader(m: Module, header: string): (r: Result<bool>)
    ensures r.Ok? <==> m.version == 1
    ensures r.Ok? ==> (r.value <==> header == Header(m, Some(1)).value)
  {
    var expected :- Header(m, Some(m.version));
    Ok(header == expected)
  }

  /** The default module of this file accepts the same headers as the
      header-only module of src/module.rs. */
  lemma SameHeaderCheck(header: string)
    ensures ValidHeader(Default(), header) == ModuleHeader.ValidHeader(ModuleHeader.Default(), header)
  {
  }
}
