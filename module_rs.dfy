/** src/module.rs: the `Module` of the streaming decoder, which only knows
    the header: the magic string and the version number.  The header is a
    Rust `String` whose characters are the eight header bytes. */
module ModuleHeader {
  import opened Bytes
  import opened Outcomes

  /** The magic `\0asm` and the version 1 as four little-endian bytes
      (section 5.5.15 of the WebAssembly Core Specification 1.0). */
  const Magic: string := "\0asm"
  const VersionOne: string := "\U{1}\0\0\0"

  datatype Module = Module(magicBytes: string, version: byte)

  /** `Module::default()`. */
  function Default(): (m: Module)
    ensures m.magicBytes == Magic && m.version == 1
  {
    Module(Magic, 1)
  }

  /** `version_bytes`: no version means 1, and 1 is the only version with
      bytes; any other panics. */
  function VersionBytes(v: Option<byte>): (r: Result<string>)
    ensures r.Ok? <==> v == None || v == Some(1)
    ensures r.Ok? ==> r.value == VersionOne
  {
    var n := if v.Some? then v.value else 1;
    if n == 1 then Ok(VersionOne) else Panic("Error: Not implemented")
  }

  /** `header`: the magic followed by the version bytes. */
  function Header(m: Module, v: Option<byte>): (r: Result<string>)
    ensures r.Ok? <==> VersionBytes(v).Ok?
    ensures r.Ok? ==> r.value == m.magicBytes + VersionOne
  {
    var version :- VersionBytes(v);
    Ok(m.magicBytes + version)
  }

  /** `valid_header`: string equality with the module's own header. */
  function ValidHeader(m: Module, header: string): (r: Result<bool>)
    ensures r.Ok? <==> m.version == 1
    ensures r.Ok? ==> (r.value <==> header == m.magicBytes + VersionOne)
  {
    var expected :- Header(m, Some(m.version));
    Ok(header == expected)
  }

  /** A default module accepts exactly the eight bytes 00 61 73 6D 01 00 00
      00. */
  lemma DefaultValidHeader(header: string)
    ensures ValidHeader(Default(), header) == Ok(header == [0 as char, 0x61 as char, 0x73 as char, 0x6D as char, 1 as char, 0 as char, 0 as char, 0 as char])
  {
    assert Magic + VersionOne == [0 as char, 0x61 as char, 0x73 as char, 0x6D as char, 1 as char, 0 as char, 0 as char, 0 as char];
  }
}
