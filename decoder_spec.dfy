/** What the streaming `Decoder` of src/decoder.rs reads.  The decoder
    consumes a reader byte by byte; here each of its routines is a function
    from the bytes the reader has left to the value read and the bytes left
    after it, or to the panic that ends the program, as in `ParserSpec`.
    The decoder fills a `Module` with function types and functions; its
    state is `Decoded`. */
module DecoderSpec {
  import opened Bytes
  import opened Outcomes
  import opened NumberTypes
  import opened FunctionTypes
  import Functions
  import opened SectionIds = Section
  import LebSpec
  import ParserSpec

  type Parsed<T> = ParserSpec.Parsed<T>

  /** The two lists of the module the decoder fills in. */
  datatype Decoded = Decoded(functionTypes: seq<FunctionType>, functions: seq<Functions.Function>)

  const Empty := Decoded([], [])

  /** A method's outcome `r` and the bytes `rest` it left agree with what
      `spec` says the routine reads. */
  predicate Follows<T(==)>(spec: Parsed<T>, r: Result<T>, rest: seq<byte>)
  {
    match spec
    case Panic(m) => r == Panic(m)
    case Ok((value, after)) => r == Ok(value) && rest == after
  }

  /** `read_unsigned_leb128`: the cursor reading of `LebSpec.CursorUnsigned`
      into a 64-bit `usize`; running out of bytes is a failed `read_exact`. */
  function Unsigned(s: seq<byte>): (r: Parsed<nat>)
    ensures r.Ok? ==> |r.value.1| < |s|
  {
    var e := LebSpec.Terminator(s);
    if e >= 5 then Panic("Invalid LEB128 encoding")
    else if e == |s| then Panic("Failed to read buffer")
    else Ok((LebSpec.Payload(s[..e + 1]), s[e + 1..]))
  }

  /** `decode_type`: one byte through `NumberType::from_byte`; with no byte
      left the caller's `unwrap` panics. */
  function NumberOf(s: seq<byte>): (r: Parsed<Number>)
    ensures r.Ok? <==> |s| > 0
    ensures r.Ok? ==> r.value.1 == s[1..]
  {
    if |s| == 0 then Panic("failed to fill whole buffer")
    else Ok((DecodeType(s[0]).value, s[1..]))
  }

  lemma {:induction false} ManyShrinks<T>(p: seq<byte> -> Parsed<T>, s: seq<byte>, n: nat)
    requires forall b :: p(b).Ok? ==> |p(b).value.1| <= |b|
    ensures ParserSpec.Many(p, s, n).Ok? ==> |ParserSpec.Many(p, s, n).value.1| <= |s|
    decreases n
  {
    if n > 0 && p(s).Ok? {
      ManyShrinks(p, p(s).value.1, n - 1);
    }
  }

  /** One signature of the type section: the parameters, then the results,
      whose count must be 1.  There is no header byte here: the type section
      reads one for all its signatures. */
  function Signature(s: seq<byte>): (r: Parsed<FunctionType>)
    ensures r.Ok? ==> |r.value.1| < |s|
  {
    var paramCount :- Unsigned(s);
    var params :- ParserSpec.Many(NumberOf, paramCount.1, paramCount.0);
    var resultCount :- Unsigned(params.1);
    if resultCount.0 != 1 then Panic("assertion `left == right` failed")
    else
      var results :- ParserSpec.Many(NumberOf, resultCount.1, resultCount.0);
      ManyShrinks(NumberOf, paramCount.1, paramCount.0);
      ManyShrinks(NumberOf, resultCount.1, resultCount.0);
      Ok((FunctionType(params.0, results.0), results.1))
  }

  /** `decode_type_section`: the count, one header byte, then that many
      signatures, appended to the module's function types. */
  function TypeSection(s: seq<byte>, d: Decoded): (r: Result<(Decoded, seq<byte>)>)
    ensures r.Ok? ==> |r.value.1| < |s|
  {
    var count :- Unsigned(s);
    if |count.1| == 0 then Panic("failed to fill whole buffer")
    else
      var _ :- SectionIds.ValidateHeader(count.1[0]);
      var sigs :- ParserSpec.Many(Signature, count.1[1..], count.0);
      ManyShrinks(Signature, count.1[1..], count.0);
      Ok((d.(functionTypes := d.functionTypes + sigs.0), sigs.1))
  }

  /** The loop of `decode_function_section` from turn `i` on, for `n` more
      turns: each turn reads a type index and drops it, and function `i`
      gets function type `i`. */
  function FunctionEntries(s: seq<byte>, types: seq<FunctionType>, i: nat, n: nat): (r: Parsed<seq<Functions.Function>>)
    ensures r.Ok? ==> |r.value.1| <= |s|
    decreases n
  {
    if n == 0 then Ok(([], s))
    else
      var index :- Unsigned(s);
      if i >= |types| then Panic("index out of bounds")
      else
        var more :- FunctionEntries(index.1, types, i + 1, n - 1);
        Ok(([Functions.New(types[i], None)] + more.0, more.1))
  }

  /** `decode_function_section`: the count and the functions, appended to
      the module's functions. */
  function FunctionSection(s: seq<byte>, d: Decoded): (r: Result<(Decoded, seq<byte>)>)
    ensures r.Ok? ==> |r.value.1| < |s|
  {
    var count :- Unsigned(s);
    var fs :- FunctionEntries(count.1, d.functionTypes, 0, count.0);
    Ok((d.(functions := d.functions + fs.0), fs.1))
  }

  /** `discard_section`: `size` bytes are read and dropped; fewer than
      that make `read_exact` fail, and the caller panics. */
  function Discard(s: seq<byte>, size: nat): (r: Parsed<()>)
    ensures r.Ok? <==> size <= |s|
    ensures r.Ok? ==> r.value.1 == s[size..]
  {
    if size <= |s| then Ok(((), s[size..])) else Panic("Failed to discard section")
  }

  /** One turn of the loop of `decode_section`, after the id byte: the
      size, then the section.  Custom, export and code sections are
      skipped by their size; the type and function sections are decoded
      from the reader and their size is not used. */
  function SectionBody(id: byte, s: seq<byte>, d: Decoded): (r: Result<(Decoded, seq<byte>)>)
    ensures r.Ok? ==> |r.value.1| <= |s|
  {
    var size :- Unsigned(s);
    var kind :- SectionIds.FromUsize(id);
    match kind
    case None => Panic("called `Option::unwrap()` on a `None` value")
    case Some(CustomSectionId) =>
      var rest :- Discard(size.1, size.0);
      Ok((d, rest.1))
    case Some(TypeSectionId) => TypeSection(size.1, d)
    case Some(FunctionSectionId) => FunctionSection(size.1, d)
    case Some(ExportSectionId) =>
      var rest :- Discard(size.1, size.0);
      Ok((d, rest.1))
    case Some(CodeSectionId) =>
      var rest :- Discard(size.1, size.0);
      Ok((d, rest.1))
  }

  /** The loop of `decode_section`: sections until the reader has no byte
      left for an id. */
  function Sections(s: seq<byte>, d: Decoded): Result<Decoded>
    decreases |s|
  {
    if |s| == 0 then Ok(d)
    else
      var next :- SectionBody(s[0], s[1..], d);
      Sections(next.1, next.0)
  }

  /** `decode_section`: the module it fills is dropped at the end, so all
      that is left of a run without panic is `Ok(())`. */
  function DecodeSection(s: seq<byte>): (r: Result<()>)
  {
    var _ :- Sections(s, Empty);
    Ok(())
  }
}
