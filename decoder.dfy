/** src/decoder.rs: the streaming `Decoder`.  The file reader it wraps is
    modelled as a cursor `pc` over the module's bytes; `read_exact` of `n`
    bytes succeeds exactly when `n` bytes are left.  Each method is proved
    to do what its function in `DecoderSpec` says. */
module Decoders {
  import opened Bytes
  import opened Outcomes
  import opened NumberTypes
  import opened FunctionTypes
  import Functions
  import opened SectionIds = Section
  import opened LebSpec
  import opened DecoderSpec
  import ParserSpec
  import Parsers
  import Leb128

  /** The module `decode_section` fills: the two lists src/decoder.rs uses
      (the `Module` of src/module.rs shown beside it has only the header
      fields). */
  class Module {
    var functionTypes: seq<FunctionType>
    var functions: seq<Functions.Function>

    /** `Module::default()`: both lists empty. */
    constructor ()
      ensures functionTypes == [] && functions == []
    {
      functionTypes := [];
      functions := [];
    }
  }

  function DecodedOf(m: Module): Decoded
    reads m
  {
    Decoded(m.functionTypes, m.functions)
  }

  /** A turn of the loop of `decode_function_section` that reads a type
      index from `s`, leaving `after`, keeps the loop's invariant `whole`. */
  lemma EntriesTurn(whole: Parsed<seq<Functions.Function>>, pushed: seq<Functions.Function>, s: seq<byte>, after: seq<byte>,
                    types: seq<FunctionType>, i: nat, j: nat, n: nat, m: nat)
    requires j == i + 1 && n == m + 1 && i < |types|
    requires whole == ParserSpec.Prepend(pushed, FunctionEntries(s, types, i, n))
    requires Unsigned(s).Ok? && Unsigned(s).value.1 == after
    ensures whole == ParserSpec.Prepend(pushed + [Functions.New(types[i], None)], FunctionEntries(after, types, j, m))
  {
    var f := Functions.New(types[i], None);
    match FunctionEntries(after, types, j, m)
    case Panic(_) =>
    case Ok((fs, rest)) =>
      assert pushed + ([f] + fs) == (pushed + [f]) + fs;
  }

  /** A turn that panics ends the loop with that panic. */
  lemma EntriesFail(whole: Parsed<seq<Functions.Function>>, pushed: seq<Functions.Function>, s: seq<byte>,
                    types: seq<FunctionType>, i: nat, n: nat, reason: string)
    requires n > 0 && whole == ParserSpec.Prepend(pushed, FunctionEntries(s, types, i, n))
    requires (Unsigned(s).Panic? && reason == Unsigned(s).reason)
             || (Unsigned(s).Ok? && i >= |types| && reason == "index out of bounds")
    ensures whole == Panic(reason)
  {
  }

  /** One turn of the loop of `decode_section`, read off `Sections`. */
  lemma SectionsTurn(s: seq<byte>, d: Decoded, id: byte, body: seq<byte>)
    requires |s| > 0 && s[0] == id && s[1..] == body
    ensures SectionBody(id, body, d).Panic? ==> Sections(s, d) == Panic(SectionBody(id, body, d).reason)
    ensures SectionBody(id, body, d).Ok? ==>
              Sections(s, d) == Sections(SectionBody(id, body, d).value.1, SectionBody(id, body, d).value.0)
  {
  }

  class Decoder {
    const bytes: seq<byte>
    var pc: nat

    predicate Valid()
      reads this
    {
      pc <= |bytes|
    }

    /** What the reader has left. */
    function Rest(): seq<byte>
      reads this
      requires Valid()
    {
      bytes[pc..]
    }

    /** A decoder over the bytes of a module (`Decoder::new` opens a file,
        which is not modelled). */
    constructor (bytes: seq<byte>)
      ensures this.bytes == bytes && pc == 0 && Valid()
    {
      this.bytes := bytes;
      pc := 0;
    }

    /** `read_exact` into a one-byte buffer: the next byte, or a failure
        that reads nothing. */
    method ReadByte() returns (r: Option<byte>)
      requires Valid()
      modifies this
      ensures Valid()
      ensures old(pc) < |bytes| ==> r == Some(bytes[old(pc)]) && pc == old(pc) + 1
      ensures old(pc) >= |bytes| ==> r.None? && pc == old(pc)
    {
      if pc < |bytes| {
        pc := pc + 1;
        return Some(bytes[pc - 1]);
      }
      return None;
    }

    /** `read_unsigned_leb128`. */
    method ReadUnsignedLeb128() returns (r: Result<nat>)
      requires Valid()
      modifies this
      ensures Valid() && old(pc) <= pc
      ensures Follows(Unsigned(old(Rest())), r, Rest())
    {
      ghost var s := Rest();
      ghost var start := pc;
      var value: nat := 0;
      var shift: nat := 0;
      var count: nat := 0;
      while true
        invariant Valid() && start == old(pc) && s == bytes[start..]
        invariant pc == start + count && count <= 4 && shift == 7 * count && count <= |s|
        invariant value == Payload(s[..count])
        invariant forall j :: 0 <= j < count ==> More(s[j])
        decreases 5 - count
      {
        var b := ReadByte();
        if b.None? {
          TerminatorAt(s, count);
          return Panic("Failed to read buffer");
        }
        assert b.value == s[count];
        PayloadPrefix(s, count);
        value := value + Low7(b.value) * Pow2(shift);
        shift := shift + 7;
        count := count + 1;
        if !More(b.value) {
          TerminatorAt(s, count - 1);
          assert Rest() == s[count..];
          return Ok(value);
        }
        if shift > 32 {
          Leb128.NoTerminatorInFive(s);
          return Panic("Invalid LEB128 encoding");
        }
      }
    }

    /** `decode_type`. */
    method DecodeType() returns (r: Result<Number>)
      requires Valid()
      modifies this
      ensures Valid() && old(pc) <= pc
      ensures Follows(NumberOf(old(Rest())), r, Rest())
    {
      var b := ReadByte();
      if b.None? {
        return Panic("failed to fill whole buffer");
      }
      r := NumberTypes.DecodeType(b.value);
    }

    /** A `for` loop of `decode_type_section` that pushes `count` types. */
    method ReadTypes(count: nat) returns (r: Result<seq<Number>>)
      requires Valid()
      modifies this
      ensures Valid() && old(pc) <= pc
      ensures Follows(ParserSpec.Many(NumberOf, old(Rest()), count), r, Rest())
    {
      ghost var whole := ParserSpec.Many(NumberOf, Rest(), count);
      ghost var rest := Rest();
      ghost var todo := count;
      var pushed: seq<Number> := [];
      Parsers.PrependNothing(whole);
      for i := 0 to count
        invariant Valid() && old(pc) <= pc && Rest() == rest && todo == count - i
        invariant whole == ParserSpec.Prepend(pushed, ParserSpec.Many(NumberOf, rest, todo))
      {
        var value := DecodeType();
        if value.Panic? {
          Parsers.ManyFails(NumberOf, whole, pushed, rest, todo, value.reason);
          return Panic(value.reason);
        }
        ghost var left := todo - 1;
        Parsers.ManyTurn(NumberOf, whole, pushed, rest, todo, left, value.value, Rest());
        pushed := pushed + [value.value];
        todo, rest := left, Rest();
      }
      Parsers.PrependAll(pushed, rest);
      return Ok(pushed);
    }

    /** One turn of the signature loop of `decode_type_section`. */
    method DecodeSignature() returns (r: Result<FunctionType>)
      requires Valid()
      modifies this
      ensures Valid() && old(pc) <= pc
      ensures Follows(Signature(old(Rest())), r, Rest())
    {
      var parameterCount := ReadUnsignedLeb128();
      if parameterCount.Panic? {
        return Panic(parameterCount.reason);
      }
      var parameters := ReadTypes(parameterCount.value);
      if parameters.Panic? {
        return Panic(parameters.reason);
      }
      var resultCount := ReadUnsignedLeb128();
      if resultCount.Panic? {
        return Panic(resultCount.reason);
      }
      if resultCount.value != 1 {
        return Panic("assertion `left == right` failed");
      }
      var results := ReadTypes(resultCount.value);
      if results.Panic? {
        return Panic(results.reason);
      }
      return Ok(FunctionType(parameters.value, results.value));
    }

    /** One turn of the signature loop of `decode_type_section`: a
        signature is read and pushed onto the module's function types.  Its
        contract is the loop's invariant `whole` carried over one turn. */
    method PushSignature(ghost whole: Parsed<seq<FunctionType>>, ghost pushed: seq<FunctionType>, ghost todo: nat, ghost left: nat, target: Module)
      returns (r: Result<FunctionType>)
      requires Valid() && todo == left + 1
      requires whole == ParserSpec.Prepend(pushed, ParserSpec.Many(Signature, Rest(), todo))
      modifies this, target
      ensures Valid() && old(pc) <= pc
      ensures target.functions == old(target.functions)
      ensures r.Panic? ==> whole == Panic(r.reason)
      ensures r.Ok? ==> target.functionTypes == old(target.functionTypes) + [r.value]
      ensures r.Ok? ==> whole == ParserSpec.Prepend(pushed + [r.value], ParserSpec.Many(Signature, Rest(), left))
    {
      ghost var before := Rest();
      r := DecodeSignature();
      if r.Panic? {
        Parsers.ManyFails(Signature, whole, pushed, before, todo, r.reason);
        return;
      }
      Parsers.ManyTurn(Signature, whole, pushed, before, todo, left, r.value, Rest());
      target.functionTypes := target.functionTypes + [r.value];
    }

    /** The signature loop of `decode_type_section`: `count` signatures,
        each pushed onto the module's function types. */
    method DecodeSignatures(count: nat, target: Module) returns (r: Result<()>)
      requires Valid()
      modifies this, target
      ensures Valid() && old(pc) <= pc
      ensures target.functions == old(target.functions)
      ensures match ParserSpec.Many(Signature, old(Rest()), count)
              case Panic(m) => r == Panic(m)
              case Ok((sigs, after)) =>
                r == Ok(()) && target.functionTypes == old(target.functionTypes) + sigs && Rest() == after
    {
      ghost var whole := ParserSpec.Many(Signature, Rest(), count);
      ghost var types := target.functionTypes;
      ghost var pushed: seq<FunctionType> := [];
      ghost var todo := count;
      Parsers.PrependNothing(whole);
      for i := 0 to count
        invariant Valid() && old(pc) <= pc && todo == count - i
        invariant target.functionTypes == types + pushed
        invariant target.functions == old(target.functions)
        invariant whole == ParserSpec.Prepend(pushed, ParserSpec.Many(Signature, Rest(), todo))
      {
        ghost var left := todo - 1;
        var signature := PushSignature(whole, pushed, todo, left, target);
        if signature.Panic? {
          return Panic(signature.reason);
        }
        pushed, todo := pushed + [signature.value], left;
      }
      Parsers.PrependAll(pushed, Rest());
      return Ok(());
    }

    /** `decode_type_section`. */
    method DecodeTypeSection(target: Module) returns (r: Result<()>)
      requires Valid()
      modifies this, target
      ensures Valid() && old(pc) <= pc
      ensures Updates(DecoderSpec.TypeSection(old(Rest()), old(DecodedOf(target))), r, (DecodedOf(target), Rest()))
    {
      ghost var s := Rest();
      var count := ReadUnsignedLeb128();
      if count.Panic? {
        return Panic(count.reason);
      }
      ghost var afterCount := Rest();
      var header := ReadByte();
      if header.None? {
        return Panic("failed to fill whole buffer");
      }
      assert header.value == afterCount[0] && Rest() == afterCount[1..];
      var valid := ValidateHeader(header.value);
      if valid.Panic? {
        return Panic(valid.reason);
      }
      r := DecodeSignatures(count.value, target);
    }

    /** One turn of the loop of `decode_function_section`: a type index is
        read and dropped, and function `i` gets function type `i`.  Its
        contract is the loop's invariant `whole` carried over one turn. */
    method PushFunction(ghost whole: Parsed<seq<Functions.Function>>, ghost pushed: seq<Functions.Function>,
                        i: nat, ghost next: nat, ghost todo: nat, ghost left: nat, target: Module)
      returns (r: Result<()>)
      requires Valid() && next == i + 1 && todo == left + 1
      requires whole == ParserSpec.Prepend(pushed, FunctionEntries(Rest(), target.functionTypes, i, todo))
      modifies this, target
      ensures Valid() && old(pc) <= pc
      ensures target.functionTypes == old(target.functionTypes)
      ensures r.Panic? ==> whole == Panic(r.reason)
      ensures r.Ok? ==> i < |target.functionTypes|
      ensures r.Ok? ==> target.functions == old(target.functions) + [Functions.New(target.functionTypes[i], None)]
      ensures r.Ok? ==> whole == ParserSpec.Prepend(pushed + [Functions.New(target.functionTypes[i], None)],
                                                    FunctionEntries(Rest(), target.functionTypes, next, left))
    {
      ghost var before := Rest();
      var index := ReadUnsignedLeb128();
      if index.Panic? {
        EntriesFail(whole, pushed, before, target.functionTypes, i, todo, index.reason);
        return Panic(index.reason);
      }
      if i >= |target.functionTypes| {
        EntriesFail(whole, pushed, before, target.functionTypes, i, todo, "index out of bounds");
        return Panic("index out of bounds");
      }
      EntriesTurn(whole, pushed, before, Rest(), target.functionTypes, i, next, todo, left);
      var funcType := target.functionTypes[i];
      target.functions := target.functions + [Functions.New(funcType, None)];
      return Ok(());
    }

    /** The loop of `decode_function_section`. */
    method DecodeFunctions(count: nat, target: Module) returns (r: Result<()>)
      requires Valid()
      modifies this, target
      ensures Valid() && old(pc) <= pc
      ensures target.functionTypes == old(target.functionTypes)
      ensures match FunctionEntries(old(Rest()), old(target.functionTypes), 0, count)
              case Panic(m) => r == Panic(m)
              case Ok((fs, after)) =>
                r == Ok(()) && target.functions == old(target.functions) + fs && Rest() == after
    {
      ghost var whole := FunctionEntries(Rest(), target.functionTypes, 0, count);
      ghost var types := target.functionTypes;
      ghost var functions := target.functions;
      ghost var pushed: seq<Functions.Function> := [];
      ghost var todo := count;
      ghost var at := 0;
      Parsers.PrependNothing(whole);
      for i := 0 to count
        invariant Valid() && old(pc) <= pc && todo == count - i && at == i
        invariant target.functionTypes == types
        invariant target.functions == functions + pushed
        invariant whole == ParserSpec.Prepend(pushed, FunctionEntries(Rest(), types, at, todo))
      {
        ghost var left, next := todo - 1, at + 1;
        var turn := PushFunction(whole, pushed, i, next, todo, left, target);
        if turn.Panic? {
          return Panic(turn.reason);
        }
        pushed, todo, at := pushed + [Functions.New(types[i], None)], left, next;
      }
      Parsers.PrependAll(pushed, Rest());
      return Ok(());
    }

    /** `decode_function_section`. */
    method DecodeFunctionSection(target: Module) returns (r: Result<()>)
      requires Valid()
      modifies this, target
      ensures Valid() && old(pc) <= pc
      ensures Updates(DecoderSpec.FunctionSection(old(Rest()), old(DecodedOf(target))), r, (DecodedOf(target), Rest()))
    {
      var count := ReadUnsignedLeb128();
      if count.Panic? {
        return Panic(count.reason);
      }
      r := DecodeFunctions(count.value, target);
    }

    /** `discard_section`. */
    method DiscardSection(size: nat) returns (r: Result<()>)
      requires Valid()
      modifies this
      ensures Valid() && old(pc) <= pc
      ensures Follows(Discard(old(Rest()), size), r, Rest())
    {
      if size > |bytes| - pc {
        return Panic("Failed to discard section");
      }
      pc := pc + size;
      return Ok(());
    }

    /** The body of the loop of `decode_section` after the id byte: the
        size, then the section the id names. */
    method DecodeSectionBody(id: byte, target: Module) returns (r: Result<()>)
      requires Valid()
      modifies this, target
      ensures Valid() && old(pc) <= pc
      ensures Updates(SectionBody(id, old(Rest()), old(DecodedOf(target))), r, (DecodedOf(target), Rest()))
    {
      var size := ReadUnsignedLeb128();
      if size.Panic? {
        return Panic(size.reason);
      }
      var kind := FromUsize(id);
      if kind.Panic? {
        return Panic(kind.reason);
      }
      match kind.value {
        case None =>
          return Panic("called `Option::unwrap()` on a `None` value");
        case Some(CustomSectionId) =>
          r := DiscardSection(size.value);
        case Some(TypeSectionId) =>
          r := DecodeTypeSection(target);
        case Some(FunctionSectionId) =>
          r := DecodeFunctionSection(target);
        case Some(ExportSectionId) =>
          r := DiscardSection(size.value);
        case Some(CodeSectionId) =>
          r := DiscardSection(size.value);
      }
    }

    /** `decode_section`: sections until no byte is left for an id; the
        module it filled is dropped. */
    method DecodeSection() returns (r: Result<()>)
      requires Valid()
      modifies this
      ensures Valid()
      ensures r == DecoderSpec.DecodeSection(old(Rest()))
      ensures r.Ok? ==> Rest() == []
    {
      var target := new Module();
      ghost var whole := Sections(Rest(), Empty);
      ghost var rest := Rest();
      ghost var d := Empty;
      while true
        invariant Valid() && fresh(target)
        invariant Rest() == rest && DecodedOf(target) == d && whole == Sections(rest, d)
        decreases |rest|
      {
        var id := ReadByte();
        if id.None? {
          break;
        }
        ghost var body := Rest();
        assert rest[0] == id.value && rest[1..] == body;
        var done := DecodeSectionBody(id.value, target);
        SectionsTurn(rest, d, id.value, body);
        if done.Panic? {
          return Panic(done.reason);
        }
        rest, d := Rest(), DecodedOf(target);
      }
      return Ok(());
    }
  }
}
