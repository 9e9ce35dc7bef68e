/** Properties of what the streaming decoder of src/decoder.rs reads:
    its LEB128 reading agrees with the cursor reading, sections it does not
    decode are skipped by their size, decoded signatures have one result,
    function `i` gets function type `i`, and the decoded module stays
    well formed from section to section. */
module DecoderProperties {
  import opened Bytes
  import opened Outcomes
  import opened NumberTypes
  import opened FunctionTypes
  import Functions
  import LebSpec
  import ParserSpec
  import opened DecoderSpec
  import SectionIds = Section

  /** What the decoder keeps true of the module it fills: every function
      type has a single result, and every function's type is one of the
      module's function types. */
  predicate WellFormed(d: Decoded)
  {
    (forall t :: t in d.functionTypes ==> |t.results| == 1) &&
    (forall f :: f in d.functions ==> f.funcType in d.functionTypes)
  }

  /** `read_unsigned_leb128` reads back the encoding of every 32-bit
      number and leaves the bytes after it. */
  lemma UnsignedRoundTrip(v: u32, rest: seq<byte>)
    ensures Unsigned(LebSpec.EncodeU(v) + rest) == Ok((v as nat, rest))
  {
    var s := LebSpec.EncodeU(v) + rest;
    LebSpec.CursorUnsignedRoundTrip(v, rest);
    assert s[|LebSpec.EncodeU(v)|..] == rest;
  }

  /** The decoder's reading and the cursor reading of old/src/reader.rs
      find the same number in the same bytes; they differ only in the
      message when the bytes run out. */
  lemma UnsignedAgreesWithCursor(s: seq<byte>)
    ensures Unsigned(s).Ok? <==> LebSpec.CursorUnsigned(s).Ok?
    ensures Unsigned(s).Ok? ==>
      Unsigned(s).value.0 == LebSpec.CursorUnsigned(s).value.0 &&
      Unsigned(s).value.1 == s[LebSpec.CursorUnsigned(s).value.1..]
    ensures Unsigned(s) == Panic("Failed to read buffer") <==>
      LebSpec.CursorUnsigned(s) == Panic("index out of bounds")
  {
  }

  /** Every signature a run of `n` signatures reads has one result. */
  lemma {:induction false} SignaturesHaveOneResult(s: seq<byte>, n: nat)
    ensures ParserSpec.Many(Signature, s, n).Ok? ==>
      forall t :: t in ParserSpec.Many(Signature, s, n).value.0 ==> |t.results| == 1
    decreases n
  {
    if n > 0 && Signature(s).Ok? {
      SignaturesHaveOneResult(Signature(s).value.1, n - 1);
    }
  }

  /** `decode_type_section` leaves the functions alone, checks that the
      byte after the count is the 0x60 form, and appends as many function
      types as the count says, each with a single result. */
  lemma TypeSectionAppends(s: seq<byte>, d: Decoded)
    ensures TypeSection(s, d).Ok? ==>
      var after := TypeSection(s, d).value.0;
      var count := Unsigned(s).value;
      Unsigned(s).Ok? && |count.1| > 0 && count.1[0] == 0x60 &&
      after.functions == d.functions &&
      |after.functionTypes| == |d.functionTypes| + count.0 &&
      after.functionTypes[..|d.functionTypes|] == d.functionTypes &&
      forall k :: |d.functionTypes| <= k < |after.functionTypes| ==> |after.functionTypes[k].results| == 1
  {
    if TypeSection(s, d).Ok? {
      var count := Unsigned(s).value;
      SignaturesHaveOneResult(count.1[1..], count.0);
      var after := TypeSection(s, d).value.0;
      var sigs := ParserSpec.Many(Signature, count.1[1..], count.0).value.0;
      assert after.functionTypes == d.functionTypes + sigs;
      forall k | |d.functionTypes| <= k < |after.functionTypes|
        ensures |after.functionTypes[k].results| == 1
      {
        assert after.functionTypes[k] == sigs[k - |d.functionTypes|];
      }
    }
  }

  /** The function loop from turn `i` on gives function `i + k` the
      function type `i + k`, and it can only end without panic when there
      are that many function types. */
  lemma {:induction false} EntriesFollowTypes(s: seq<byte>, types: seq<FunctionType>, i: nat, n: nat)
    ensures FunctionEntries(s, types, i, n).Ok? ==>
      var fs := FunctionEntries(s, types, i, n).value.0;
      (n > 0 ==> i + n <= |types|) && |fs| == n &&
      forall k :: 0 <= k < n ==> fs[k] == Functions.New(types[i + k], None)
    decreases n
  {
    if n > 0 && FunctionEntries(s, types, i, n).Ok? {
      var index := Unsigned(s).value;
      EntriesFollowTypes(index.1, types, i + 1, n - 1);
      var more := FunctionEntries(index.1, types, i + 1, n - 1).value.0;
      var fs := FunctionEntries(s, types, i, n).value.0;
      assert fs == [Functions.New(types[i], None)] + more;
      forall k | 0 <= k < n
        ensures fs[k] == Functions.New(types[i + k], None)
      {
        if k > 0 {
          assert fs[k] == more[k - 1];
        }
      }
    }
  }

  /** `decode_function_section` leaves the function types alone and
      appends one function per count, the `k`-th new one with the module's
      `k`-th function type; a count above the number of function types
      panics. */
  lemma FunctionSectionAppends(s: seq<byte>, d: Decoded)
    ensures FunctionSection(s, d).Ok? ==>
      var after := FunctionSection(s, d).value.0;
      var count := Unsigned(s).value.0;
      after.functionTypes == d.functionTypes &&
      (count > 0 ==> count <= |d.functionTypes|) &&
      |after.functions| == |d.functions| + count &&
      after.functions[..|d.functions|] == d.functions &&
      forall k :: 0 <= k < count ==> after.functions[|d.functions| + k].funcType == d.functionTypes[k]
  {
    if FunctionSection(s, d).Ok? {
      var count := Unsigned(s).value;
      EntriesFollowTypes(count.1, d.functionTypes, 0, count.0);
      var after := FunctionSection(s, d).value.0;
      var fs := FunctionEntries(count.1, d.functionTypes, 0, count.0).value.0;
      assert after.functions == d.functions + fs;
      forall k | 0 <= k < count.0
        ensures after.functions[|d.functions| + k].funcType == d.functionTypes[k]
      {
        assert after.functions[|d.functions| + k] == fs[k];
      }
    }
  }

  /** One section keeps the module well formed. */
  lemma SectionKeepsWellFormed(id: byte, s: seq<byte>, d: Decoded)
    requires WellFormed(d)
    ensures SectionBody(id, s, d).Ok? ==> WellFormed(SectionBody(id, s, d).value.0)
  {
    if SectionBody(id, s, d).Ok? {
      var size := Unsigned(s).value;
      var after := SectionBody(id, s, d).value.0;
      if id == 1 {
        TypeSectionAppends(size.1, d);
        forall t | t in after.functionTypes
          ensures |t.results| == 1
        {
          var k :| 0 <= k < |after.functionTypes| && after.functionTypes[k] == t;
          if k < |d.functionTypes| {
            assert t == after.functionTypes[..|d.functionTypes|][k];
          }
        }
        forall f | f in after.functions
          ensures f.funcType in after.functionTypes
        {
          var j :| 0 <= j < |d.functionTypes| && d.functionTypes[j] == f.funcType;
          assert f.funcType == after.functionTypes[..|d.functionTypes|][j];
        }
      } else if id == 3 {
        FunctionSectionAppends(size.1, d);
        forall f | f in after.functions
          ensures f.funcType in after.functionTypes
        {
          var j :| 0 <= j < |after.functions| && after.functions[j] == f;
          if j < |d.functions| {
            assert f == after.functions[..|d.functions|][j];
          } else {
            assert f.funcType == d.functionTypes[j - |d.functions|];
          }
        }
      }
    }
  }

  /** Every section of a run keeps the module well formed. */
  lemma {:induction false} SectionsKeepWellFormed(s: seq<byte>, d: Decoded)
    requires WellFormed(d)
    ensures Sections(s, d).Ok? ==> WellFormed(Sections(s, d).value)
    decreases |s|
  {
    if |s| > 0 && SectionBody(s[0], s[1..], d).Ok? {
      var next := SectionBody(s[0], s[1..], d).value;
      SectionKeepsWellFormed(s[0], s[1..], d);
      SectionsKeepWellFormed(next.1, next.0);
    }
  }

  /** So the module `decode_section` fills is well formed however many
      sections it reads. */
  lemma DecodedWellFormed(s: seq<byte>)
    ensures Sections(s, Empty).Ok? ==> WellFormed(Sections(s, Empty).value)
  {
    SectionsKeepWellFormed(s, Empty);
  }

  /** A custom, export or code section is skipped by its size: what
      follows is decoded as if it were not there. */
  lemma SkippedSection(id: byte, payload: seq<byte>, rest: seq<byte>, d: Decoded)
    requires id == 0 || id == 7 || id == 10
    requires |payload| < 0x1_0000_0000
    ensures Sections([id] + LebSpec.EncodeU(|payload|) + payload + rest, d) == Sections(rest, d)
  {
    var size := LebSpec.EncodeU(|payload|);
    var s := [id] + size + payload + rest;
    assert s[1..] == size + (payload + rest);
    UnsignedRoundTrip(|payload|, payload + rest);
    assert (payload + rest)[|payload|..] == rest;
    assert SectionBody(id, s[1..], d) == Ok((d, rest));
  }

  /** A section id the decoder does not know makes `from_usize` fail. */
  lemma UnknownSection(id: byte, s: seq<byte>, d: Decoded)
    requires id != 0 && id != 1 && id != 3 && id != 7 && id != 10
    requires Unsigned(s).Ok?
    ensures Sections([id] + s, d) == Panic("Error: Not implemented")
  {
    assert ([id] + s)[1..] == s;
  }

  /** A byte below 128 is a one-byte number. */
  lemma OneByte(b: byte, rest: seq<byte>)
    requires b < 128
    ensures Unsigned([b] + rest) == Ok((b as nat, rest))
  {
    var s := [b] + rest;
    assert LebSpec.Terminator(s) == 0;
    assert s[..1] == [b] && [b][..0] == [];
    assert LebSpec.Payload([b]) == b by {
      assert Pow2(0) == 1;
    }
    assert s[1..] == rest;
  }

  /** A run of one is the one element read. */
  lemma ManyOne<T>(p: seq<byte> -> Parsed<T>, s: seq<byte>, x: T, rest: seq<byte>)
    requires p(s) == Ok((x, rest))
    ensures ParserSpec.Many(p, s, 1) == Ok(([x], rest))
  {
    assert ParserSpec.Many(p, rest, 0) == Ok(([], rest));
    assert [x] + [] == [x];
  }

  /** 0x7F is the `i32` number type. */
  lemma OneI32(rest: seq<byte>)
    ensures ParserSpec.Many(NumberOf, [0x7F] + rest, 1) == Ok(([I32()], rest))
  {
    assert ([0x7F] + rest)[1..] == rest;
    assert NumberOf([0x7F] + rest) == Ok((I32(), rest));
    ManyOne(NumberOf, [0x7F] + rest, I32(), rest);
  }

  /** A type section with one signature `[i32] -> [i32]` appends that
      function type. */
  lemma OneSignature(d: Decoded, rest: seq<byte>)
    ensures TypeSection([1, 0x60, 1, 0x7F, 1, 0x7F] + rest, d) ==
      Ok((d.(functionTypes := d.functionTypes + [FunctionType([I32()], [I32()])]), rest))
  {
    var s := [1, 0x60, 1, 0x7F, 1, 0x7F] + rest;
    assert s == [1] + ([0x60, 1, 0x7F, 1, 0x7F] + rest);
    OneByte(1, [0x60, 1, 0x7F, 1, 0x7F] + rest);
    var sig := [1, 0x7F, 1, 0x7F] + rest;
    assert ([0x60, 1, 0x7F, 1, 0x7F] + rest)[1..] == sig;
    assert sig == [1] + ([0x7F, 1, 0x7F] + rest);
    OneByte(1, [0x7F, 1, 0x7F] + rest);
    OneI32([1, 0x7F] + rest);
    assert [1, 0x7F] + rest == [1] + ([0x7F] + rest);
    OneByte(1, [0x7F] + rest);
    OneI32(rest);
    assert Signature(sig) == Ok((FunctionType([I32()], [I32()]), rest));
    ManyOne(Signature, sig, FunctionType([I32()], [I32()]), rest);
  }

  /** Fewer bytes than number types to read: `read_exact` fails. */
  lemma {:induction false} TypesRunOut(s: seq<byte>, n: nat)
    requires |s| < n
    ensures ParserSpec.Many(NumberOf, s, n) == Panic("failed to fill whole buffer")
    decreases n
  {
    if |s| > 0 {
      TypesRunOut(s[1..], n - 1);
    }
  }

  /** The signature `[] -> [i32]`. */
  lemma NoParameters(rest: seq<byte>)
    ensures Signature([0, 1, 0x7F] + rest) == Ok((FunctionType([], [I32()]), rest))
  {
    var s := [0, 1, 0x7F] + rest;
    assert s == [0] + ([1, 0x7F] + rest);
    OneByte(0, [1, 0x7F] + rest);
    assert ParserSpec.Many(NumberOf, [1, 0x7F] + rest, 0) == Ok(([], [1, 0x7F] + rest));
    assert [1, 0x7F] + rest == [1] + ([0x7F] + rest);
    OneByte(1, [0x7F] + rest);
    OneI32(rest);
  }

  /** A 0x60 form byte read as a parameter count asks for 96 types. */
  lemma FormByteAsCount()
    ensures Signature([0x60, 0, 1, 0x7F]) == Panic("failed to fill whole buffer")
  {
    assert [0x60, 0, 1, 0x7F] == [0x60] + [0, 1, 0x7F];
    OneByte(0x60, [0, 1, 0x7F]);
    TypesRunOut([0, 1, 0x7F], 96);
  }

  /** The decoder reads one 0x60 form byte for the whole type section,
      where the WebAssembly binary format (section 5.5.4 of the Core
      Specification 1.0) puts one in front of every signature: with two
      signatures `[] -> [i32]`, the second form byte is read as a count of
      96 parameters, and the bytes run out. */
  lemma TwoSignatures(d: Decoded)
    ensures TypeSection([2, 0x60, 0, 1, 0x7F, 0x60, 0, 1, 0x7F], d) ==
      Panic("failed to fill whole buffer")
  {
    var second: seq<byte> := [0x60, 0, 1, 0x7F];
    var first: seq<byte> := [0, 1, 0x7F] + second;
    var s: seq<byte> := [2, 0x60] + first;
    assert s == [2, 0x60, 0, 1, 0x7F, 0x60, 0, 1, 0x7F];
    assert s == [2] + ([0x60] + first);
    OneByte(2, [0x60] + first);
    assert ([0x60] + first)[1..] == first;
    NoParameters(second);
    FormByteAsCount();
    assert ParserSpec.Many(Signature, first, 2) == Panic("failed to fill whole buffer");
  }

  /** A function section read before any type section panics on the
      index of the missing function type. */
  lemma FunctionsBeforeTypes()
    ensures FunctionSection([1, 0], Empty) == Panic("index out of bounds")
  {
    OneByte(1, [0]);
    OneByte(0, []);
  }

  /** A function section: its size, then `decode_function_section`
      on what follows the size. */
  lemma FunctionKind(s: seq<byte>, d: Decoded)
    requires Unsigned(s).Ok?
    ensures SectionBody(3, s, d) == FunctionSection(Unsigned(s).value.1, d)
  {
    assert SectionIds.FromUsize(3) == Ok(Some(SectionIds.FunctionSectionId));
  }

  /** A type section: its size, then `decode_type_section` on what
      follows the size. */
  lemma TypeKind(s: seq<byte>, d: Decoded)
    requires Unsigned(s).Ok?
    ensures SectionBody(1, s, d) == TypeSection(Unsigned(s).value.1, d)
  {
    assert SectionIds.FromUsize(1) == Ok(Some(SectionIds.TypeSectionId));
  }

  /** A section that decodes hands the module it leaves to the next. */
  lemma SectionThen(id: byte, body: seq<byte>, d: Decoded, after: Decoded, rest: seq<byte>)
    requires SectionBody(id, body, d) == Ok((after, rest))
    ensures Sections([id] + body, d) == Sections(rest, after)
  {
    assert ([id] + body)[1..] == body;
  }

  /** A type section of six bytes holding the signature `[i32] -> [i32]`. */
  lemma TypeSectionOfOne(d: Decoded, rest: seq<byte>)
    ensures Sections([1, 6, 1, 0x60, 1, 0x7F, 1, 0x7F] + rest, d) ==
      Sections(rest, d.(functionTypes := d.functionTypes + [FunctionType([I32()], [I32()])]))
  {
    var types: seq<byte> := [1, 0x60, 1, 0x7F, 1, 0x7F] + rest;
    var body: seq<byte> := [6] + types;
    assert [1, 6, 1, 0x60, 1, 0x7F, 1, 0x7F] + rest == [1] + body;
    OneByte(6, types);
    OneSignature(d, rest);
    TypeKind(body, d);
    var after := d.(functionTypes := d.functionTypes + [FunctionType([I32()], [I32()])]);
    SectionThen(1, body, d, after, rest);
  }

  /** The body of a function section declaring one function of type 0. */
  lemma OneFunction(d: Decoded, rest: seq<byte>)
    requires |d.functionTypes| > 0
    ensures FunctionSection([1, 0] + rest, d) ==
      Ok((d.(functions := d.functions + [Functions.New(d.functionTypes[0], None)]), rest))
  {
    assert [1, 0] + rest == [1] + ([0] + rest);
    OneByte(1, [0] + rest);
    OneByte(0, rest);
    var f := Functions.New(d.functionTypes[0], None);
    assert FunctionEntries(rest, d.functionTypes, 1, 0) == Ok(([], rest));
    assert FunctionEntries([0] + rest, d.functionTypes, 0, 1) == Ok(([f] + [], rest));
    assert [f] + [] == [f];
  }

  /** A function section of two bytes declaring one function of type 0. */
  lemma FunctionSectionOfOne(d: Decoded, rest: seq<byte>)
    requires |d.functionTypes| > 0
    ensures Sections([3, 2, 1, 0] + rest, d) ==
      Sections(rest, d.(functions := d.functions + [Functions.New(d.functionTypes[0], None)]))
  {
    var body: seq<byte> := [2] + ([1, 0] + rest);
    assert [3, 2, 1, 0] + rest == [3] + body;
    OneByte(2, [1, 0] + rest);
    OneFunction(d, rest);
    FunctionKind(body, d);
    var after := d.(functions := d.functions + [Functions.New(d.functionTypes[0], None)]);
    SectionThen(3, body, d, after, rest);
  }

  /** A type section and a function section, one function of type
      `[i32] -> [i32]`, decode without panic. */
  lemma SmallModule()
    ensures DecodeSection([1, 6, 1, 0x60, 1, 0x7F, 1, 0x7F, 3, 2, 1, 0]) == Ok(())
  {
    var functions: seq<byte> := [3, 2, 1, 0];
    assert [1, 6, 1, 0x60, 1, 0x7F, 1, 0x7F, 3, 2, 1, 0] == [1, 6, 1, 0x60, 1, 0x7F, 1, 0x7F] + functions;
    TypeSectionOfOne(Empty, functions);
    var one := Empty.(functionTypes := Empty.functionTypes + [FunctionType([I32()], [I32()])]);
    assert functions == [3, 2, 1, 0] + [];
    FunctionSectionOfOne(one, []);
  }
}
