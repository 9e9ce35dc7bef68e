/** src/module/section.rs: the section ids this version knows (section
    5.5.2 of the WebAssembly Core Specification 1.0) and the type section's
    entry header.  `from_usize` can only return `Some`: every id it does
    not know panics. */
module Section {
  import opened Bytes
  import opened Outcomes

  datatype SectionId = CustomSectionId | TypeSectionId | FunctionSectionId | ExportSectionId | CodeSectionId

  /** The enum discriminant, which is the standard's section id. */
  function Discriminant(id: SectionId): (n: byte)
    ensures n in {0, 1, 3, 7, 10}
  {
    match id
    case CustomSectionId => 0
    case TypeSectionId => 1
    case FunctionSectionId => 3
    case ExportSectionId => 7
    case CodeSectionId => 10
  }

  /** `SectionId::from_usize`. */
  function FromUsize(n: byte): (r: Result<Option<SectionId>>)
    ensures r.Ok? <==> n in {0, 1, 3, 7, 10}
    ensures r.Ok? ==> r.value.Some?
  {
    match n
    case 0 => Ok(Some(CustomSectionId))
    case 1 => Ok(Some(TypeSectionId))
    case 3 => Ok(Some(FunctionSectionId))
    case 7 => Ok(Some(ExportSectionId))
    case 10 => Ok(Some(CodeSectionId))
    case _ => Panic("Error: Not implemented")
  }

  /** `from_usize` inverts the discriminant, and what it returns has the
      id it was given as its discriminant. */
  lemma FromUsizeRoundTrip(id: SectionId, n: byte)
    ensures FromUsize(Discriminant(id)) == Ok(Some(id))
    ensures FromUsize(n).Ok? ==> Discriminant(FromUsize(n).value.value) == n
  {
  }

  /** `TypeSection::validate_header`. */
  function ValidateHeader(header: byte): (r: Result<()>)
    ensures r.Ok? <==> header == 0x60
  {
    if header != 0x60 then Panic("Invalid TypeSection header") else Ok(())
  }
}
