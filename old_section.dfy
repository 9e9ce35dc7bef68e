/** old/src/module/section.rs: the older section ids, the type entry
    header and the external kinds of imports and exports (sections 5.5.2
    and 5.5.10 of the WebAssembly Core Specification 1.0). */
module OldSection {
  import opened Bytes
  import opened Outcomes

  datatype SectionId =
      CustomSectionId | TypeSectionId | ImportSectionId | FunctionSectionId
    | GlobalSectionId | ExportSectionId | StartSectionId | CodeSectionId

  function Discriminant(id: SectionId): (n: byte)
    ensures n in {0, 1, 2, 3, 6, 7, 8, 10}
  {
    match id
    case CustomSectionId => 0
    case TypeSectionId => 1
    case ImportSectionId => 2
    case FunctionSectionId => 3
    case GlobalSectionId => 6
    case ExportSectionId => 7
    case StartSectionId => 8
    case CodeSectionId => 10
  }

  /** `SectionId::from_usize`: the ids of tables (4), memories (5),
      elements (9) and data (11), like every other id, reach `todo!`
      instead of returning `None`. */
  function FromUsize(n: byte): (r: Result<Option<SectionId>>)
    ensures r.Ok? <==> n in {0, 1, 2, 3, 6, 7, 8, 10}
    ensures r.Ok? ==> r.value.Some?
  {
    match n
    case 0 => Ok(Some(CustomSectionId))
    case 1 => Ok(Some(TypeSectionId))
    case 2 => Ok(Some(ImportSectionId))
    case 3 => Ok(Some(FunctionSectionId))
    case 6 => Ok(Some(GlobalSectionId))
    case 7 => Ok(Some(ExportSectionId))
    case 8 => Ok(Some(StartSectionId))
    case 10 => Ok(Some(CodeSectionId))
    case _ => Panic("not yet implemented")
  }

  lemma FromUsizeRoundTrip(id: SectionId, n: byte)
    ensures FromUsize(Discriminant(id)) == Ok(Some(id))
    ensures FromUsize(n).Ok? ==> Discriminant(FromUsize(n).value.value) == n
  {
  }

  /** `TypeSection::validate_type_entry_header`. */
  function ValidateTypeEntryHeader(header: byte): (r: Result<()>)
    ensures r.Ok? <==> header == 0x60
  {
    if header != 0x60 then Panic("Invalid TypeSection header") else Ok(())
  }

  datatype ExternalKind = Func | Table | LinearMemory | GlobalVariable

  function KindDiscriminant(k: ExternalKind): (n: byte)
    ensures n <= 3
  {
    match k
    case Func => 0
    case Table => 1
    case LinearMemory => 2
    case GlobalVariable => 3
  }

  /** `ExternalKind::from_usize`. */
  function KindFromUsize(n: byte): (r: Result<Option<ExternalKind>>)
    ensures r.Ok? <==> n <= 3
    ensures r.Ok? ==> r.value.Some?
  {
    match n
    case 0 => Ok(Some(Func))
    case 1 => Ok(Some(Table))
    case 2 => Ok(Some(LinearMemory))
    case 3 => Ok(Some(GlobalVariable))
    case _ => Panic("Invalid Export Kind")
  }

  lemma KindFromUsizeRoundTrip(k: ExternalKind, n: byte)
    ensures KindFromUsize(KindDiscriminant(k)) == Ok(Some(k))
    ensures KindFromUsize(n).Ok? ==> KindDiscriminant(KindFromUsize(n).value.value) == n
  {
  }
}
