/**
 * The records and codes of a POFF object file that the reader in
 * misc/pascal/libpoff/pfread.c works with.  Their C definitions (record
 * layouts, magic bytes, the current version, the section-type and flag
 * codes, the HAVE_* presence tests) live in pofflib.h and pfprivate.h,
 * which are not part of this model; they are gathered here in a `Format`
 * value so that every property of the reader holds whatever they are.
 */
module PoffFormat {

  datatype Option<T> = None | Some(value: T)

  /** The status codes the reader returns. */
  datatype Status = NoError | ReadError | BadFormat | NoMemory

  /**
   * sh_type of a section header: the seven types the reader knows, and
   * any other code.
   */
  datatype SectionType =
    | ProgData   // SHT_PROGDATA: program data, code or read-only data
    | SymTab     // SHT_SYMTAB
    | StrTab     // SHT_STRTAB
    | Rel        // SHT_REL
    | FileTab    // SHT_FILETAB
    | LineNo     // SHT_LINENO
    | Debug      // SHT_DEBUG
    | Unknown(code: nat)

  /** poffSectionHeader_t, as far as the reader looks into it. */
  datatype SectionHeader = SectionHeader(shType: SectionType, flags: bv8, offset: nat, size: nat)

  /** poffFileHeader_t, as far as the reader looks into it. */
  datatype FileHeader = FileHeader(
    ident: (bv8, bv8, bv8, bv8),  // fh_ident[FHI_MAG0..FHI_MAG3]
    version: nat,                 // fh_version
    shoff: nat,                   // fh_shoff: file offset of the first section header
    shnum: nat,                   // fh_shnum: number of section headers
    shsize: nat)                  // fh_shsize: distance between section headers

  /** The eight section slots of a POFF handle. */
  datatype Role =
    | Prog           // progSection: executable program data
    | RoData         // roDataSection: read-only program data
    | SymbolTable    // symbolTableSection
    | StringTable    // stringTableSection
    | Reloc          // relocSection
    | FileNameTable  // fileNameTableSection
    | LineNumber     // lineNumberSection
    | DebugFunc      // debugFuncSection

  /** The order in which the section data is buffered. */
  const RoleOrder: seq<Role> :=
    [Prog, RoData, SymbolTable, StringTable, Reloc, FileNameTable, LineNumber, DebugFunc]

  /** Where a role stands in RoleOrder. */
  function IndexOf(r: Role): (i: nat)
    ensures i < |RoleOrder| && RoleOrder[i] == r
  {
    match r
    case Prog => 0
    case RoData => 1
    case SymbolTable => 2
    case StringTable => 3
    case Reloc => 4
    case FileNameTable => 5
    case LineNumber => 6
    case DebugFunc => 7
  }

  /** Every role appears in RoleOrder exactly once. */
  lemma RoleOrderIsPermutation()
    ensures |RoleOrder| == 8
    ensures forall i :: 0 <= i < |RoleOrder| ==> IndexOf(RoleOrder[i]) == i
  {
  }

  /** One value per role: the handle's section slots, or its data pointers. */
  datatype PerRole<T> = PerRole(
    prog: T, roData: T, symbolTable: T, stringTable: T,
    reloc: T, fileNameTable: T, lineNumber: T, debugFunc: T)
  {
    function Get(r: Role): T {
      match r
      case Prog => prog
      case RoData => roData
      case SymbolTable => symbolTable
      case StringTable => stringTable
      case Reloc => reloc
      case FileNameTable => fileNameTable
      case LineNumber => lineNumber
      case DebugFunc => debugFunc
    }

    /** The slots after storing `v` in slot `r`: only that slot changes. */
    function Set(r: Role, v: T): (t: PerRole<T>)
      ensures t.Get(r) == v
      ensures forall q :: q != r ==> t.Get(q) == Get(q)
    {
      match r
      case Prog => this.(prog := v)
      case RoData => this.(roData := v)
      case SymbolTable => this.(symbolTable := v)
      case StringTable => this.(stringTable := v)
      case Reloc => this.(reloc := v)
      case FileNameTable => this.(fileNameTable := v)
      case LineNumber => this.(lineNumber := v)
      case DebugFunc => this.(debugFunc := v)
    }
  }

  /**
   * The definitions from pofflib.h, pfprivate.h and the instruction-set
   * header: the magic bytes FHI_POFF_MAG0..3, FHV_CURRENT, the SHF_EXEC
   * flag, sizeof the two header records, how the
   * bytes of a record read as a header (layout and byte order), and the
   * HAVE_* test of whether a section slot holds a section.
   */
  datatype Format = Format(
    magic: (bv8, bv8, bv8, bv8),
    currentVersion: nat,
    execFlag: bv8,
    fileHeaderSize: nat,
    sectionHeaderSize: nat,
    parseFileHeader: seq<bv8> -> FileHeader,
    parseSectionHeader: seq<bv8> -> SectionHeader,
    have: (Role, SectionHeader) -> bool)
}
