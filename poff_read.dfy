/**
 * Reading a POFF object file into a POFF handle (misc/pascal/libpoff/pfread.c).
 *
 * The reader runs three phases and stops at the first that fails:
 *  1. the file header at offset 0 is read and its magic bytes and version
 *     checked;
 *  2. fh_shnum section headers are read, fh_shsize bytes apart from
 *     fh_shoff on, and each is stored in the handle slot its type (and, for
 *     program data, its SHF_EXEC flag) selects; a later header of the same
 *     role replaces an earlier one, and an unknown type stops the load;
 *  3. the data of every present section is read into a buffer of its own,
 *     in the fixed order of RoleOrder.
 *
 * Each phase is given first as a function of the file and of the handle's
 * previous contents, then as a method of the handle class `PoffInfo` that
 * performs the seeks and reads and is proved to compute that function.
 */
module PoffRead {
  import opened PoffFormat
  import opened StdioFile

  // ---------------------------------------------------------------------
  // Phase 1: the file header (poffReadFileHeader)
  // ---------------------------------------------------------------------

  /** The magic bytes and version test of a file header. */
  function CheckFileHeader(fmt: Format, h: FileHeader): (st: Status)
    ensures st == NoError <==> h.ident == fmt.magic && h.version == fmt.currentVersion
    ensures st == NoError || st == BadFormat
  {
    if || h.ident.0 != fmt.magic.0
       || h.ident.1 != fmt.magic.1
       || h.ident.2 != fmt.magic.2
       || h.ident.3 != fmt.magic.3
       || h.version != fmt.currentVersion
    then BadFormat
    else NoError
  }

  /** The status of a phase and the handle's file header after it. */
  datatype HeaderOutcome = HeaderOutcome(status: Status, header: FileHeader)

  /** Whether the file header record can be read whole from offset 0. */
  predicate HeaderReadable(fmt: Format, img: FileImage) {
    0 !in img.seekFailures && ReadsWhole(img, 0, fmt.fileHeaderSize)
  }

  /** The file header record as stored at the start of the file. */
  function StoredHeader(fmt: Format, img: FileImage): FileHeader
    requires fmt.fileHeaderSize <= |img.contents|
  {
    fmt.parseFileHeader(img.contents[..fmt.fileHeaderSize])
  }

  /** poffReadFileHeader, given the handle's previous file header. */
  function FileHeaderRead(fmt: Format, img: FileImage, prior: FileHeader): (r: HeaderOutcome)
    // a failed seek or a short read is a read error, and leaves the header alone
    ensures r.status == ReadError <==> !HeaderReadable(fmt, img)
    ensures r.status == ReadError ==> r.header == prior
    // a whole record is stored, then judged by its magic bytes and version
    ensures HeaderReadable(fmt, img) ==>
      r.header == StoredHeader(fmt, img) && r.status == CheckFileHeader(fmt, r.header)
    ensures r.status != NoMemory
  {
    if 0 in img.seekFailures then HeaderOutcome(ReadError, prior)
    else
      var bytes := Slice(img, 0, fmt.fileHeaderSize);
      if |bytes| != fmt.fileHeaderSize then HeaderOutcome(ReadError, prior)
      else
        var h := fmt.parseFileHeader(bytes);
        HeaderOutcome(CheckFileHeader(fmt, h), h)
  }

  // ---------------------------------------------------------------------
  // Phase 2: the section headers (poffReadSectionHeaders)
  // ---------------------------------------------------------------------

  /** The type tag of the sections that go to a role. */
  function TypeOf(r: Role): SectionType {
    match r
    case Prog => ProgData
    case RoData => ProgData
    case SymbolTable => SymTab
    case StringTable => StrTab
    case Reloc => Rel
    case FileNameTable => FileTab
    case LineNumber => LineNo
    case DebugFunc => Debug
  }

  /** The slot a section header goes to, or None for a type the reader does not know. */
  function RoleOf(fmt: Format, sh: SectionHeader): (r: Option<Role>)
    ensures r.None? <==> sh.shType.Unknown?
    ensures r.Some? ==> TypeOf(r.value) == sh.shType
    ensures sh.shType == ProgData ==>
      r == Some(if sh.flags & fmt.execFlag != 0 then Prog else RoData)
  {
    match sh.shType
    case ProgData => Some(if sh.flags & fmt.execFlag != 0 then Prog else RoData)
    case SymTab => Some(SymbolTable)
    case StrTab => Some(StringTable)
    case Rel => Some(Reloc)
    case FileTab => Some(FileNameTable)
    case LineNo => Some(LineNumber)
    case Debug => Some(DebugFunc)
    case Unknown(_) => None
  }

  /** The six types other than program data each have exactly one role. */
  lemma {:induction false} RoleOfOneToOne(fmt: Format, a: SectionHeader, b: SectionHeader)
    requires RoleOf(fmt, a).Some? && RoleOf(fmt, a) == RoleOf(fmt, b)
    ensures a.shType == b.shType
  {
    assert TypeOf(RoleOf(fmt, a).value) == a.shType;
    assert TypeOf(RoleOf(fmt, b).value) == b.shType;
  }

  /**
   * The file offset of section header `i`: the first lies at fh_shoff and
   * each further one fh_shsize bytes after the one before.
   */
  function SectionHeaderOffset(fh: FileHeader, i: nat): nat
    decreases i
  {
    if i == 0 then fh.shoff else SectionHeaderOffset(fh, i - 1) + fh.shsize
  }

  /** Section header `i` lies at fh_shoff plus `i` times fh_shsize. */
  lemma {:induction false} SectionHeaderOffsetIsLinear(fh: FileHeader, i: nat)
    ensures SectionHeaderOffset(fh, i) == fh.shoff + i * fh.shsize
    decreases i
  {
    if i > 0 {
      SectionHeaderOffsetIsLinear(fh, i - 1);
      assert i * fh.shsize == (i - 1) * fh.shsize + fh.shsize;
    }
  }

  /** Section header `i`, or None when its seek fails or its record is cut short. */
  function HeaderAt(fmt: Format, img: FileImage, fh: FileHeader, i: nat): Option<SectionHeader>
  {
    var off := SectionHeaderOffset(fh, i);
    if off in img.seekFailures then None
    else
      var bytes := Slice(img, off, fmt.sectionHeaderSize);
      if |bytes| != fmt.sectionHeaderSize then None else Some(fmt.parseSectionHeader(bytes))
  }

  /** The slot section header `i` goes to; None when it cannot be read or its type is unknown. */
  function RoleAt(fmt: Format, img: FileImage, fh: FileHeader, i: nat): Option<Role> {
    match HeaderAt(fmt, img, fh, i)
    case None => None
    case Some(sh) => RoleOf(fmt, sh)
  }

  /** The status of the phase and the handle's section slots after it. */
  datatype HeadersOutcome = HeadersOutcome(status: Status, sections: PerRole<SectionHeader>)

  /** The first `n` turns of the loop of poffReadSectionHeaders. */
  function SectionHeadersRead(fmt: Format, img: FileImage, fh: FileHeader,
                              prior: PerRole<SectionHeader>, n: nat): (r: HeadersOutcome)
    // an unknown type is a read error, like a failed seek or read, never a format error
    ensures r.status == NoError || r.status == ReadError
    decreases n
  {
    if n == 0 then HeadersOutcome(NoError, prior)
    else
      var p := SectionHeadersRead(fmt, img, fh, prior, n - 1);
      if p.status != NoError then p
      else
        match HeaderAt(fmt, img, fh, n - 1)
        case None => HeadersOutcome(ReadError, p.sections)
        case Some(sh) =>
          match RoleOf(fmt, sh)
          case None => HeadersOutcome(ReadError, p.sections)
          case Some(role) => HeadersOutcome(NoError, p.sections.Set(role, sh))
  }

  /** A turn that reads a header of a known type stores it in its role's slot. */
  lemma SectionHeadersAdvance(fmt: Format, img: FileImage, fh: FileHeader,
                              prior: PerRole<SectionHeader>, i: nat, sh: SectionHeader)
    requires SectionHeadersRead(fmt, img, fh, prior, i).status == NoError
    requires HeaderAt(fmt, img, fh, i) == Some(sh) && RoleOf(fmt, sh).Some?
    ensures SectionHeadersRead(fmt, img, fh, prior, i + 1)
         == HeadersOutcome(NoError, SectionHeadersRead(fmt, img, fh, prior, i).sections.Set(RoleOf(fmt, sh).value, sh))
  {
  }

  /** The phase succeeds exactly when every header can be read and has a known type. */
  lemma {:induction false} SectionHeadersSucceed(fmt: Format, img: FileImage, fh: FileHeader,
                                                 prior: PerRole<SectionHeader>, n: nat)
    ensures SectionHeadersRead(fmt, img, fh, prior, n).status == NoError
        <==> forall i :: 0 <= i < n ==> RoleAt(fmt, img, fh, i).Some?
    decreases n
  {
    if n > 0 {
      SectionHeadersSucceed(fmt, img, fh, prior, n - 1);
      assert SectionHeadersRead(fmt, img, fh, prior, n).status == NoError
        <==> SectionHeadersRead(fmt, img, fh, prior, n - 1).status == NoError
             && RoleAt(fmt, img, fh, n - 1).Some?;
    }
  }

  /** Once a turn has failed, the later turns change nothing. */
  lemma {:induction false} SectionHeadersStop(fmt: Format, img: FileImage, fh: FileHeader,
                                              prior: PerRole<SectionHeader>, m: nat, n: nat)
    requires m <= n
    requires SectionHeadersRead(fmt, img, fh, prior, m).status != NoError
    ensures SectionHeadersRead(fmt, img, fh, prior, n) == SectionHeadersRead(fmt, img, fh, prior, m)
    decreases n
  {
    if n > m {
      SectionHeadersStop(fmt, img, fh, prior, m, n - 1);
    }
  }

  /**
   * Last one wins: after the phase, the slot of a role holds the last
   * header of that role.
   */
  lemma {:induction false} SectionHeadersLastWins(fmt: Format, img: FileImage, fh: FileHeader,
                                                  prior: PerRole<SectionHeader>, n: nat, r: Role, i: nat)
    requires SectionHeadersRead(fmt, img, fh, prior, n).status == NoError
    requires i < n && RoleAt(fmt, img, fh, i) == Some(r)
    requires forall j :: i < j < n ==> RoleAt(fmt, img, fh, j) != Some(r)
    ensures SectionHeadersRead(fmt, img, fh, prior, n).sections.Get(r) == HeaderAt(fmt, img, fh, i).value
    decreases n
  {
    SectionHeadersSucceed(fmt, img, fh, prior, n);
    SectionHeadersSucceed(fmt, img, fh, prior, n - 1);
    if i < n - 1 {
      SectionHeadersLastWins(fmt, img, fh, prior, n - 1, r, i);
      assert RoleAt(fmt, img, fh, n - 1) != Some(r);
    }
  }

  /** A slot whose role no header has keeps what it held before. */
  lemma {:induction false} SectionHeadersUnseen(fmt: Format, img: FileImage, fh: FileHeader,
                                                prior: PerRole<SectionHeader>, n: nat, r: Role)
    requires forall i :: 0 <= i < n ==> RoleAt(fmt, img, fh, i) != Some(r)
    ensures SectionHeadersRead(fmt, img, fh, prior, n).sections.Get(r) == prior.Get(r)
    decreases n
  {
    if n > 0 {
      SectionHeadersUnseen(fmt, img, fh, prior, n - 1, r);
      assert RoleAt(fmt, img, fh, n - 1) != Some(r);
    }
  }

  /**
   * A failed phase stopped at the first header that could not be read or
   * had an unknown type, and the slots keep what the headers before it
   * wrote.
   */
  lemma {:induction false} SectionHeadersFailure(fmt: Format, img: FileImage, fh: FileHeader,
                                                 prior: PerRole<SectionHeader>, n: nat)
    requires SectionHeadersRead(fmt, img, fh, prior, n).status != NoError
    ensures exists i ::
      (&& 0 <= i < n
       && RoleAt(fmt, img, fh, i).None?
       && SectionHeadersRead(fmt, img, fh, prior, i).status == NoError
       && SectionHeadersRead(fmt, img, fh, prior, n)
          == HeadersOutcome(ReadError, SectionHeadersRead(fmt, img, fh, prior, i).sections))
    decreases n
  {
    var p := SectionHeadersRead(fmt, img, fh, prior, n - 1);
    if p.status != NoError {
      SectionHeadersFailure(fmt, img, fh, prior, n - 1);
    } else {
      assert RoleAt(fmt, img, fh, n - 1).None?;
    }
  }

  // ---------------------------------------------------------------------
  // Phase 3: the section data (poffReadSectionData, poffReadAllSectionData)
  // ---------------------------------------------------------------------

  /** The status of reading one section and the handle's data pointer for it afterwards. */
  datatype SectionOutcome = SectionOutcome(status: Status, buffer: Option<seq<bv8>>)

  /** Whether a section's data can be read whole from the file. */
  predicate SectionReadable(img: FileImage, sh: SectionHeader) {
    sh.offset !in img.seekFailures && ReadsWhole(img, sh.offset, sh.size)
  }

  /**
   * poffReadSectionData: `allocOk` is whether malloc delivered a buffer,
   * `prior` the data pointer before the call.
   */
  function SectionDataRead(img: FileImage, sh: SectionHeader, allocOk: bool,
                           prior: Option<seq<bv8>>): (r: SectionOutcome)
    // success exactly when seek, allocation and the whole read succeed;
    // the buffer then holds the section's bytes
    ensures r.status == NoError <==> SectionReadable(img, sh) && allocOk
    ensures r.status == NoError ==>
      r.buffer.Some? && |r.buffer.value| == sh.size
      && (sh.size > 0 ==> r.buffer.value == img.contents[sh.offset..sh.offset + sh.size])
    // a failed seek leaves the pointer alone; a failed allocation is out of memory
    ensures sh.offset in img.seekFailures ==> r == SectionOutcome(ReadError, prior)
    ensures r.status == NoMemory <==> sh.offset !in img.seekFailures && !allocOk
    ensures r.status != BadFormat
  {
    if sh.offset in img.seekFailures then SectionOutcome(ReadError, prior)
    else if !allocOk then SectionOutcome(NoMemory, None)
    else
      var bytes := Slice(img, sh.offset, sh.size);
      if |bytes| != sh.size then SectionOutcome(ReadError, Some(bytes))
      else SectionOutcome(NoError, Some(bytes))
  }

  /** The status of the phase and the handle's data pointers after it. */
  datatype DataOutcome = DataOutcome(status: Status, data: PerRole<Option<seq<bv8>>>)

  /** Whether the slot of role `r` holds a section (the HAVE_* tests). */
  predicate Present(fmt: Format, sections: PerRole<SectionHeader>, r: Role) {
    fmt.have(r, sections.Get(r))
  }

  /**
   * One statement of poffReadAllSectionData: from the outcome `p` of the
   * statements before it, the section in slot `r` is read when they all
   * succeeded and the slot holds a section; otherwise nothing changes.
   */
  function DataStep(fmt: Format, img: FileImage, sections: PerRole<SectionHeader>,
                    allocFails: set<Role>, r: Role, p: DataOutcome): DataOutcome
  {
    if p.status != NoError || !Present(fmt, sections, r) then p
    else
      var s := SectionDataRead(img, sections.Get(r), r !in allocFails, p.data.Get(r));
      DataOutcome(s.status, p.data.Set(r, s.buffer))
  }

  /**
   * The first `n` steps of poffReadAllSectionData, one per role of
   * RoleOrder.  `allocFails` are the roles whose buffer allocation fails.
   */
  function AllSectionDataRead(fmt: Format, img: FileImage, sections: PerRole<SectionHeader>,
                              allocFails: set<Role>, prior: PerRole<Option<seq<bv8>>>,
                              n: nat): (r: DataOutcome)
    requires n <= |RoleOrder|
    ensures r.status != BadFormat
    decreases n
  {
    if n == 0 then DataOutcome(NoError, prior)
    else
      DataStep(fmt, img, sections, allocFails, RoleOrder[n - 1],
               AllSectionDataRead(fmt, img, sections, allocFails, prior, n - 1))
  }

  /** Whether the data of role `r`, if present, is read successfully. */
  predicate DataReadable(fmt: Format, img: FileImage, sections: PerRole<SectionHeader>,
                         allocFails: set<Role>, r: Role) {
    Present(fmt, sections, r) ==> SectionReadable(img, sections.Get(r)) && r !in allocFails
  }

  /**
   * The first `n` steps succeed exactly when every present section among
   * them can be read whole into a buffer.
   */
  lemma {:induction false} AllSectionDataSucceed(fmt: Format, img: FileImage, sections: PerRole<SectionHeader>,
                                                 allocFails: set<Role>, prior: PerRole<Option<seq<bv8>>>, n: nat)
    requires n <= |RoleOrder|
    ensures AllSectionDataRead(fmt, img, sections, allocFails, prior, n).status == NoError
        <==> forall j :: 0 <= j < n ==> DataReadable(fmt, img, sections, allocFails, RoleOrder[j])
    decreases n
  {
    if n > 0 {
      AllSectionDataSucceed(fmt, img, sections, allocFails, prior, n - 1);
      assert AllSectionDataRead(fmt, img, sections, allocFails, prior, n).status == NoError
        <==> AllSectionDataRead(fmt, img, sections, allocFails, prior, n - 1).status == NoError
             && DataReadable(fmt, img, sections, allocFails, RoleOrder[n - 1]);
    }
  }

  /**
   * After `n` successful steps, the pointer of each present section among
   * them holds that section's bytes and every other pointer is unchanged.
   */
  lemma {:induction false} AllSectionDataContents(fmt: Format, img: FileImage, sections: PerRole<SectionHeader>,
                                                  allocFails: set<Role>, prior: PerRole<Option<seq<bv8>>>,
                                                  n: nat, j: nat)
    requires j < n <= |RoleOrder|
    requires AllSectionDataRead(fmt, img, sections, allocFails, prior, n).status == NoError
    ensures AllSectionDataRead(fmt, img, sections, allocFails, prior, n).data.Get(RoleOrder[j])
         == if Present(fmt, sections, RoleOrder[j])
            then Some(Slice(img, sections.Get(RoleOrder[j]).offset, sections.Get(RoleOrder[j]).size))
            else prior.Get(RoleOrder[j])
    decreases n
  {
    var p := AllSectionDataRead(fmt, img, sections, allocFails, prior, n - 1);
    assert p.status == NoError;
    RoleOrderIsPermutation();
    if j == n - 1 {
      AllSectionDataLaterUntouched(fmt, img, sections, allocFails, prior, n - 1);
    } else {
      AllSectionDataContents(fmt, img, sections, allocFails, prior, n - 1, j);
      assert RoleOrder[n - 1] != RoleOrder[j] by {
        assert IndexOf(RoleOrder[n - 1]) != IndexOf(RoleOrder[j]);
      }
    }
  }

  /** The roles after the first `n` in RoleOrder are not touched by the first `n` steps. */
  lemma {:induction false} AllSectionDataLaterUntouched(fmt: Format, img: FileImage, sections: PerRole<SectionHeader>,
                                                        allocFails: set<Role>, prior: PerRole<Option<seq<bv8>>>, n: nat)
    requires n <= |RoleOrder|
    ensures forall j :: n <= j < |RoleOrder| ==>
      AllSectionDataRead(fmt, img, sections, allocFails, prior, n).data.Get(RoleOrder[j]) == prior.Get(RoleOrder[j])
    decreases n
  {
    if n > 0 {
      AllSectionDataLaterUntouched(fmt, img, sections, allocFails, prior, n - 1);
      RoleOrderIsPermutation();
    }
  }

  /** Once a step has failed, the later steps change nothing. */
  lemma {:induction false} AllSectionDataStop(fmt: Format, img: FileImage, sections: PerRole<SectionHeader>,
                                              allocFails: set<Role>, prior: PerRole<Option<seq<bv8>>>, m: nat, n: nat)
    requires m <= n <= |RoleOrder|
    requires AllSectionDataRead(fmt, img, sections, allocFails, prior, m).status != NoError
    ensures AllSectionDataRead(fmt, img, sections, allocFails, prior, n)
         == AllSectionDataRead(fmt, img, sections, allocFails, prior, m)
    decreases n
  {
    if n > m {
      AllSectionDataStop(fmt, img, sections, allocFails, prior, m, n - 1);
    }
  }

  /** Step `k` of the phase is DataStep on the `k`-th role of RoleOrder. */
  lemma AllSectionDataStep(fmt: Format, img: FileImage, sections: PerRole<SectionHeader>,
                           allocFails: set<Role>, prior: PerRole<Option<seq<bv8>>>, k: nat)
    requires k < |RoleOrder|
    ensures AllSectionDataRead(fmt, img, sections, allocFails, prior, k + 1)
         == DataStep(fmt, img, sections, allocFails, RoleOrder[k],
                     AllSectionDataRead(fmt, img, sections, allocFails, prior, k))
  {
  }

  /** The eight statements of poffReadAllSectionData, one after the other. */
  lemma AllSectionDataInOrder(fmt: Format, img: FileImage, sections: PerRole<SectionHeader>,
                              allocFails: set<Role>, prior: PerRole<Option<seq<bv8>>>)
    ensures AllSectionDataRead(fmt, img, sections, allocFails, prior, |RoleOrder|)
         == var o1 := DataStep(fmt, img, sections, allocFails, Prog, DataOutcome(NoError, prior));
            var o2 := DataStep(fmt, img, sections, allocFails, RoData, o1);
            var o3 := DataStep(fmt, img, sections, allocFails, SymbolTable, o2);
            var o4 := DataStep(fmt, img, sections, allocFails, StringTable, o3);
            var o5 := DataStep(fmt, img, sections, allocFails, Reloc, o4);
            var o6 := DataStep(fmt, img, sections, allocFails, FileNameTable, o5);
            var o7 := DataStep(fmt, img, sections, allocFails, LineNumber, o6);
            DataStep(fmt, img, sections, allocFails, DebugFunc, o7)
  {
    AllSectionDataStep(fmt, img, sections, allocFails, prior, 0);
    AllSectionDataStep(fmt, img, sections, allocFails, prior, 1);
    AllSectionDataStep(fmt, img, sections, allocFails, prior, 2);
    AllSectionDataStep(fmt, img, sections, allocFails, prior, 3);
    AllSectionDataStep(fmt, img, sections, allocFails, prior, 4);
    AllSectionDataStep(fmt, img, sections, allocFails, prior, 5);
    AllSectionDataStep(fmt, img, sections, allocFails, prior, 6);
    AllSectionDataStep(fmt, img, sections, allocFails, prior, 7);
  }

  /**
   * A failed phase failed at one present section: every section before it
   * in RoleOrder was read, its status is the phase's status, and no section
   * after it was attempted.
   */
  lemma {:induction false} AllSectionDataFailure(fmt: Format, img: FileImage, sections: PerRole<SectionHeader>,
                                                 allocFails: set<Role>, prior: PerRole<Option<seq<bv8>>>)
    requires AllSectionDataRead(fmt, img, sections, allocFails, prior, |RoleOrder|).status != NoError
    ensures exists m ::
      (&& 0 <= m < |RoleOrder|
       && AllSectionDataRead(fmt, img, sections, allocFails, prior, m).status == NoError
       && Present(fmt, sections, RoleOrder[m])
       && !DataReadable(fmt, img, sections, allocFails, RoleOrder[m])
       && AllSectionDataRead(fmt, img, sections, allocFails, prior, |RoleOrder|).status
          == SectionDataRead(img, sections.Get(RoleOrder[m]), RoleOrder[m] !in allocFails, None).status
       && (forall j :: m < j < |RoleOrder| ==>
             AllSectionDataRead(fmt, img, sections, allocFails, prior, |RoleOrder|).data.Get(RoleOrder[j])
             == prior.Get(RoleOrder[j])))
  {
    var n := |RoleOrder|;
    var m := FirstFailure(fmt, img, sections, allocFails, prior, n);
    var last := AllSectionDataRead(fmt, img, sections, allocFails, prior, n);
    var r := RoleOrder[m];
    AllSectionDataStop(fmt, img, sections, allocFails, prior, m + 1, n);
    assert last.status == SectionDataRead(img, sections.Get(r), r !in allocFails, None).status;
    AllSectionDataLaterUntouched(fmt, img, sections, allocFails, prior, m + 1);
  }

  /** The step at which a failed run of the first `n` steps failed. */
  function FirstFailure(fmt: Format, img: FileImage, sections: PerRole<SectionHeader>,
                        allocFails: set<Role>, prior: PerRole<Option<seq<bv8>>>, n: nat): (m: nat)
    requires n <= |RoleOrder|
    requires AllSectionDataRead(fmt, img, sections, allocFails, prior, n).status != NoError
    ensures m < n
    ensures AllSectionDataRead(fmt, img, sections, allocFails, prior, m).status == NoError
    ensures AllSectionDataRead(fmt, img, sections, allocFails, prior, m + 1).status != NoError
    ensures Present(fmt, sections, RoleOrder[m])
    ensures !DataReadable(fmt, img, sections, allocFails, RoleOrder[m])
    decreases n
  {
    if AllSectionDataRead(fmt, img, sections, allocFails, prior, n - 1).status != NoError
    then FirstFailure(fmt, img, sections, allocFails, prior, n - 1)
    else n - 1
  }

  // ---------------------------------------------------------------------
  // The whole load (poffReadFile)
  // ---------------------------------------------------------------------

  /** The parts of a POFF handle that the reader fills in. */
  datatype PoffState = PoffState(
    fileHeader: FileHeader,
    sections: PerRole<SectionHeader>,
    data: PerRole<Option<seq<bv8>>>)

  /** The status poffReadFile returns and the handle afterwards. */
  datatype LoadOutcome = LoadOutcome(status: Status, state: PoffState)

  /** poffReadFile: the three phases in turn, each only after the previous one succeeded. */
  function FileRead(fmt: Format, img: FileImage, allocFails: set<Role>, s: PoffState): (r: LoadOutcome)
    // a format error comes only from the file header, and then nothing else is touched
    ensures r.status == BadFormat <==>
      HeaderReadable(fmt, img) && CheckFileHeader(fmt, StoredHeader(fmt, img)) == BadFormat
    ensures r.status == BadFormat ==> r.state.sections == s.sections && r.state.data == s.data
    // a successful load has a valid header, read from the start of the file
    ensures r.status == NoError ==>
      && HeaderReadable(fmt, img)
      && r.state.fileHeader == StoredHeader(fmt, img)
      && r.state.fileHeader.ident == fmt.magic
      && r.state.fileHeader.version == fmt.currentVersion
  {
    var h := FileHeaderRead(fmt, img, s.fileHeader);
    var s1 := s.(fileHeader := h.header);
    if h.status != NoError then LoadOutcome(h.status, s1)
    else
      var hs := SectionHeadersRead(fmt, img, h.header, s.sections, h.header.shnum);
      var s2 := s1.(sections := hs.sections);
      if hs.status != NoError then LoadOutcome(hs.status, s2)
      else
        var d := AllSectionDataRead(fmt, img, hs.sections, allocFails, s.data, |RoleOrder|);
        LoadOutcome(d.status, s2.(data := d.data))
  }

  /**
   * Whether poffReadFile succeeds: the header record is read whole and is
   * valid, every one of its section headers is read and has a known type,
   * and the data of every present section that phase leaves in the slots
   * can be read into a buffer.
   */
  predicate Loadable(fmt: Format, img: FileImage, allocFails: set<Role>, s: PoffState) {
    && HeaderReadable(fmt, img)
    && var fh := StoredHeader(fmt, img);
       && CheckFileHeader(fmt, fh) == NoError
       && (forall i :: 0 <= i < fh.shnum ==> RoleAt(fmt, img, fh, i).Some?)
       && var sections := SectionHeadersRead(fmt, img, fh, s.sections, fh.shnum).sections;
          forall q: Role :: DataReadable(fmt, img, sections, allocFails, q)
  }

  /**
   * A load succeeds exactly when the file is loadable.  A header record
   * that cannot be sought or read whole is a read error that leaves the
   * handle as it was, and the load runs out of memory only after the file
   * header and every section header were read.
   */
  lemma {:induction false} FileReadStatus(fmt: Format, img: FileImage, allocFails: set<Role>, s: PoffState)
    ensures !HeaderReadable(fmt, img) ==> FileRead(fmt, img, allocFails, s) == LoadOutcome(ReadError, s)
    ensures FileRead(fmt, img, allocFails, s).status == NoError <==> Loadable(fmt, img, allocFails, s)
    ensures FileRead(fmt, img, allocFails, s).status == NoMemory ==>
      && HeaderReadable(fmt, img)
      && CheckFileHeader(fmt, StoredHeader(fmt, img)) == NoError
      && forall i :: 0 <= i < StoredHeader(fmt, img).shnum ==> RoleAt(fmt, img, StoredHeader(fmt, img), i).Some?
  {
    if HeaderReadable(fmt, img) && CheckFileHeader(fmt, StoredHeader(fmt, img)) == NoError {
      var fh := StoredHeader(fmt, img);
      SectionHeadersSucceed(fmt, img, fh, s.sections, fh.shnum);
      var hs := SectionHeadersRead(fmt, img, fh, s.sections, fh.shnum);
      if hs.status == NoError {
        AllSectionDataSucceed(fmt, img, hs.sections, allocFails, s.data, |RoleOrder|);
        AllRolesReadable(fmt, img, hs.sections, allocFails);
      }
    }
  }

  /** Every role is in RoleOrder, so the data of every role is readable when that of each role in the order is. */
  lemma AllRolesReadable(fmt: Format, img: FileImage, sections: PerRole<SectionHeader>, allocFails: set<Role>)
    ensures (forall j :: 0 <= j < |RoleOrder| ==> DataReadable(fmt, img, sections, allocFails, RoleOrder[j]))
        <==> (forall q: Role :: DataReadable(fmt, img, sections, allocFails, q))
  {
    if forall j :: 0 <= j < |RoleOrder| ==> DataReadable(fmt, img, sections, allocFails, RoleOrder[j]) {
      forall q: Role ensures DataReadable(fmt, img, sections, allocFails, q) {
        assert RoleOrder[IndexOf(q)] == q;
      }
    }
  }

  /**
   * A valid header with a section header that cannot be read or has an
   * unknown type is a read error: the handle keeps the new file header and
   * the slots the section headers before it wrote, and no data pointer
   * changes.
   */
  lemma {:induction false} FileReadSectionFailure(fmt: Format, img: FileImage, allocFails: set<Role>, s: PoffState, i: nat)
    requires HeaderReadable(fmt, img) && CheckFileHeader(fmt, StoredHeader(fmt, img)) == NoError
    requires i < StoredHeader(fmt, img).shnum && RoleAt(fmt, img, StoredHeader(fmt, img), i).None?
    ensures var fh := StoredHeader(fmt, img);
      FileRead(fmt, img, allocFails, s)
      == LoadOutcome(ReadError, PoffState(fh, SectionHeadersRead(fmt, img, fh, s.sections, fh.shnum).sections, s.data))
  {
    var fh := StoredHeader(fmt, img);
    SectionHeadersSucceed(fmt, img, fh, s.sections, fh.shnum);
  }

  /**
   * After a successful load every header was read and has a known type,
   * and every slot holds the last section header of its role, or what it
   * held before if the file has none.
   */
  lemma {:induction false} LoadedSections(fmt: Format, img: FileImage, allocFails: set<Role>, s: PoffState, r: Role)
    requires FileRead(fmt, img, allocFails, s).status == NoError
    ensures var st := FileRead(fmt, img, allocFails, s).state;
      var fh := st.fileHeader;
      && (forall i :: 0 <= i < fh.shnum ==> RoleAt(fmt, img, fh, i).Some?)
      && ((forall i :: 0 <= i < fh.shnum ==> RoleAt(fmt, img, fh, i) != Some(r)) ==>
            st.sections.Get(r) == s.sections.Get(r))
      && (forall i :: (0 <= i < fh.shnum && RoleAt(fmt, img, fh, i) == Some(r)
                      && (forall j :: i < j < fh.shnum ==> RoleAt(fmt, img, fh, j) != Some(r))) ==>
            st.sections.Get(r) == HeaderAt(fmt, img, fh, i).value)
  {
    var st := FileRead(fmt, img, allocFails, s).state;
    var fh := st.fileHeader;
    SectionHeadersSucceed(fmt, img, fh, s.sections, fh.shnum);
    if forall i :: 0 <= i < fh.shnum ==> RoleAt(fmt, img, fh, i) != Some(r) {
      SectionHeadersUnseen(fmt, img, fh, s.sections, fh.shnum, r);
    }
    forall i | 0 <= i < fh.shnum && RoleAt(fmt, img, fh, i) == Some(r)
        && (forall j :: i < j < fh.shnum ==> RoleAt(fmt, img, fh, j) != Some(r))
      ensures st.sections.Get(r) == HeaderAt(fmt, img, fh, i).value
    {
      SectionHeadersLastWins(fmt, img, fh, s.sections, fh.shnum, r, i);
    }
  }

  /**
   * After a successful load every present section lies inside the file and
   * its data pointer holds exactly its bytes; the pointers of absent
   * sections are unchanged.
   */
  lemma {:induction false} LoadedData(fmt: Format, img: FileImage, allocFails: set<Role>, s: PoffState, r: Role)
    requires FileRead(fmt, img, allocFails, s).status == NoError
    ensures var st := FileRead(fmt, img, allocFails, s).state;
      var sh := st.sections.Get(r);
      if Present(fmt, st.sections, r) then
        && SectionReadable(img, sh)
        && r !in allocFails
        && st.data.Get(r) == Some(Slice(img, sh.offset, sh.size))
        && (sh.size > 0 ==> st.data.Get(r) == Some(img.contents[sh.offset..sh.offset + sh.size]))
      else
        st.data.Get(r) == s.data.Get(r)
  {
    var st := FileRead(fmt, img, allocFails, s).state;
    AllSectionDataSucceed(fmt, img, st.sections, allocFails, s.data, |RoleOrder|);
    AllSectionDataContents(fmt, img, st.sections, allocFails, s.data, |RoleOrder|, IndexOf(r));
    assert DataReadable(fmt, img, st.sections, allocFails, RoleOrder[IndexOf(r)]);
  }

  /** A file too short to hold the file header is a read error. */
  lemma {:induction false} TruncatedHeaderIsReadError(fmt: Format, img: FileImage, allocFails: set<Role>, s: PoffState)
    requires |img.contents| < fmt.fileHeaderSize
    ensures FileRead(fmt, img, allocFails, s) == LoadOutcome(ReadError, s)
  {
  }

  /**
   * A file whose header has a wrong magic byte or version is a format error
   * and nothing besides the header record is read.
   */
  lemma {:induction false} CorruptHeaderIsBadFormat(fmt: Format, img: FileImage, allocFails: set<Role>, s: PoffState)
    requires HeaderReadable(fmt, img)
    requires StoredHeader(fmt, img).ident != fmt.magic || StoredHeader(fmt, img).version != fmt.currentVersion
    ensures FileRead(fmt, img, allocFails, s)
         == LoadOutcome(BadFormat, s.(fileHeader := StoredHeader(fmt, img)))
  {
  }

  /**
   * A file with a valid header that is cut short inside a present section
   * is a read error when every allocation succeeds: the load never succeeds
   * with a truncated section.
   */
  lemma {:induction false} TruncatedSectionIsReadError(fmt: Format, img: FileImage, s: PoffState, r: Role)
    requires HeaderReadable(fmt, img) && CheckFileHeader(fmt, StoredHeader(fmt, img)) == NoError
    requires var st := FileRead(fmt, img, {}, s).state;
      && Present(fmt, st.sections, r)
      && st.sections.Get(r).size > 0
      && st.sections.Get(r).offset + st.sections.Get(r).size > |img.contents|
    ensures FileRead(fmt, img, {}, s).status == ReadError
  {
    var h := FileHeaderRead(fmt, img, s.fileHeader);
    var hs := SectionHeadersRead(fmt, img, h.header, s.sections, h.header.shnum);
    if hs.status == NoError {
      AllSectionDataSucceed(fmt, img, hs.sections, {}, s.data, |RoleOrder|);
      assert !DataReadable(fmt, img, hs.sections, {}, RoleOrder[IndexOf(r)]);
      var m := FirstFailure(fmt, img, hs.sections, {}, s.data, |RoleOrder|);
      AllSectionDataStop(fmt, img, hs.sections, {}, s.data, m + 1, |RoleOrder|);
    }
  }

  // ---------------------------------------------------------------------
  // The handle and the reader's operations on it
  // ---------------------------------------------------------------------

  /** poffInfo_t: the handle the reader fills in. */
  class PoffInfo {
    const fmt: Format
    var fileHeader: FileHeader
    var sections: PerRole<SectionHeader>
    var data: PerRole<Option<seq<bv8>>>

    function State(): PoffState
      reads this
    {
      PoffState(fileHeader, sections, data)
    }

    /** A handle in the given state, as the handle constructor leaves it. */
    constructor (fmt: Format, s: PoffState)
      ensures this.fmt == fmt && State() == s
    {
      this.fmt := fmt;
      fileHeader := s.fileHeader;
      sections := s.sections;
      data := s.data;
    }

    /** poffReadFileHeader */
    method ReadFileHeader(file: File) returns (status: Status)
      modifies this, file
      ensures HeaderOutcome(status, fileHeader) == FileHeaderRead(fmt, file.image, old(fileHeader))
      ensures sections == old(sections) && data == old(data)
    {
      var ok := file.Seek(0);
      if !ok {
        return ReadError;
      }
      var bytes := file.Read(fmt.fileHeaderSize);
      if |bytes| != fmt.fileHeaderSize {
        return ReadError;
      }
      fileHeader := fmt.parseFileHeader(bytes);
      if || fileHeader.ident.0 != fmt.magic.0
         || fileHeader.ident.1 != fmt.magic.1
         || fileHeader.ident.2 != fmt.magic.2
         || fileHeader.ident.3 != fmt.magic.3
         || fileHeader.version != fmt.currentVersion
      {
        return BadFormat;
      }
      return NoError;
    }

    /**
     * One turn of the loop of poffReadSectionHeaders: section header `i`,
     * at `offset`, is read and stored in the slot its type selects.
     */
    method ReadSectionHeader(file: File, offset: nat, ghost prior: PerRole<SectionHeader>, ghost i: nat)
      returns (status: Status)
      requires offset == SectionHeaderOffset(fileHeader, i)
      requires SectionHeadersRead(fmt, file.image, fileHeader, prior, i) == HeadersOutcome(NoError, sections)
      modifies this, file
      ensures HeadersOutcome(status, sections) == SectionHeadersRead(fmt, file.image, fileHeader, prior, i + 1)
      ensures fileHeader == old(fileHeader) && data == old(data)
    {
      var ok := file.Seek(offset);
      if !ok {
        return ReadError;
      }
      var bytes := file.Read(fmt.sectionHeaderSize);
      if |bytes| != fmt.sectionHeaderSize {
        return ReadError;
      }
      var sectionHeader := fmt.parseSectionHeader(bytes);
      assert HeaderAt(fmt, file.image, fileHeader, i) == Some(sectionHeader);

      // the switch on sh_type: the slot the header goes to, or none
      match RoleOf(fmt, sectionHeader) {
        case None => return ReadError;
        case Some(role) =>
          SectionHeadersAdvance(fmt, file.image, fileHeader, prior, i, sectionHeader);
          sections := sections.Set(role, sectionHeader);
      }
      return NoError;
    }

    /** poffReadSectionHeaders */
    method ReadSectionHeaders(file: File) returns (status: Status)
      modifies this, file
      ensures HeadersOutcome(status, sections)
           == SectionHeadersRead(fmt, file.image, fileHeader, old(sections), fileHeader.shnum)
      ensures fileHeader == old(fileHeader) && data == old(data)
    {
      ghost var prior := sections;
      var offset := fileHeader.shoff;
      for i := 0 to fileHeader.shnum
        invariant fileHeader == old(fileHeader) && data == old(data)
        invariant offset == SectionHeaderOffset(fileHeader, i)
        invariant SectionHeadersRead(fmt, file.image, fileHeader, prior, i) == HeadersOutcome(NoError, sections)
      {
        status := ReadSectionHeader(file, offset, prior, i);
        if status != NoError {
          SectionHeadersStop(fmt, file.image, fileHeader, prior, i + 1, fileHeader.shnum);
          return;
        }
        offset := offset + fileHeader.shsize;
      }
      return NoError;
    }

    /**
     * poffReadSectionData for the section in slot `r`, storing the buffer
     * in that slot's data pointer; `allocOk` is whether malloc succeeds.
     */
    method ReadSectionData(r: Role, file: File, allocOk: bool) returns (status: Status)
      modifies this, file
      ensures var o := SectionDataRead(file.image, sections.Get(r), allocOk, old(data.Get(r)));
        status == o.status && data == old(data).Set(r, o.buffer)
      ensures fileHeader == old(fileHeader) && sections == old(sections)
    {
      var shdr := sections.Get(r);
      var ok := file.Seek(shdr.offset);
      if !ok {
        return ReadError;
      }
      if !allocOk {
        data := data.Set(r, None);
        return NoMemory;
      }
      var bytes := file.Read(shdr.size);
      data := data.Set(r, Some(bytes));
      if |bytes| != shdr.size {
        return ReadError;
      }
      return NoError;
    }

    /**
     * One statement of poffReadAllSectionData: the section in slot `r` is
     * read when the reads before it succeeded (`previous` is their status)
     * and the slot holds a section.
     */
    method ReadIfPresent(r: Role, file: File, allocFails: set<Role>, previous: Status)
      returns (status: Status)
      modifies this, file
      ensures DataOutcome(status, data)
           == DataStep(fmt, file.image, sections, allocFails, r, DataOutcome(previous, old(data)))
      ensures fileHeader == old(fileHeader) && sections == old(sections)
    {
      status := previous;
      if status == NoError && Present(fmt, sections, r) {
        status := ReadSectionData(r, file, r !in allocFails);
      }
    }

    /** poffReadAllSectionData: `allocFails` are the roles whose allocation fails. */
    method ReadAllSectionData(file: File, allocFails: set<Role>) returns (status: Status)
      modifies this, file
      ensures DataOutcome(status, data)
           == AllSectionDataRead(fmt, file.image, sections, allocFails, old(data), |RoleOrder|)
      ensures fileHeader == old(fileHeader) && sections == old(sections)
    {
      AllSectionDataInOrder(fmt, file.image, sections, allocFails, data);
      status := ReadIfPresent(Prog, file, allocFails, NoError);
      status := ReadIfPresent(RoData, file, allocFails, status);
      status := ReadIfPresent(SymbolTable, file, allocFails, status);
      status := ReadIfPresent(StringTable, file, allocFails, status);
      status := ReadIfPresent(Reloc, file, allocFails, status);
      status := ReadIfPresent(FileNameTable, file, allocFails, status);
      status := ReadIfPresent(LineNumber, file, allocFails, status);
      status := ReadIfPresent(DebugFunc, file, allocFails, status);
    }

    /** poffReadFile: `allocFails` are the roles whose allocation fails. */
    method ReadFile(file: File, allocFails: set<Role>) returns (status: Status)
      modifies this, file
      ensures LoadOutcome(status, State()) == FileRead(fmt, file.image, allocFails, old(State()))
    {
      status := ReadFileHeader(file);
      if status == NoError {
        status := ReadSectionHeaders(file);
        if status == NoError {
          status := ReadAllSectionData(file, allocFails);
        }
      }
    }
  }
}
