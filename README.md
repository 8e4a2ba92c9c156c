# POFF reader, P-code opcode decoder and socket-option bits

This project models three small parts of the NuttX tree and the Pascal tool
chain that ships with it. It proves their behaviour in Dafny.

- **The POFF object-file reader** (`misc/pascal/libpoff/pfread.c`).
  `poffReadFile` fills a POFF handle from a file in three phases:
  1. It reads the file header at offset 0 and checks its four magic bytes and its version.
  2. It reads `fh_shnum` section headers, `fh_shsize` bytes apart from `fh_shoff` on. It stores each one in the handle slot that its `sh_type` selects; for program data, the `SHF_EXEC` flag also decides the slot.
  3. It reads the data of every present section into a buffer of its own, in a fixed order of slots.

  Each phase stops at its first failure, and each later phase runs only if the earlier one succeeded.
  The failures have distinct codes: read error (`ePOFFREADERROR`), format error (`ePOFFBADFORMAT`) and out of memory (`eNOMEMORY`).
  Module `PoffRead` states each phase as a function of the file image and the handle's previous contents.
  It then gives the handle as the class `PoffInfo`, whose methods seek and read a `StdioFile.File`. Each method is proved to compute its function.
  Module `PoffFormat` holds the records and codes. Module `StdioFile` holds the `FILE` stream. Its bytes are fixed, its `fseek` may fail at chosen offsets, and its `fread` meets an I/O error at chosen byte positions.
- **The 16-bit P-code opcode reader** (`misc/pascal/insn16/libinsn/pgetopcode.c`), in module `InsnDecoder`.
  `insn_GetOpCode` reads one instruction from the program section of a loaded file:
  - an opcode byte;
  - a one-byte operand if the opcode has the `o8` bit;
  - a big-endian two-byte operand if the opcode has the `o16` bit.

  It returns the instruction's size. The latch `g_bEndIn` records that `oEND` was read; once it is set, every call reports `oEND` without reading. `insn_ResetOpCodeRead` rewinds the cursor and clears the latch.
  The function `Decode` states one call. The class `OpCodeReader`, which owns a `ProgCursor` and the latch, is proved to perform `Decode`.
  The lemmas relate `Decode` to an encoder `Encode`: a program's bytes decode back to its instructions, and the end behaves as described above.
- **The socket-option bit macros** (`nuttx/net/net-internal.h`), in module `SocketOptions`. Each option number owns one bit of a socket's option word. The macros set, clear and test these bits and decide which option numbers may be read or written.

The values that come from headers outside this model become parameters, so every property holds whatever they are:
- the numbers of the get-only socket options `SO_ACCEPTCONN`, `SO_ERROR` and `SO_TYPE`;
- the magic bytes, `FHV_CURRENT` and `SHF_EXEC`;
- the record sizes and layouts;
- the `HAVE_*` presence tests;
- `oEND`, `o8` and `o16`.

They are gathered in the datatypes `PoffFormat.Format`, `InsnDecoder.OpCodes` and `SocketOptions.GetOnlyOpts`.

Where the code's behaviour may be unexpected, the model follows the code:
- An unknown `sh_type` is a read error (`pfread.c:182-183`), not a format error.
- Several section headers may share a slot. The later one replaces the earlier (`pfread.c:151-179`).
- A failed load leaves in the handle whatever the phases before the failure stored.
- Reaching the physical end of the program section returns `oEND` but does not set the latch (`pgetopcode.c:95-104`). The comment at `pgetopcode.c:57` also mentions EOF, but only reading an `oEND` byte sets the latch.
- An operand cut short by the end of the section is not an error. It is read from the EOF value (`pgetopcode.c:108`, `118-119`).

## Model

| member | source | states |
|---|---|---|
| SocketOptions.Bit | nuttx/net/net-internal.h:56 | the bit an option owns is never zero |
| SocketOptions.SetOpt | nuttx/net/net-internal.h:83-85 | after setting option o, o tests as set and every other option tests as before |
| SocketOptions.ClrOpt | nuttx/net/net-internal.h:84-85 | after clearing option o, o tests as clear and every other option tests as before |
| SocketOptions.BitsDisjoint | nuttx/net/net-internal.h:56 | the bits of two different options do not overlap |
| SocketOptions.OptionsDetermineWord | nuttx/net/net-internal.h:56-85 | two option words holding the same options are equal |
| SocketOptions.SetOptAdds | nuttx/net/net-internal.h:83-85 | setting o adds exactly o to the set of options held |
| SocketOptions.ClrOptRemoves | nuttx/net/net-internal.h:84-85 | clearing o removes exactly o from the set of options held |
| SocketOptions.GetOptMeansUnchanged | nuttx/net/net-internal.h:83-85 | an option tests as set exactly when setting it leaves the word unchanged, and as clear exactly when clearing it does |
| SocketOptions.SetOptIdempotent | nuttx/net/net-internal.h:83 | setting an option twice gives the same word as setting it once |
| SocketOptions.ClrOptIdempotent | nuttx/net/net-internal.h:84 | clearing an option twice gives the same word as clearing it once |
| SocketOptions.AsUnsigned | nuttx/net/net-internal.h:93-94 | the unsigned cast keeps non-negative numbers and sends every negative number above the largest int |
| SocketOptions.GetOnly | nuttx/net/net-internal.h:91-92 | an option is get-only exactly when it is SO_ACCEPTCONN, SO_ERROR or SO_TYPE, whatever numbers these three have |
| SocketOptions.GetValid | nuttx/net/net-internal.h:79-93 | an option number may be read exactly when it lies in 0..15; negative numbers are refused |
| SocketOptions.SetValid | nuttx/net/net-internal.h:91-94 | an option number may be written exactly when it may be read and is not one of the three get-only options, so SETVALID implies GETVALID |
| InsnDecoder.ByteAt | misc/pascal/insn16/libinsn/pgetopcode.c:85 | the cursor reports EOF exactly when it stands at or past the end of the section |
| InsnDecoder.Word | misc/pascal/insn16/libinsn/pgetopcode.c:118-119 | the two-byte operand has the first byte read as its high byte and the second as its low byte |
| InsnDecoder.WordOfBytes | misc/pascal/insn16/libinsn/pgetopcode.c:118-119 | splitting a two-byte operand into high and low bytes and rebuilding it gives it back |
| InsnDecoder.OpSize | misc/pascal/insn16/libinsn/pgetopcode.c:75-120 | the returned size lies in 1..4 and is 1 exactly when the opcode has neither operand flag |
| InsnDecoder.Decode | misc/pascal/insn16/libinsn/pgetopcode.c:73-128 | one call returns a size in 1..4 and never moves the cursor backwards or past the end |
| InsnDecoder.DecodeCases | misc/pascal/insn16/libinsn/pgetopcode.c:75-127 | when latched or at the physical end, a call returns oEND/0/0 with size 1 and leaves the cursor and latch unchanged; otherwise the opcode is the next byte, the latch becomes whether it is oEND, the size counts the operand flags, the cursor advances by that size exactly when the operands are all present, and operands that are present are read as they stand while absent flags give zero |
| InsnDecoder.Encode | misc/pascal/insn16/libinsn/pgetopcode.c:103-125 | the encoding of an instruction starts with its opcode and is as long as the size the reader returns for it |
| InsnDecoder.DecodeAt | misc/pascal/insn16/libinsn/pgetopcode.c:103-125 | an unlatched reader standing on the bytes of an instruction returns that instruction and its size, moves past it, and latches exactly when it is oEND |
| InsnDecoder.DecodeEncode | misc/pascal/insn16/libinsn/pgetopcode.c:103-125 | decoding undoes encoding wherever the encoded instruction stands in the section |
| InsnDecoder.EndIsStable | misc/pascal/insn16/libinsn/pgetopcode.c:84-100 | once latched, or at the physical end, every further call returns oEND and changes neither the cursor nor the latch |
| InsnDecoder.RunSplit | misc/pascal/insn16/libinsn/pgetopcode.c:73-128 | a + b successive calls return what a calls return followed by what b further calls return from where the first a left off |
| InsnDecoder.DecodeEncodeAll | misc/pascal/insn16/libinsn/pgetopcode.c:73-128 | successive calls on an encoded instruction sequence that contains no oEND return its instructions in order and leave the cursor just after it with the latch clear |
| InsnDecoder.ProgramDecodes | misc/pascal/insn16/libinsn/pgetopcode.c:95-104 | a program ending in an oEND instruction decodes to its instructions and the terminator, and the reader then stands after the terminator with the latch set |
| InsnDecoder.ProgramRoundTrip | misc/pascal/insn16/libinsn/pgetopcode.c:84-104 | after a program's terminator every further call returns oEND, and bytes after the terminator are never read |
| InsnDecoder.UnitRoundTrip | misc/pascal/insn16/libinsn/pgetopcode.c:84-100 | a unit without a terminator decodes to its instructions, then to oEND on every further call because the section is exhausted, with the latch still clear |
| InsnDecoder.ProgCursor.GetProgByte | misc/pascal/insn16/libinsn/pgetopcode.c:85-119 | the next byte or EOF is returned, and the position advances by one until the end |
| InsnDecoder.ProgCursor.ResetAccess | misc/pascal/insn16/libinsn/pgetopcode.c:134 | the cursor goes back to the first byte |
| InsnDecoder.OpCodeReader.constructor | misc/pascal/insn16/libinsn/pgetopcode.c:57 | a new reader starts with the latch clear |
| InsnDecoder.OpCodeReader.GetOpCode | misc/pascal/insn16/libinsn/pgetopcode.c:73-128 | the returned instruction and size and the new cursor position and latch are those of Decode on the previous state |
| InsnDecoder.OpCodeReader.ResetOpCodeRead | misc/pascal/insn16/libinsn/pgetopcode.c:132-136 | the cursor is rewound to the first byte and the latch cleared, so the next call decodes from the start |
| PoffFormat.IndexOf | misc/pascal/libpoff/pfread.c:234-288 | every slot has a place in the order in which section data is buffered |
| PoffFormat.RoleOrderIsPermutation | misc/pascal/libpoff/pfread.c:234-288 | the buffering order visits each of the eight slots exactly once |
| PoffFormat.PerRole.Set | misc/pascal/libpoff/pfread.c:151-179 | storing into one slot of the handle changes that slot and no other |
| StdioFile.Slice | misc/pascal/libpoff/pfread.c:218-222 | fread delivers at most the requested count, and exactly the count when the range lies inside the file and no byte in it meets an I/O error; what it delivers is always the file's bytes from the read position on, and a short read stopped at the end of the file or at a byte that failed |
| StdioFile.File.Seek | misc/pascal/libpoff/pfread.c:89-92 | fseek succeeds unless the file refuses that offset, and then moves the position there |
| StdioFile.File.Read | misc/pascal/libpoff/pfread.c:96-101 | fread delivers the bytes at the current position and moves past them |
| PoffRead.CheckFileHeader | misc/pascal/libpoff/pfread.c:105-113 | a header is accepted exactly when its four magic bytes and its version are the expected ones, and otherwise it is a format error |
| PoffRead.FileHeaderRead | misc/pascal/libpoff/pfread.c:82-114 | a failed seek to 0, or a header read cut short by the end of the file or by an I/O error, is a read error, and these are the only read errors; otherwise the stored record becomes the handle's header and is judged by its magic and version; never out of memory |
| PoffRead.RoleOf | misc/pascal/libpoff/pfread.c:149-184 | a header has no slot exactly when its type is unknown; program data goes to the program slot when its flags have SHF_EXEC and to the read-only slot otherwise; every other known type goes to the slot of that type |
| PoffRead.RoleOfOneToOne | misc/pascal/libpoff/pfread.c:157-180 | two headers routed to the same slot have the same type |
| PoffRead.SectionHeaderOffsetIsLinear | misc/pascal/libpoff/pfread.c:127-188 | section header i is read at fh_shoff + i * fh_shsize |
| PoffRead.SectionHeadersRead | misc/pascal/libpoff/pfread.c:119-191 | reading the section headers ends either without error or with a read error, never with a format error, even for an unknown type |
| PoffRead.SectionHeadersAdvance | misc/pascal/libpoff/pfread.c:147-180 | a turn that reads a header of a known type stores it in its slot, leaves the other slots, and continues |
| PoffRead.SectionHeadersSucceed | misc/pascal/libpoff/pfread.c:129-184 | the phase succeeds exactly when every one of the fh_shnum headers can be sought, read whole and has a known type |
| PoffRead.SectionHeadersStop | misc/pascal/libpoff/pfread.c:133-183 | after a failed turn no later header is read and nothing changes |
| PoffRead.SectionHeadersLastWins | misc/pascal/libpoff/pfread.c:151-180 | when several headers go to one slot, the slot ends up holding the last of them |
| PoffRead.SectionHeadersUnseen | misc/pascal/libpoff/pfread.c:149-180 | a slot that no header goes to keeps what it held before |
| PoffRead.SectionHeadersFailure | misc/pascal/libpoff/pfread.c:133-183 | a failed phase stopped at a header that could not be read or had an unknown type, returns a read error, and keeps the slots the headers before it wrote |
| PoffRead.SectionDataRead | misc/pascal/libpoff/pfread.c:196-224 | a section's data is read without error exactly when the seek succeeds, the buffer is allocated, and the whole section lies in the file and reads without an I/O error, and then the buffer holds exactly the file's bytes from sh_offset for sh_size bytes; a failed seek is a read error that leaves the pointer alone; out of memory happens exactly when the seek succeeds and allocation fails; never a format error |
| PoffRead.AllSectionDataRead | misc/pascal/libpoff/pfread.c:229-291 | buffering the section data never gives a format error |
| PoffRead.AllSectionDataSucceed | misc/pascal/libpoff/pfread.c:234-290 | the buffering steps succeed exactly when every present section among them can be sought, allocated and read whole |
| PoffRead.AllSectionDataContents | misc/pascal/libpoff/pfread.c:234-290 | after successful steps, each present slot among them holds its section's bytes and each absent slot keeps its old pointer |
| PoffRead.AllSectionDataLaterUntouched | misc/pascal/libpoff/pfread.c:234-290 | the first steps never touch the data pointers of the slots that come later in the order |
| PoffRead.AllSectionDataStop | misc/pascal/libpoff/pfread.c:241-285 | once a step has failed, no later section is attempted and nothing changes |
| PoffRead.AllSectionDataInOrder | misc/pascal/libpoff/pfread.c:234-288 | the phase is the eight guarded reads in the order prog, rodata, symbol table, string table, relocations, file names, line numbers, debug |
| PoffRead.AllSectionDataFailure | misc/pascal/libpoff/pfread.c:234-290 | a failed phase failed at a present section that could not be read; its status is that section's status; the slots after it keep their pointers |
| PoffRead.FileRead | misc/pascal/libpoff/pfread.c:300-316 | a load is a format error exactly when the header record is read whole but has wrong magic or version, and then neither section slots nor data are touched; a successful load has read a valid header from the start of the file |
| PoffRead.FileReadStatus | misc/pascal/libpoff/pfread.c:300-316 | a load succeeds exactly when the header record is read whole and is valid, every section header is read and has a known type, and every present section can be read into a buffer; a header record that cannot be sought or read whole is a read error that leaves the handle as it was; out of memory arises only after both header phases succeeded |
| PoffRead.FileReadSectionFailure | misc/pascal/libpoff/pfread.c:300-316 | with a valid file header, a section header that cannot be read or has an unknown type makes the load a read error; the handle keeps the new file header and the slots the section-header phase wrote, and no data pointer changes |
| PoffRead.LoadedSections | misc/pascal/libpoff/pfread.c:119-191 | after a successful load every header had a known type, each slot holds the last header of its type, and slots of types the file lacks keep their old contents |
| PoffRead.LoadedData | misc/pascal/libpoff/pfread.c:196-291 | after a successful load every present section lies inside the file and its buffer holds exactly its bytes, and the pointers of absent sections are unchanged |
| PoffRead.TruncatedHeaderIsReadError | misc/pascal/libpoff/pfread.c:96-101 | a file shorter than the header record is a read error and leaves the handle unchanged |
| PoffRead.CorruptHeaderIsBadFormat | misc/pascal/libpoff/pfread.c:105-113 | a readable header with a wrong magic byte or version is a format error, and nothing beyond the header record is read |
| PoffRead.TruncatedSectionIsReadError | misc/pascal/libpoff/pfread.c:218-222 | when allocation succeeds, a valid file cut short inside a present section loads with a read error, never successfully |
| PoffRead.PoffInfo.ReadFileHeader | misc/pascal/libpoff/pfread.c:82-114 | the status and the handle's new header are those of FileHeaderRead; the section slots and data are unchanged |
| PoffRead.PoffInfo.ReadSectionHeader | misc/pascal/libpoff/pfread.c:131-184 | one loop turn at the offset of header i performs step i + 1 of SectionHeadersRead |
| PoffRead.PoffInfo.ReadSectionHeaders | misc/pascal/libpoff/pfread.c:119-191 | the status and the new slots are those of SectionHeadersRead over fh_shnum headers; the header and data are unchanged |
| PoffRead.PoffInfo.ReadSectionData | misc/pascal/libpoff/pfread.c:196-224 | the status and the slot's new data pointer are those of SectionDataRead, and no other pointer changes |
| PoffRead.PoffInfo.ReadIfPresent | misc/pascal/libpoff/pfread.c:241-246 | one guarded statement reads its slot only after earlier success and when the slot holds a section |
| PoffRead.PoffInfo.ReadAllSectionData | misc/pascal/libpoff/pfread.c:229-291 | the status and the new data pointers are those of AllSectionDataRead over all eight slots |
| PoffRead.PoffInfo.ReadFile | misc/pascal/libpoff/pfread.c:300-316 | the status and the whole new handle are those of FileRead on the old handle |

## Left out

- `TRACE` debug output in `insn_GetOpCode` is not modelled, because it writes only to a stream and changes no state.
- The functions declared in `net-internal.h` (`sockfd_*`, `net_timeo`, the timeval conversions) are declarations without bodies, and are not part of this model.
- `poffGetProgByte` and `poffResetAccess` are not part of this model. Their behaviour is the class `ProgCursor`: the next byte or EOF, the position advancing by one until the end, and a reset to 0.
- The handle allocation and the rest of libpoff are not part of this model.
- `pofflib.h`, `pfprivate.h` and the instruction-set header are not part of this model. Their constants, record layouts, byte order and `HAVE_*` tests are parameters: `Format` and `OpCodes`.
- The numbers of `SO_ACCEPTCONN`, `SO_ERROR` and `SO_TYPE` come from `sys/socket.h`, which is not part of this model. They are the parameter `GetOnlyOpts`.
- SocketOptions.SetOpt: the option word is modelled as 16 bits, which hold every option up to 15. The width of the field that stores it in the socket is declared outside this model.
- DecodeCases: the contract does not state operand values that are cut short by the end of the section. `OperandByte` reads EOF as 0xff. The C code stores `EOF << 8` into the two-byte operand, a shift of a negative value.
- InsnDecoder.OpCodeReader: `g_bEndIn` is one static variable for the whole program. The model gives each reader its own latch.
- FileHeaderRead: after a short header read, the model leaves the handle's header unchanged. The C code has `fread` write straight into the handle, so the bytes that were read stay there.
- SectionDataRead: after a short section read, the model's buffer holds only the bytes read. The C buffer is `sh_size` bytes long, and its tail is uninitialised.
- `malloc` is not modelled. The set `allocFails` names the slots whose allocation fails, which covers any allocator, including one that refuses zero bytes.
- The `FILE` position after a phase is not stated in the handle methods' contracts. The callers do not depend on it.
- The `long` offset in `poffReadSectionHeaders` does not overflow in the model, because offsets are unbounded naturals.
- The `switch` on `sh_type` is modelled by the function `RoleOf`. The method `ReadSectionHeader` stores the header in the slot that `RoleOf` selects.
- The eight guarded statements of `poffReadAllSectionData` are eight calls of the method `ReadIfPresent`.
