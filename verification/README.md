# Proofs about reading and writing object files

This project models the parts of the `object` crate whose correctness is hardest to see from the
code, and proves that they do what they are for. `dafny verify dfyconfig.toml` checks everything.

- **The Mach-O writer** (`MachO*.dfy`, `StringTable.dfy`). `macho_write` computes every offset in one
  pass and streams the bytes in a second. `MachOWrite` proves that both passes agree at every
  emission point, that the writer fails exactly on objects it cannot represent, and what the file is,
  byte for byte. `MachOReadBack` then forgets how the file was made and follows it as a reader does:
  from the header to the load commands, from a section header to the section's data, from a
  relocation to the name of its symbol. `MachOFileReader` and `MachORelocReader` run the crate's own
  reader over that file, down to the bits of the fields: architecture, section data, symbols and
  relocations. `MachOBuilder` covers what comes before: appended data, translated relocations and
  thread-variable descriptors, that a built object never fails to be written because of its
  relocations, and that all of them are read back. `MachORequests` follows a relocation from the
  request to what is read. The string table packs strings that are suffixes of others, found by an
  in-place multi-key quicksort; every string stays readable at its offset.
  `MachOThreadVars` says what a thread-local variable changes in an object.
- **The stream cache** (`ReadCache.dfy`, `ReadRef.dfy`). A cache over a stream with arbitrary short
  reads and I/O errors, and windows that share it, against the slice reader over whole runs: exactly
  when an answer differs, by the operations that came before it.
- **The archive reader** (`Archive*.dfy`, `Endian.dfy`). The special members in front, the walk over
  the members and its extents, the numeric fields, the symbol tables, and whole archives: what is
  parsed from a file with a table in it reads back as the symbols that were laid out.
- **LEB128** (`Leb128.dfy`, `Bytes.dfy`, `Bits.dfy`), against the definition in section 7.6 of the
  DWARF Version 5 standard: exactly which byte sequences are accepted, with which value.
- **The address index** (`SymbolMap.dfy`), against a linear scan for the best candidate.
- **The WebAssembly symbol collector** (`Wasm.dfy`, `WasmSymbols.dfy`), over an abstract list of
  payloads: how they become sections and symbols, and what each symbol says of the payloads.
- **The ELF hash functions** (`ElfHash.dfy`), against the function in chapter 5 of the System V gABI,
  section "Hash Table", and **the packed relocation words** (`RelocCodec.dfy`).

Code that the program writes as loops over changing state is written as methods and classes here,
and each is tied to a function or predicate that the lemmas are about. Bytes are integers below 256;
64-bit quantities are integers with their bounds written out where the program relies on them.
Errors are values without text. A stream is a fixed byte sequence whose reads may be short or fail.

## Where the code and its documentation differ

- Plain Mach-O relocations do not survive in big-endian files: the encoder shifts the symbol number
  right (`src/macho.rs:3089`) where the decoder expects it shifted left (`src/macho.rs:3028`).
  `RelocCodec.PlainBigRoundTrip` and `MachOReadBack.BigEndianReadBack` give the exact condition.
- The writer accepts relocations at offsets from 2^31, which the reader takes for scattered ones and
  passes over, except on x86-64 (`src/macho.rs:3003-3010`): `RelocCodec.PlainScattered` and
  `MachOReadBack.RelocationReadBack`.
- An explicit addend is cut to 24 bits without an error (`src/write/macho.rs:752-764`). It is read
  back if and only if it is at least -2^23 and below 2^23: `MachOReadBack.AddendReadBack`, with
  `RelocCodec.AddendCounterexample`.
- The builder adds 4 to the addend of a relative x86 relocation of any length
  (`src/write/macho.rs:354-372`), while the reader takes the length from it
  (`src/read/macho/relocation.rs:97-119`); they cancel exactly for four bytes:
  `MachOBuilder.AdjustmentsCancel`.
- The writer accepts more than 255 sections, but the section ordinal of a symbol has one byte
  (`src/write/macho.rs:871`), and ordinal zero reads as no section: `MachOFileReader.SymbolReported`.
- A defined symbol of unknown scope is written among the external symbols without the external bit,
  so it reads as local (`src/write/macho.rs:491-501`, `src/write/macho.rs:838-840`):
  `MachOFileReader.RangesReported`.
- A section with data that is flagged as zero-fill by the caller is written with its data and reads
  back empty: `MachOFileReader.SectionDataReadBack`, with `MachOFileReader.ZeroFillCounterexample`.
- The reader's table of relocation kinds does not undo the builder's for generic relative and
  procedure-linkage requests on x86-64, for calls on Aarch64, or for encodings other than the generic
  one on I386 and Arm: `MachORequests.RequestReadBack`.
- A cached string is found again by its start and delimiter alone (`src/read/read_cache.rs:132`), and
  a search gives up after 4096 bytes. `ReadCache.UntilAgreement` says exactly when the cache differs
  from the slice reader.
- A window only checks where a string ends, not the range (`src/read/read_cache.rs:203-213`), so a
  range that reaches past the window can be answered where the slice reader on the window's bytes
  fails, as in `ReadCache.LongRangeCounterexample`. `ReadCache.WindowAgreement` says exactly when a
  window differs, and `ReadCache.RunAgreement` says the same by the operations of the run.
- The address index uses `u64::MAX` as a sentinel (`src/read/traits.rs:265`): if every candidate is at
  that address the index is empty (`SymbolMap.Query`).
- The rank of a candidate of the address index is four times the sum of twice its kind and its scope,
  so a known kind is not always preferred, contrary to the comment (`src/read/traits.rs:236-238`).
  `SymbolMap.UnknownKindCounterexample` is an input, and `SymbolMap.KnownKindPreferred` says exactly
  when the answer has a known kind.
- The comment on BSD symbol tables puts the member offset first in each pair
  (`src/read/archive.rs:632-633`); the code reads the name offset first, and the model follows it.
- In a thin archive a BSD symbol table has no data of its own, and is looked for at the start of the
  file (`src/read/archive.rs:425-433`): `ArchiveTables.TableArea`.
- In a COFF archive whose fourth member is `/<ECSYMBOLS>/`, the third member is skipped even when it
  is an ordinary one, and is missing from the member list. `ArchiveCoff.HiddenIff` says exactly when
  by the first four headers, and `ArchiveCoff.HiddenMemberExample` is such an archive.
- The address of an exported WebAssembly global is looked up among the defined globals by an index
  that counts imported ones first (`src/read/wasm.rs:422-425`). `Wasm.ExportedGlobalAddress` says
  exactly when it is the global's own constant, and `Wasm.ImportedGlobalShifts` is an input where it
  is another's.
- Thread-variable descriptors cannot be made on PowerPC: the relocation request fails and the
  program panics (`src/write/macho.rs:255`). `MachOBuilder.Builder.RelocatePointer` fails exactly
  there, and the precondition of `AddThreadVar` says so.

## Model

| member | source | states |
|---|---|---|
| MachOWrite.MachoWrite | src/write/macho.rs:395-885 | The writer succeeds if and only if the architecture, the symbol kinds, names and sections, the section names and flags, and every relocation can be represented; it then leaves `Image(o, t)`, the concatenation of the laid-out parts, for some string table in which every name is found; the `MachOReadBack` lemmas say what can be found in it. Every equality between a computed offset and the buffer length that the program asserts in debug builds is an assertion of the proof. |
| MachOWrite.FirstPass | src/write/macho.rs:406-546 | The first pass fails only on label symbols, and otherwise computes every address, relocation offset, count, symbol number and table offset of the specification before a byte is written. |
| MachOWrite.WriteCommands | src/write/macho.rs:553-717 | The load commands fill the file up to the first section byte, each at its precomputed offset. |
| MachOWrite.WriteSectionHeaders | src/write/macho.rs:620-663 | Fails exactly on an over-long name or a section without flags; otherwise emits one header per section. |
| MachOWrite.WriteSectionData | src/write/macho.rs:719-726 | Every section with data lands at segment offset plus address; no resize goes below the bytes already written. |
| MachOWrite.WriteRelocations | src/write/macho.rs:728-813 | Each relocation block starts at its precomputed, aligned offset; fails exactly when some relocation cannot be encoded. |
| MachOWrite.WriteReloc | src/write/macho.rs:734-789 | An explicit addend entry directly before the entry of its relocation; an error for foreign flags or an addend on an architecture without addend entries. |
| MachOWrite.WriteSectionRelocs | src/write/macho.rs:791-811 | All entries of one section, reversed when the first offset is below the last. |
| MachOWrite.WriteSymbols | src/write/macho.rs:815-876 | Entry `k` of the symbol table is the one of the symbol numbered `k`; fails exactly when some symbol has no section type or flags. |
| MachOWrite.BuildStrtab | src/write/macho.rs:540-546 | The padded string table starts with a null name and holds every emitted name at the offset given to its symbol. |
| MachOLayout.AlignIsMask | src/write/util.rs:218-230 | In 64-bit arithmetic, for a power of two, the mask expression of the program is rounding up to the next multiple. |
| MachOLayout.LayoutSections | src/write/macho.rs:444-467 | The two section loops compute the specified address of every section, the file size and the memory size. |
| MachOLayout.SectionInterval | src/write/macho.rs:449-467 | Every section is aligned and occupies exactly the interval between two successive ends. |
| MachOLayout.SectionsInSegment | src/write/macho.rs:449-467 | Every section lies in `[0, vmsize)`, those with data in `[0, filesize)`, zero-fill sections behind `filesize`, and `filesize <= vmsize`. |
| MachOLayout.SectionsDisjoint | src/write/macho.rs:449-467 | No two sections overlap: sections of one kind keep their order, and all data precedes all zero-fill. |
| MachOLayout.SectionsTight | src/write/macho.rs:449-467 | The padding in front of a section is less than its alignment. |
| MachOLayout.LayoutRelocations | src/write/macho.rs:518-532 | The relocation loop computes, for every section, the aligned offset of its block and the number of its entries. |
| MachOLayout.CountRelocations | src/write/macho.rs:520-524 | One entry for each relocation, and one more for each non-zero addend. |
| MachOSymbols.PartitionSymbols | src/write/macho.rs:469-501 | Fails exactly on a label; otherwise every emitted symbol is in one of three lists by class, and every non-empty name is in the string table under its identifier. |
| MachOSymbols.ClassRanges | src/write/macho.rs:472-504 | Each list holds exactly the symbols of its class, once each; external and undefined symbols are sorted by name. |
| MachOSymbols.SortByNameMeaning | src/write/macho.rs:503-504 | The result is sorted by name with equal names in their original order, and is a permutation of the input. |
| Prelude.LexLeMeaning | src/write/macho.rs:503-504 | The order of names: a prefix comes first, otherwise the first byte that differs decides. |
| MachOSymbols.OrderIsPermutation | src/write/macho.rs:506-516 | The concatenated lists contain every emitted symbol exactly once and nothing else. |
| MachOSymbols.NumberingIsBijective | src/write/macho.rs:506-516 | Symbol numbers and table entries correspond one to one. |
| MachOSymbols.AssignNumbers | src/write/macho.rs:506-516 | The counting loop gives every symbol its position in the order, and the count is the length of the table. |
| MachOSymbols.ClassOfNumber | src/write/macho.rs:506-516 | The range that a number falls in decides the class of its symbol. |
| MachOSymbols.NamesOfNumbers | src/write/macho.rs:503-516 | Within the external range and within the undefined range, names are in order. |
| MachORelocs.EntriesCount | src/write/macho.rs:518-532 | The number of entries emitted for a list is the number counted for it in the first pass. |
| MachORelocs.CountEmitted | src/write/macho.rs:794-811 | Reversal does not change the count. |
| MachORelocs.EntriesAt | src/write/macho.rs:746-787 | The entries of the relocation at position `k` are together, addend first, at the index given by the counts before it. |
| MachORelocs.AddressesDescend | src/write/macho.rs:791-811 | If the offsets of a section are monotone in either direction, the emitted addresses never increase. |
| MachORelocs.EntryNamesSymbol | src/write/macho.rs:768-777 | An entry against an emitted symbol carries the number of that symbol's own table entry. |
| MachOReadBack.CommandWalk | src/write/macho.rs:406-442 | In the finished file, walking the number of commands at byte 16 by their own sizes finds exactly the commands laid out, and ends at the header size plus the number at byte 20, where section data starts. |
| MachOReadBack.MagicReadBack | src/write/macho.rs:962-979 | Read in the byte order of the file, the first four bytes are the native magic of the word size, in all four combinations. |
| MachOReadBack.HeaderField | src/write/macho.rs:590-600 | Every number of the header of the finished file is at its place, if its field can hold it. |
| MachOReadBack.SegmentReadBack | src/write/macho.rs:602-618 | In the finished file, the segment starts at address zero, its sizes, file offset and section count are those of the layout, and all access is allowed. |
| MachOReadBack.SectionNamesReadBack | src/write/macho.rs:621-641 | In the finished file, the two name fields of every section header are the names padded with zeros. |
| MachOReadBack.SectionFlagsReadBack | src/write/macho.rs:642-662 | In the finished file, the flags field of every section header holds the section's flags. |
| MachOReadBack.SectionReadBack | src/write/macho.rs:620-663 | In the finished file, the header of every section holds its address, size, alignment exponent, relocation offset and count, and the file offset it holds leads to the section's data (or is zero for zero-fill). |
| MachOReadBack.SymbolReadBack | src/write/macho.rs:815-876 | From the symbol table command of the finished file, entry `k` leads to the name and to the fields of the symbol numbered `k`, cut to their widths; `MachOFileReader.SymbolReported` says what the fields mean. |
| MachOReadBack.DysymtabReadBack | src/write/macho.rs:690-717 | The three ranges in the finished file partition the symbol table, and an entry is in a range if and only if its symbol has that class. |
| MachOReadBack.RelocationReadBack | src/write/macho.rs:728-813 | In a finished little-endian file, the entry of a relocation whose fields fit, found through its section header, has its address and flags and leads to its symbol: by the name of the symbol table entry that its number refers to, or, for a section symbol, as the ordinal of that section; a symbol with neither gives number zero. A reader takes it for a scattered entry if and only if the offset is 2^31 or more and the architecture is not x86-64. |
| MachOReadBack.AddendReadBack | src/write/macho.rs:752-764 | The entry before that of a relocation with an explicit addend is an addend entry at the same address, from which the reader gets the addend back if and only if it is in the signed range of 24 bits. |
| MachOReadBack.EntryScattered | src/macho.rs:3003-3010 | Whatever is in an entry, it is taken for a scattered one exactly from address 2^31, except on x86-64. |
| MachOReadBack.CpuReadBack | src/write/macho.rs:549-578 | The CPU type in the header of the finished file tells the architectures apart that the relocation reader treats differently. |
| MachORelocReader.MachORelocationIterator.Next | src/read/macho/relocation.rs:36-133 | The next relocation that is not scattered and not an addend entry, with the addend waiting for it. |
| MachORelocReader.MachORelocationIterator.Collect | src/read/macho/relocation.rs:29-133 | Draining the iterator yields all items of its entries. |
| MachORelocReader.RelocationItems | src/read/macho/relocation.rs:36-133 | The entries of one relocation give one item with its address, target, flags and remaining addend, or none if they look scattered; no addend is left over for the next relocation. |
| MachORelocReader.BlockReadBack | src/write/macho.rs:728-813 | The block found through a section header of the finished file is the encoding of all entries of the section. |
| MachORelocReader.SectionRelocationsReadBack | src/read/macho/relocation.rs:29-133 | The reader, run over the relocations of a section of a finished little-endian file, reports exactly the relocations that do not look scattered, in the order of emission, each with its address, target, flags and what is left of its addend. |
| MachOReadBack.BigEndianReadBack | src/macho.rs:3076-3098 | In a finished big-endian file, an entry decodes to what was encoded if and only if its symbol number is zero. |
| MachOReadBack.AddressesReadBack | src/write/macho.rs:791-811 | The addresses in the finished file never increase within a section whose relocations were added in order. |
| MachOReadBack.NameFound | src/write/macho.rs:861-880 | Every emitted name is in the finished file, null-terminated, at the string table offset plus its own. |
| MachOReadBack.TrailingZerosOfPower | src/write/macho.rs:657-657 | The alignment exponent in a section header is the exponent of the power of two. |
| MachOFileReader.MachOSymbolIterator.Next | src/read/macho/symbol.rs:266-277 | The next entry of the symbol table that is not a debugging entry. |
| MachOFileReader.MachOSymbolIterator.Collect | src/read/macho/symbol.rs:229-277 | Draining the iterator yields the symbols of all such entries in order. |
| MachOFileReader.SymbolReported | src/read/macho/symbol.rs:337-442 | The reader makes of entry `k` of the finished file the symbol numbered `k`: its name, its value behind the address of its section, its section by ordinal if and only if the ordinal fits its byte, its scope (unknown exactly if it is undefined, local exactly if its scope is unknown or local), and whether it is weak, undefined or a definition. |
| MachOFileReader.SymbolsReported | src/read/macho/symbol.rs:266-277 | The reader reports one symbol for every entry, in order. |
| MachOFileReader.TypeBits | src/write/macho.rs:824-846 | The bits of the type byte, mask by mask: never a debugging entry; the type bits give the section, the external bit is set exactly for undefined, hidden and exported symbols, the private bit exactly for hidden ones. |
| MachOFileReader.DescBits | src/write/macho.rs:169-180 | Without flags of its own, a weak symbol has the reference bit if it is undefined and the definition bit otherwise, and no other symbol has either. |
| MachOFileReader.RangesReported | src/write/macho.rs:469-501 | The ranges of the dynamic symbol table hold the symbols by section and scope; a symbol is in the local range exactly if it reads as local, except for defined symbols of unknown scope. |
| MachOFileReader.SectionTypeReadBack | src/write/macho.rs:149-167 | In the finished file, the type byte and the attribute bits of a section without flags of its own follow from its kind, mask by mask. |
| MachOFileReader.SectionDataReadBack | src/read/macho/section.rs:320-343 | The reader returns the data of a section of the finished file if and only if the section is empty or its type byte says zero-fill exactly if it has no data; always, if it has no flags of its own. |
| MachOFileReader.ZeroFillCounterexample | src/read/macho/section.rs:320-343 | A section header with a size and the zero-fill type reads as no data. |
| MachOFileReader.HeaderReadBack | src/read/macho/file.rs:275-297 | The reader finds the architecture that the file was written for, and the sub-architecture if and only if a requested subtype agrees with it; the file is an object file with the requested flags and the flag for subsections. |
| MachOFileReader.WritableMeaning | src/write/macho.rs:395-885 | The objects that can be written, in terms of their parts: eight pairs of architecture and sub-architecture; sections with names of at most 16 bytes, flags of this format or a kind that has some, and relocations with flags of this format and an explicit addend only on Aarch64, with either pointer size; symbols that are no labels and, if they are emitted, have a place and flags of this format. |
| MachOFileReader.BuildVersionReadBack | src/write/macho.rs:665-676 | The build version command of the finished file holds platform, minimum version and SDK. |
| MachOFileReader.CommandIdentifiers | src/write/macho.rs:602-717 | The commands that the walk finds are segment, build version if there is one, symbol table and dynamic symbol table. |
| MachOFileReader.BlocksInOrder | src/write/macho.rs:518-532 | The relocation blocks of the finished file are aligned, in the order of their sections without overlap, behind the section data and in front of the symbol table. |
| MachOFileReader.TablesAtEnd | src/write/macho.rs:534-546 | The symbol table of the finished file is aligned, the string table follows directly, and it ends the file. |
| MachOLayout.RelocBlocks | src/write/macho.rs:518-532 | Relocation blocks are aligned, ordered and disjoint in the layout. |
| MachOBuilder.Builder.AddThreadVar | src/write/macho.rs:202-278 | A thread-local symbol is redirected to a new zero-filled descriptor of three pointers, of which the first and third are relocated to the bootstrap symbol and a new initializer symbol; anything else is unchanged. Descriptors stay aligned, disjoint and relocated over every run of the builder. |
| MachOBuilder.Builder.TlvBootstrap | src/write/macho.rs:182-200 | The bootstrap symbol is created at most once, and is the same ever after. |
| MachOBuilder.Builder.SetSymbolData | src/write/mod.rs:654-672 | Data of a thread-local symbol is attached to its initializer, data of any other symbol to the symbol itself. |
| MachOThreadVars.VariableMoved | src/write/macho.rs:202-278 | The symbol of a thread-local variable only moves to a place in the thread variable section that is aligned, three zeroed pointers long, and behind everything that was there; a local, undefined symbol with the suffix `$tlv$init` is there for its initial value. |
| MachOThreadVars.PointersRelocated | src/write/macho.rs:235-269 | The first pointer is relocated to the bootstrap symbol and the third to the initial value, both as absolute relocations of the size of an address, behind the relocations that were there. |
| MachOThreadVars.NothingElse | src/write/macho.rs:182-278 | All other symbols and sections stay as they are; the bootstrap symbol and the section are made if they are missing, as stated. |
| MachOBuilder.Builder.AddRelocation | src/write/mod.rs:688-721 | Succeeds exactly when the request can be translated and its implicit addend can be stored in the section; nothing changes otherwise. All relocations of a built object can be written, and fit their fields if all requests were by kind, encoding and size. |
| MachOBuilder.Builder.AppendSectionData | src/write/mod.rs:921-941 | Appended data starts at the aligned end of the section, behind zero padding; size and alignment follow. |
| MachOBuilder.AddendKept | src/write/mod.rs:708-758 | The adjusted addend is either kept in the entry or is the number read from the section data at the relocation, whose other bytes are unchanged. |
| MachOBuilder.BuildableIsWritable | src/write/macho.rs:728-813 | An object made with the builder is writable if and only if the conditions that do not concern relocations hold. |
| MachOBuilder.TranslationFits | src/write/macho.rs:280-343 | A translated relocation fits the two-bit length field and has a type below that of addend entries. |
| MachORequests.RequestAccepted | src/write/macho.rs:280-343 | A request by kind, encoding and size is accepted if and only if size, kind and encoding are among those listed for the architecture, and an addend that has to be stored has its four or eight bytes in the section. |
| MachORequests.RequestMeaning | src/write/mod.rs:688-758 | An accepted request leaves one more relocation, as long as the requested size (the short fields of Aarch64 count as four bytes), relative unless it is absolute; the addend, adjusted on x86-64, is in the entry or in exactly that many bytes of the section, and nothing else changes. |
| MachORequests.RequestReadBack | src/read/macho/relocation.rs:54-94 | The reader reports the requested kind and encoding if and only if the request is one of those that its table can tell, as listed, and the requested size except for the short fields of Aarch64. |
| MachORequests.AddendReadBack | src/read/macho/relocation.rs:91-119 | The addend that the reader reports, together with what the section holds at the place, is the requested one: for calls on Aarch64 exactly in the signed range of 24 bits, otherwise exactly if the request is not relative on x86-64 or is four bytes long. |
| MachORequests.DirectRequest | src/write/mod.rs:688-758 | A request by type and length keeps both. Branches and page references of Aarch64 keep their addend in the relocation; for any other of four bytes, what the section holds at the place, less what the reader takes away, is the addend. |
| MachOBuilder.NarrowRequested | src/write/macho.rs:280-343 | A request by kind, encoding and size keeps all relocations of the sections within their fields; the builder keeps this over every run in which all requests are of this form. |
| MachOBuilder.BuiltReadsBack | src/read/macho/relocation.rs:29-133 | If an object was built from such requests, the reader on its little-endian file reports every relocation of every section, in order, if the offsets in the section are below 2^31. |
| MachOBuilder.AdjustmentsCancel | src/read/macho/relocation.rs:97-119 | The reader takes from the addend of a relocation what the builder added for the program counter if and only if the relocation is not relative, is four bytes long, or is on an architecture without this adjustment. |
| MachOBuilder.ThreadVarArchitectures | src/write/macho.rs:235-269 | Pointer relocations can be requested on exactly five architectures; on the others every such request fails. |
| MachOBuilder.Builder.RelocatePointer | src/write/macho.rs:235-269 | Requesting a pointer relocation succeeds exactly on those architectures and adds it to the section; otherwise nothing changes, and the program panics. |
| MachOBuilder.PadToAlign | src/write/mod.rs:921-941 | Padding by the remainder is the same as rounding up with the writer's alignment function. |
| StringTable.StringTable.Add | src/write/string.rs:19-28 | Adding a string twice gives one entry; identifiers are positions in order of first insertion. |
| StringTable.Sort | src/write/string.rs:110-151 | The in-place multi-key quicksort permutes the slice and leaves it in descending order of reversed strings. |
| StringTable.Partition | src/write/string.rs:124-140 | The three-way partition loop leaves greater, equal and smaller bytes in that order, and only permutes the slice. |
| StringTable.SuffixLast | src/write/string.rs:110-117 | In that order a string comes after every string that it is a suffix of. |
| StringTable.KeptInOrder | src/write/string.rs:70-83 | The test against the last stored string alone decides whether a string is a suffix of any other. |
| StringTable.Emit | src/write/string.rs:69-83 | Every string can be found at its offset, and exactly the non-empty strings that are no proper suffix of another are stored. |
| StringTable.StringTable.Write | src/write/string.rs:55-84 | Sorting and emission together: every string is readable at its recorded offset in the appended table. |
| ReadCache.Run | src/read/read_cache.rs:100-214 | Over every sequence of reads, window reads and clears on a fresh cache, with any short reads: without I/O errors the answers are those of a replay that knows neither buffers nor short reads, and an answer equals that of the slice reader if and only if `RunDiffers` does not hold of the operations before it. With I/O errors, every successful answer still agrees in the sense of `Agrees`. |
| ReadCache.ReplayAgrees | src/read/read_cache.rs:105-164 | What every answer of every run keeps even where it differs: byte reads are equal; short strings that the slice reader finds are equal, for windows if the range ends inside the window; strings that end inside the range are equal; strings read through a window lie inside it. |
| ReadCache.RunAgreement | src/read/read_cache.rs:100-214 | The answer to any operation of any run, on the file or on a window inside it, equals that of the slice reader if and only if `RunDiffers` does not hold: a condition on the file, the operation, and whether an earlier operation has already found a string at the same start with the same delimiter. |
| ReadCache.CachedIffFound | src/read/read_cache.rs:129-164 | A string is cached after a run if and only if an operation of the run, plain or through a window, succeeded at its start and delimiter or was refused only by its window, with no clear since. |
| ReadCache.AnswerAgrees | src/read/read_cache.rs:105-214 | One answer keeps the same guarantees whatever has been cached before. |
| ReadCache.UntilAgreement | src/read/read_cache.rs:129-164 | A cached string read equals the slice reader's if and only if neither a cached string reaches the end of the range nor an uncached one has 4096 bytes or more. |
| ReadCache.UntilGuarantees | src/read/read_cache.rs:129-164 | Whatever has been cached: a short slice answer is the cached answer, and a cached answer that ends inside the range is the slice answer. |
| ReadCache.ShortRangeCounterexample | src/read/read_cache.rs:132-133 | A string cached through a long range is returned for a range that ends before its delimiter, where the slice reader fails. |
| ReadCache.WindowUntilInside | src/read/read_cache.rs:203-213 | Every string returned through a window lies wholly within the window. |
| ReadCache.WindowUntilAgrees | src/read/read_cache.rs:203-213 | For a range that ends inside the window: a short string that the slice reader finds on the window's bytes is returned, and a string that ends inside the range is the one that the slice reader finds. |
| ReadCache.WindowAgreement | src/read/read_cache.rs:203-213 | For every range and whatever has been cached: a string read through a window equals the slice reader's on the window's bytes if and only if `WindowDiffers` does not hold. If the range ends inside the window, they differ where the cache does, unless the window refuses the cached string. If it ends past the window, where the slice reader fails, they differ where the range is in the file and a string that is cached or within reach ends in the window. |
| ReadCache.LongRangeCounterexample | src/read/read_cache.rs:203-213 | A window of two bytes returns them for a range of three bytes, where the slice reader fails. |
| ReadCache.WindowUntilLong | src/read/read_cache.rs:203-213 | Whatever the range is, a string that ends before the end of the window is the one that the slice reader finds in the whole window. |
| ReadCache.WindowOfSlice | src/read/read_cache.rs:191-201 | Byte reads through a window are the slice reader on the window's bytes. |
| ReadCache.FillUntil | src/read/read_cache.rs:135-158 | The loop over 256-byte steps finds the first delimiter within the limit whatever the short reads are. |
| ReadCache.ReadCache.ReadBytesAt | src/read/read_cache.rs:105-127 | A byte read is that of the slice reader, and stays so after it has been cached. |
| ReadCache.ReadCache.ReadBytesAtUntil | src/read/read_cache.rs:129-164 | A string read is a function of the file and of the strings cached so far, and remembers its own success. |
| ReadCache.ReadCacheRange.ReadBytesAt | src/read/read_cache.rs:191-201 | The window check and the shifted read. |
| ReadCache.ReadCacheRange.ReadBytesAtUntil | src/read/read_cache.rs:203-213 | The shifted string read and the check of its end against the window. |
| ReadRef.DelimitedUnique | src/read/read_ref.rs:141-152 | The string up to the first delimiter is unique, whatever the range. |
| ReadRef.UntilOfDelimited | src/read/read_ref.rs:141-152 | The slice reader finds that string if and only if its delimiter is inside the range. |
| Archive.ParseArchive | src/read/archive.rs:77-198 | Fails if and only if the magic is unknown, a member that has to be looked at is malformed, or an extended name table is unreadable; otherwise the kind, symbol table, names and start are explained by the skipped front members, which no further member could have joined, also with regard to the fourth member of a COFF archive. |
| Archive.MembersAreSuffix | src/read/archive.rs:123-196 | The members are what the whole walk from offset 8 yields behind the skipped front members, of which there are at most four; the start is a member boundary at an even offset or past the end. |
| Archive.Members | src/read/archive.rs:283-291 | Parsing and draining the iterator yields that suffix. |
| Archive.NotBroken | src/read/archive.rs:123-192 | If all members looked at are well formed and all tables readable, no other choice of front members is broken. |
| ArchiveCoff.SkippedSpecial | src/read/archive.rs:123-192 | All skipped members are special ones if and only if the archive is not a COFF archive with four skipped members, of which the third is ordinary. |
| ArchiveCoff.HiddenIff | src/read/archive.rs:147-178 | An ordinary member is skipped if and only if the first four headers of the file are two linker members, an ordinary member, and the EC symbols. |
| ArchiveCoff.AllMembers | src/read/archive.rs:283-291 | Parsing and draining yield every member that is not special, unless the first four headers are these. |
| ArchiveCoff.HiddenMemberExample | src/read/archive.rs:147-178 | A concrete archive with a member named `a` that is not in the member list. |
| ArchiveCoff.LongerFront | src/read/archive.rs:123-192 | If a longer list of members at the front has one of the documented forms, the skipped members are not maximal, as those of a parsed archive always are. |
| Archive.ParseMember | src/read/archive.rs:386-450 | One member, by all name forms, with the offset of the next header; every error case. |
| Archive.MemberProgress | src/read/archive.rs:386-450 | A parsed member moves the offset by at least the header size. |
| Archive.MemberExtent | src/read/archive.rs:399-449 | Data offset plus data size is header end plus header size field, also behind a name stored in the data, and at most one byte before the next header. |
| Archive.MemberEven | src/read/archive.rs:435-442 | From an even offset the next header is at an even offset, except at the end of the 64-bit range. |
| Archive.WalkSteps | src/read/archive.rs:333-347 | Headers of a walk are at least 60 bytes apart, and every item but the last is a member. |
| Archive.WalkLength | src/read/archive.rs:333-347 | At most `len / 60 + 1` items, and only the last can be an error. |
| Archive.WalkEven | src/read/archive.rs:333-347 | Every header is read at an even offset. |
| Archive.PayloadsDisjoint | src/read/archive.rs:333-449 | Payloads of one iteration are in order, pairwise disjoint, and overlap no header. |
| Archive.ArchiveMemberIterator.Next | src/read/archive.rs:333-347 | Yields the next item of the walk; after an error it yields nothing more. |
| Archive.ArchiveMemberIterator.Collect | src/read/archive.rs:330-361 | Draining the iterator yields the walk. |
| ArchiveFields.ParseU64Digits | src/read/archive.rs:845-861 | A number if and only if the field does not start with a space, every byte before the first space is a digit, and the positional value is below 2^64; then that value. |
| ArchiveFields.DigitsRoundTrip | src/read/archive.rs:845-861 | Parsing undoes left-justified, space-padded printing of every 64-bit number. |
| ArchiveFields.SysvNameRoundTrip | src/read/archive.rs:863-879 | A GNU name table entry at a printed offset reads back. |
| ArchiveFields.EntryNameMeaning | src/read/archive.rs:863-879 | Both terminators of extended names are recognized. |
| Archive.ParseBsdExtendedName | src/read/archive.rs:881-898 | The name is taken from the front of the data, which shrinks by its length. |
| ArchiveTables.SlashMember | src/read/archive.rs:386-450 | A member laid out with a name that starts with a slash parses with its name, data area and next header. |
| ArchiveTables.ShortMember | src/read/archive.rs:386-450 | So does a member laid out with an ordinary name in its header, with or without a slash behind it. |
| ArchiveTables.ExtendedMember | src/read/archive.rs:386-450 | So does a member laid out with a padded name in front of its data, which is then the data without the name. |
| ArchiveTables.SysvMember | src/read/archive.rs:386-450 | So does a member laid out with a printed offset into the extended name table. |
| ArchiveTables.TableArea | src/read/archive.rs:123-192 | For every parsed archive with a symbol table, the range kept for it is the area behind the first header, or the second of a COFF archive, and behind a name stored there; in a thin archive a BSD table is at the start of the file. |
| ArchiveTables.NamesArea | src/read/archive.rs:123-192 | The extended names of a parsed archive are the data of the member `//`, if there is one. |
| ArchiveTables.GnuArchive | src/read/archive.rs:308-318 | On every parsed archive made of the magic, a header and a GNU table as it is laid out, 32- or 64-bit, and anything behind, reading the symbols yields those that were laid out, unless a second linker member makes it a COFF archive. |
| ArchiveTables.BsdArchive | src/read/archive.rs:308-318 | The same for BSD tables, 32- or 64-bit, with the name in the header or in front of the data. |
| ArchiveTables.CoffArchive | src/read/archive.rs:308-318 | The same for a COFF table in the second linker member: each symbol has the offset of the member that it refers to. |
| ArchiveTables.OnlyTableReadable | src/read/archive.rs:77-198 | An archive of one member with a symbol table is not refused. |
| ArchiveTables.Symbols | src/read/archive.rs:308-318 | No symbols if there is no table, otherwise what the table at the kept range yields. |
| ArchiveTables.ParseSymbols | src/read/archive.rs:77-318 | Parsing and reading the symbols: the archive is explained by its special members, and the symbols are those of its table. |
| ArchiveSymbols.GnuRoundTrip | src/read/archive.rs:608-627 | A GNU symbol table, 32- or 64-bit, reads back as the list that was laid out. |
| ArchiveSymbols.BsdRoundTrip | src/read/archive.rs:693-712 | A BSD symbol table, 32- or 64-bit, reads back as the list that was laid out. |
| ArchiveSymbols.CoffRoundTrip | src/read/archive.rs:713-723 | A COFF symbol table reads back with every symbol at the offset of the member it refers to. |
| ArchiveSymbols.ReadSymbols | src/read/archive.rs:668-804 | Opening a table and reading it to the end yields the items of its layout; an error if and only if the table is outside the file or shorter than its own counts require. |
| ArchiveSymbols.OpenTableFails | src/read/archive.rs:683-728 | For each layout, opening fails exactly on a table that is shorter than the counts in it require. |
| ArchiveSymbols.ArchiveSymbolIterator.Collect | src/read/archive.rs:730-804 | Draining the iterator yields all items in order. |
| Bytes.Bytes.ReadUleb128 | src/read/util.rs:169-186 | Succeeds if and only if a terminating byte is among the first ten and the base-128 value is below 2^64; the value is exact, exactly the encoding is consumed, and what a failure consumes is stated. |
| Bytes.Bytes.ReadSleb128 | src/read/util.rs:188-209 | Succeeds if and only if a terminating byte is among the first ten and the sign-extended value fits 64 bits; the value is exact and exactly the encoding is consumed. |
| Leb128.UlebRoundTrip | src/read/util.rs:169-186 | Reading undoes the minimal encoding of every unsigned 64-bit number, whatever follows. |
| Leb128.SlebRoundTrip | src/read/util.rs:188-209 | Reading undoes the minimal encoding of every signed 64-bit number, whatever follows. |
| Leb128.UlebPadded | src/read/util.rs:169-186 | Reading undoes every zero-padded encoding of at most ten bytes. |
| Leb128.UlebMeaning | src/write/util.rs:171-188 | The encoding terminates at its own end and has the value of the number. |
| Leb128.SlebMeaning | src/write/util.rs:194-216 | The signed encoding terminates at its own end and has the value of the number. |
| Leb128.WriteUleb128 | src/write/util.rs:171-188 | The writing loop appends the minimal encoding and returns its length. |
| Leb128.WriteSleb128 | src/write/util.rs:194-216 | The signed writing loop appends the minimal encoding and returns its length. |
| Bytes.RoundTripUnsigned | src/read/util.rs:169-186 | Writing and reading any unsigned 64-bit number returns it. |
| Bytes.RoundTripSigned | src/read/util.rs:188-209 | Writing and reading any signed 64-bit number returns it. |
| Bytes.Bytes.ReadString | src/read/util.rs:145-158 | Splits at the first null byte, or fails and empties the slice. |
| SymbolMap.Query | src/read/traits.rs:217-274 | A query through collection, sort, deduplication and binary search equals the linear scan if and only if it is not a query at `u64::MAX` with every candidate at that address. An answer is the non-empty name and the address, not above the query, of a definition that is text, data or of unknown kind; there is none if and only if there is no such symbol at or below the query, or in that one case. |
| SymbolMap.DefinitionsAnswer | src/read/traits.rs:223-226 | Removing all undefined symbols from the table changes no answer. |
| SymbolMap.SymbolMapOf | src/read/traits.rs:217-274 | The index is strictly increasing and answers every query as the linear scan does, with the one exception. |
| SymbolMap.BestSymbol | src/read/traits.rs:217-260 | What the scan finds, in terms of symbols: a definition with a readable, non-empty name, text, data or of unknown kind, at the greatest address not above the query, there of least distance from the preferred kind and scope, and of those the one with the greatest index. |
| SymbolMap.OvertakesIsOrder | src/read/traits.rs:236-260 | Between a candidate of known and one of unknown kind at one address: the unknown one ranks better, ties, and wins exactly for the scopes and indices stated. |
| SymbolMap.KnownKindPreferred | src/read/traits.rs:236-260 | The symbol found has a known kind if and only if no symbol of unknown kind at its address overtakes every symbol of known kind there. |
| SymbolMap.UnknownKindCounterexample | src/read/traits.rs:236-260 | A text symbol of unknown scope loses to a dynamic symbol of unknown kind at its address. |
| SymbolMap.ScanIsBest | src/read/traits.rs:220-264 | The linear scan finds the best candidate, and finds none only if there is none. |
| SymbolMap.LookupIsScan | src/read/traits.rs:262-271 | On a sorted list, looking up the first candidate of each address is scanning all candidates. |
| SymbolMap.HeadsIncreasing | src/read/traits.rs:265-271 | The kept entries strictly increase, and are empty exactly when every candidate is at the sentinel address. |
| SymbolMap.Get | src/read/mod.rs:464-474 | The binary search finds the last entry not above the address. |
| SymbolMap.SortByAddress | src/read/mod.rs:459-462 | Sorting an increasing list leaves it as it is. |
| ElfHash.Hash | src/elf.rs:2018-2025 | The loop that leaves the top nibble in place computes the standard ELF hash of every byte string, below 2^28. |
| ElfHash.RoundAgrees | src/elf.rs:2018-2025 | One round of the loop preserves the relation to the standard state. |
| ElfHash.FoldAgrees | src/elf.rs:2022-2022 | Folding the top nibble with one shift has the low bits of the standard fold. |
| ElfHash.GnuHash | src/elf.rs:2052-2058 | The loop computes the base-33 polynomial with seed 5381 modulo 2^32. |
| ElfHash.PolynomialSnoc | src/elf.rs:2052-2058 | The polynomial as a sum of powers satisfies the recurrence of the loop. |
| RelocCodec.PlainLittleRoundTrip | src/macho.rs:3012-3098 | Little endian: decoding undoes encoding if and only if the symbol number, length and type fit their bits. |
| RelocCodec.PlainLittleOnto | src/macho.rs:3012-3098 | Little endian: every pair of words is the encoding of its fields. |
| RelocCodec.PlainLittleMasked | src/macho.rs:3012-3098 | Little endian: if the other fields fit, only the bits of the symbol number above the lowest 24 are lost. |
| RelocCodec.PlainScattered | src/macho.rs:3003-3010 | In either byte order, an encoded plain relocation is taken for a scattered one exactly from address 2^31, except on x86-64. |
| RelocCodec.LowBits | src/macho.rs:3085-3085 | Masking a 32-bit number with 24 bits is the remainder modulo 2^24. |
| RelocCodec.AddendSurvives | src/read/macho/relocation.rs:63-72 | Sign extension of the 24-bit field gives back the addend exactly in the signed range of the field. |
| RelocCodec.AddendCounterexample | src/read/macho/relocation.rs:63-72 | An addend of 2^24 reads back as zero. |
| RelocCodec.PlainBigRoundTrip | src/macho.rs:3012-3098 | Big endian: decoding undoes encoding if and only if the symbol number is zero and the other fields fit. |
| RelocCodec.PlainBigSymbol | src/macho.rs:3088-3093 | Big endian: what is read back is the symbol number without its low sixteen bits. |
| RelocCodec.PlainBigCounterexample | src/macho.rs:3088-3093 | A concrete big-endian relocation that reads back as another symbol with another type. |
| RelocCodec.ScatteredRoundTrip | src/macho.rs:3038-3048 | Scattered: decoding undoes encoding if and only if the fields fit; encodings are marked as scattered. |
| RelocCodec.ScatteredOnto | src/macho.rs:3183-3197 | Exactly the words with the scattered bit are encodings of their fields. |
| RelocCodec.RInfoRoundTrip | src/elf.rs:1184-1218 | Symbol and type survive, with and without the MIPS64 little-endian permutation. |
| RelocCodec.RInfoOnto | src/elf.rs:1184-1218 | Every stored field is the encoding of its symbol and type. |
| RelocCodec.RInfoLayout | src/elf.rs:1207-1218 | The permuted layout byte by byte. |
| Wasm.Parse | src/read/wasm.rs:79-490 | Succeeds if and only if no payload or item that is read is an error and every exported local function exists; then the sections are those of the payloads and the symbols are those of the four stages. |
| Wasm.SymbolsAttributed | src/read/wasm.rs:229-487 | Without a linking symbol table, the nearest preceding file symbol of every import names its module, every export and name symbol belongs to the main file symbol, and that symbol occurs at most once. |
| Wasm.ImportsAttributed | src/read/wasm.rs:231-283 | The import symbols, attributed to the file symbols among them, are exactly the imports with their modules, in order. |
| Wasm.NameSymbolSource | src/read/wasm.rs:451-487 | Every symbol from the name section is that of a local function that no export mentions. |
| Wasm.NamingKept | src/read/wasm.rs:460-485 | The name of every local function with a body that no export mentions becomes a symbol. |
| Wasm.WasmFile.AddSection | src/read/wasm.rs:492-496 | The section table entry of an identifier always refers to the last section with it. |
| Wasm.WasmFile.SectionByIndex | src/read/wasm.rs:589-601 | Finds the last section with an identifier, an error if and only if there is none; the index into the section list is always in range. |
| Wasm.WasmFile.ReadPayloads | src/read/wasm.rs:116-221 | The payload loop fails exactly on a bad payload or item, and collects the last import, export, name and symbol table sections. |
| Wasm.WasmFile.AddImports | src/read/wasm.rs:229-283 | A file symbol at every change of module, one symbol per import; none at all when there is a linking symbol table. |
| Wasm.WasmFile.AddLinking | src/read/wasm.rs:285-391 | One symbol per symbol table entry, in order; see `LinkedFunction` and `LinkedAttributed` for what they are. |
| Wasm.LinkedFunction | src/read/wasm.rs:289-391 | A function entry that counts into the imports has the name of exactly that import, unless it has its own, and no address; any other has the range of the body that it counts to behind the imports. Kind and section follow the flags. |
| Wasm.LinkedAttributed | src/read/wasm.rs:285-391 | With a linking symbol table, no symbol belongs to a file symbol. |
| Wasm.ImportedNamesAt | src/read/wasm.rs:231-246 | The name at an index is that of the import with that many imports of its type before it. |
| Wasm.WasmFile.AddExports | src/read/wasm.rs:393-450 | Marks exactly the exported local functions, fails exactly on one that does not exist, and adds a symbol for every export but tags. |
| Wasm.ExportedGlobalAddress | src/read/wasm.rs:419-426 | Every exported global has its own constant as its address if and only if no global is imported or no constant differs from zero. |
| Wasm.ImportedGlobalShifts | src/read/wasm.rs:419-426 | With an imported global, its export has the constant of the first defined global as its address. |
| Wasm.WasmFile.AddNames | src/read/wasm.rs:451-487 | Adds the symbols of unexported local functions with a body, over all function name maps. |
| WasmSymbols.ExportedSymbol | src/read/wasm.rs:393-450 | An exported function is text in the code section; one that counts to a code entry behind the imports covers exactly the bytes of that entry, counted from the start of the code section, and any other has no address and size. Exported tables, memories and globals are data in the data section; a global has the constant at its index. |
| WasmSymbols.NamedSymbol | src/read/wasm.rs:451-487 | A symbol from the name section is text in the code section, of local scope, and covers exactly the code entry that its index counts to. |
| WasmSymbols.ImportedSymbol | src/read/wasm.rs:231-283 | The symbol of an import is undefined, without address and size, text for functions, data for tables, memories and globals, and unknown for tags. |
| WasmSymbols.LinkedSymbol | src/read/wasm.rs:289-391 | The symbol of an entry of the linking symbol table: scope, weakness, kind and section follow the flags, its name is the explicit or imported one, a function covers the code entry that it counts to, and defined data is where the entry says. |
| WasmSymbols.RangeOfEntry | src/read/wasm.rs:175-184 | What is collected for code entry number `k` covers exactly the bytes of that payload. |
| WasmSymbols.GlobalsCollected | src/read/wasm.rs:147-163 | The value collected for a global is its constant modulo 2^64 if it is immutable and starts with one. |
| WasmSymbols.LastCollected | src/read/wasm.rs:116-221 | Of several import, function, export or name sections, the last is the one that counts. |
| WasmSymbols.LinkingCollected | src/read/wasm.rs:203-215 | Of several linking symbol tables, the last is the one that counts. |
| WasmSymbols.SectionFound | src/read/wasm.rs:492-496 | A section identifier of the standard finds the last payload that is such a section, with its range, and its name if it is a custom section. |
| WasmSymbols.StartOfSection | src/read/wasm.rs:175-184 | With one code section, code addresses are counted from the start of the section that the index of the symbol finds. |
| WasmSymbols.ImportsCounted | src/read/wasm.rs:256-283 | There is one symbol for each import and one file symbol for each change of module. |
| WasmSymbols.FileSymbols | src/read/wasm.rs:94-102 | File symbols have no place and no extent; those among the imports are named by modules and of dynamic scope, the one behind them has no name and local scope. |

## Left out

- AIX big archives: only their magic is recognized.
- The kinds that the Mach-O reader gives to sections by their names, and to symbols by their sections.
- Reading the relocations of a big-endian Mach-O file beyond one entry.
- Windows of the stream cache that are not inside the file, beyond their methods' own contracts.
- Other writers and readers of the crate (ELF, COFF, PE, XCOFF), format dispatch, and debug output.
- Casts of bytes to structures, alignment checks and lifetimes: structures are byte layouts of fixed size.
- Error texts, allocation failures, and reserving buffer space.
- 64-bit overflow of the sums in the Mach-O writer: offsets and addresses are unbounded there, and truncated only where they are emitted. The read-back lemmas assume a file below 4 GiB, which excludes truncation.
- A non-empty starting buffer for the Mach-O writer: the offsets it computes are relative to an empty one.
- Non-power-of-two section alignment, and sections whose size differs from the length of their data: the builder makes neither.
- `size` of the string table, which repeats the emission without writing.
- The tail call of the string sort: the loop over the middle part is a recursive call in the same position.
- Standard sorts, binary search and byte search of the language library: modelled by insertion, by a bisection loop and by the first occurrence, with the same results.
- Radixes above ten in archive numbers: the program uses ten and eight.
- Reader types other than byte slices for the archive reader.
- The `len` of a window, which is a field.
- `ObjectMap`, `RelocationMap`, `data_range` and the read-side string table: little beyond their bodies to state.
- The entry address, the 64-bit memory flag and the debug flag of a WebAssembly file; more than 2^32 imports.
- Sizes of symbols, which a Mach-O file does not record.
- Length fields of eight or more in a Mach-O relocation request: the shift by them is an overflow in the program, and an unsupported size here.
- Overflow of a relocation addend when the program-counter offset is added to it.
- `append_section_bss`, `set_section_data`, subsections, common symbols, COMDATs, the symbol name map and section symbols of the builder, and mangling of names other than the bootstrap symbol.
- MachOBuilder.Builder.AddSection: only the thread variable section is remembered as a standard section, because no other one is looked up here.
