/**
 The Mach-O writer: a first pass that computes every offset, and a second that appends the parts
 of the file. Each check that the length of the file equals a computed offset is an assertion.
 */
module MachOWrite {
  import opened Prelude
  import opened Endian
  import opened MachO
  import opened MachOLayout
  import opened MachORelocs
  import MachOSymbols
  import StringTable

  /** A growing output buffer. */
  class Buffer {
    var bytes: seq<byte>

    constructor ()
      ensures bytes == []
    {
      bytes := [];
    }

    /** Zero bytes up to the new length, which may not be below the current one. */
    method Resize(length: nat)
      requires length >= |bytes|
      modifies this
      ensures bytes == old(bytes) + Zeros(length - |old(bytes)|)
    {
      bytes := bytes + Zeros(length - |bytes|);
    }

    method Write(s: seq<byte>)
      modifies this
      ensures bytes == old(bytes) + s
    {
      bytes := bytes + s;
    }

    method WriteAlign(size: nat)
      requires size > 0
      modifies this
      ensures bytes == old(bytes) + Zeros(Align(|old(bytes)|, size) - |old(bytes)|)
    {
      Resize(Align(|bytes|, size));
    }
  }

  // ---------------------------------------------------------------------------------------------
  // File offsets.

  function SegmentCommandSize(o: Object): nat
  {
    SegmentSize(o) + |o.sections| * SectionSize(o)
  }

  function BuildSize(o: Object): nat
  {
    if o.buildVersion.Some? then BUILD_VERSION_SIZE else 0
  }

  function CommandCount(o: Object): nat
  {
    if o.buildVersion.Some? then 4 else 3
  }

  function CommandsSize(o: Object): nat
  {
    SegmentCommandSize(o) + BuildSize(o) + SYMTAB_SIZE + DYSYMTAB_SIZE
  }

  /** Section data follows the load commands without padding. */
  function DataOffset(o: Object): nat
  {
    HeaderSize(o) + CommandsSize(o)
  }

  ghost predicate Sound(o: Object)
  {
    o.Valid() && Aligned(o.sections)
  }

  lemma ValidIsSound(o: Object)
    requires o.Valid()
    ensures Sound(o) && o.AddressBytes() > 0
  {
    forall k | 0 <= k < |o.sections|
      ensures o.sections[k].align > 0
    {
      assert o.ValidSection(o.sections[k]);
    }
  }

  function RelocStart(o: Object): nat
    requires Sound(o)
  {
    DataOffset(o) + DataEnd(o.sections, |o.sections|)
  }

  function SymtabOffset(o: Object): nat
    requires Sound(o)
  {
    Align(RelocEnd(o.sections, |o.sections|, RelocStart(o), o.AddressBytes()), o.AddressBytes())
  }

  function SymbolCount(o: Object): nat
  {
    |MachOSymbols.Order(o.symbols)|
  }

  function StrtabOffset(o: Object): nat
    requires Sound(o)
  {
    SymtabOffset(o) + TableSize(SymbolCount(o), NlistSize(o))
  }

  function TableSize(n: nat, size: nat): nat
  {
    n * size
  }

  // ---------------------------------------------------------------------------------------------
  // The conditions under which an object can be written.

  predicate HeaderWritable(s: Section)
  {
    |s.name| <= 16 && |s.segment| <= 16 && FlagsOfSection(s).Some?
  }

  predicate NlistWritable(s: Symbol)
  {
    NlistType(s).Some? && NlistDesc(s).Some?
  }

  ghost predicate Writable(o: Object)
  {
    && CpuType(o.arch, o.sub).Some?
    && (forall i :: 0 <= i < |o.symbols| ==> !o.symbols[i].kind.LabelSymbol?)
    && (forall i :: 0 <= i < |o.sections| ==> HeaderWritable(o.sections[i]))
    && (forall i :: 0 <= i < |o.sections| ==> AllEncodable(o, o.sections[i].relocations))
    && (forall i :: 0 <= i < |o.symbols| && o.symbols[i].IsEmitted() ==> NlistWritable(o.symbols[i]))
  }

  // ---------------------------------------------------------------------------------------------
  // The parts of the file.

  /** The string table, and the offset of each symbol's name in it. */
  datatype Strtab = Strtab(data: seq<byte>, strx: seq<nat>)

  /** Every emitted name can be read back at its offset; unnamed symbols refer to the null name. */
  ghost predicate StringsFound(o: Object, t: Strtab)
  {
    && |t.strx| == |o.symbols| && |t.data| > 0 && t.data[0] == 0
    && (o.AddressBytes() > 0 ==> |t.data| % o.AddressBytes() == 0)
    && forall i :: 0 <= i < |o.symbols| && o.symbols[i].IsEmitted() ==>
         if o.symbols[i].name == [] then t.strx[i] == 0
         else StringTable.HasString(t.data, t.strx[i], o.symbols[i].name)
  }

  const MH_SUBSECTIONS_VIA_SYMBOLS: nat := 0x2000

  function FileFlags(o: Object): nat
  {
    var flags := match o.fileFlags { case None => 0 case Some(f) => f };
    if o.subsectionsViaSymbols && flags / MH_SUBSECTIONS_VIA_SYMBOLS % 2 == 0
    then flags + MH_SUBSECTIONS_VIA_SYMBOLS else flags
  }

  function HeaderPart(o: Object): (s: seq<byte>)
    requires CpuType(o.arch, o.sub).Some?
    ensures |s| == HeaderSize(o)
  {
    var cpu := CpuType(o.arch, o.sub).value;
    var subtype := match o.cpuSubtype { case None => cpu.1 case Some(c) => c };
    HeaderBytes(o, (cpu.0, subtype), CommandCount(o), CommandsSize(o), FileFlags(o))
  }

  function SegmentPart(o: Object): (s: seq<byte>)
    requires Sound(o)
    ensures |s| == SegmentSize(o)
  {
    SegmentBytes(o, SegmentCommandSize(o), BssEnd(o.sections, |o.sections|), DataOffset(o),
                 DataEnd(o.sections, |o.sections|), |o.sections|)
  }

  function TrailingZeros(n: nat): nat
    requires n > 0
  {
    if n % 2 == 1 then 0 else 1 + TrailingZeros(n / 2)
  }

  /** The file offset field of section `i`. */
  function OffsetField(o: Object, i: nat): nat
    requires Sound(o) && i < |o.sections|
  {
    if o.sections[i].IsBss() then 0 else DataOffset(o) + Address(o.sections, i)
  }

  function SectionHeader(o: Object, i: nat): (s: seq<byte>)
    requires Sound(o) && i < |o.sections| && HeaderWritable(o.sections[i])
    ensures |s| == SectionSize(o)
  {
    var s := o.sections[i];
    SectionBytes(o, s.name, s.segment, Address(o.sections, i), s.size, OffsetField(o, i), TrailingZeros(s.align),
                 RelocOffset(o.sections, i, RelocStart(o), o.AddressBytes()), CountOf(s.relocations),
                 FlagsOfSection(s).value)
  }

  ghost predicate HeadersWritable(o: Object, n: nat)
  {
    n <= |o.sections| && forall i :: 0 <= i < n ==> HeaderWritable(o.sections[i])
  }

  function SectionHeaders(o: Object, n: nat): (s: seq<byte>)
    requires Sound(o) && HeadersWritable(o, n)
    ensures |s| == n * SectionSize(o)
  {
    if n == 0 then [] else SectionHeaders(o, n - 1) + SectionHeader(o, n - 1)
  }

  function BuildPart(o: Object): (s: seq<byte>)
    ensures |s| == BuildSize(o)
  {
    if o.buildVersion.Some? then BuildVersionBytes(o, o.buildVersion.value) else []
  }

  function SymtabPart(o: Object, t: Strtab): (s: seq<byte>)
    requires Sound(o)
    ensures |s| == SYMTAB_SIZE
  {
    SymtabBytes(o, SymtabOffset(o), SymbolCount(o), StrtabOffset(o), |t.data|)
  }

  function DysymtabPart(o: Object): (s: seq<byte>)
    ensures |s| == DYSYMTAB_SIZE
  {
    DysymtabBytes(o, |MachOSymbols.Locals(o.symbols)|, |MachOSymbols.Externals(o.symbols)|,
                  |MachOSymbols.Undefineds(o.symbols)|)
  }

  /** The data of the first `n` sections, with alignment padding before each. */
  function DataPart(o: Object, n: nat): (s: seq<byte>)
    requires Sound(o) && n <= |o.sections|
    ensures |s| == DataEnd(o.sections, n)
  {
    if n == 0 then []
    else
      assert o.ValidSection(o.sections[n - 1]);
      DataEndStep(o.sections, n);
      if o.sections[n - 1].IsBss() then DataPart(o, n - 1)
      else
        DataPart(o, n - 1) +
        (Zeros(Address(o.sections, n - 1) - DataEnd(o.sections, n - 1)) + o.sections[n - 1].data)
  }

  ghost predicate RelocsWritable(o: Object, n: nat)
  {
    n <= |o.sections| && forall i :: 0 <= i < n ==> AllEncodable(o, o.sections[i].relocations)
  }

  /** The entries of section `i` in the order in which they are written. */
  function SectionEntries(o: Object, i: nat): (r: seq<Entry>)
    requires i < |o.sections| && AllEncodable(o, o.sections[i].relocations)
    ensures |r| == CountOf(o.sections[i].relocations)
  {
    var rs := o.sections[i].relocations;
    EmittedEncodable(o, rs);
    EntriesCount(o, Emitted(rs));
    CountEmitted(rs);
    Entries(o, Emitted(rs))
  }

  function RelocPart(o: Object, n: nat): (s: seq<byte>)
    requires Sound(o) && o.AddressBytes() > 0 && RelocsWritable(o, n)
    ensures RelocStart(o) + |s| == RelocEnd(o.sections, n, RelocStart(o), o.AddressBytes())
  {
    if n == 0 then []
    else
      var before := RelocEnd(o.sections, n - 1, RelocStart(o), o.AddressBytes());
      if o.sections[n - 1].relocations == [] then RelocPart(o, n - 1)
      else
        RelocPart(o, n - 1) +
        (Zeros(Align(before, o.AddressBytes()) - before) + EntriesBytes(o.endian, SectionEntries(o, n - 1)))
  }

  /** `n_value`: symbols in a section are relative to its address. */
  function NlistValue(o: Object, s: Symbol): nat
    requires Sound(o) && (s.section.InSection? ==> s.section.id < |o.sections|)
  {
    if s.section.InSection? then Address(o.sections, s.section.id) + s.value else s.value
  }

  function NlistOf(o: Object, t: Strtab, i: nat): (s: seq<byte>)
    requires Sound(o) && i < |o.symbols| && |t.strx| == |o.symbols| && NlistWritable(o.symbols[i])
    ensures |s| == NlistSize(o)
  {
    var sym := o.symbols[i];
    assert o.ValidSymbol(sym);
    NlistBytes(o, t.strx[i], NlistType(sym).value.0, NlistType(sym).value.1, NlistDesc(sym).value, NlistValue(o, sym))
  }

  ghost predicate NlistsWritable(o: Object, order: seq<nat>)
  {
    forall k :: 0 <= k < |order| ==> order[k] < |o.symbols| && NlistWritable(o.symbols[order[k]])
  }

  function NlistPart(o: Object, t: Strtab, order: seq<nat>): (s: seq<byte>)
    requires Sound(o) && |t.strx| == |o.symbols| && NlistsWritable(o, order)
    ensures |s| == |order| * NlistSize(o)
  {
    if order == [] then []
    else NlistPart(o, t, order[..|order| - 1]) + NlistOf(o, t, order[|order| - 1])
  }

  /** Everything up to the section data. */
  function Commands(o: Object, t: Strtab): (s: seq<byte>)
    requires Sound(o) && CpuType(o.arch, o.sub).Some? && HeadersWritable(o, |o.sections|)
    ensures |s| == DataOffset(o)
  {
    HeaderPart(o) + SegmentPart(o) + SectionHeaders(o, |o.sections|) + BuildPart(o) + SymtabPart(o, t) + DysymtabPart(o)
  }

  /** The whole file. */
  function Image(o: Object, t: Strtab): (s: seq<byte>)
    requires Sound(o) && o.AddressBytes() > 0 && Writable(o) && |t.strx| == |o.symbols|
    requires NlistsWritable(o, MachOSymbols.Order(o.symbols))
    ensures |s| == StrtabOffset(o) + |t.data|
  {
    var end := RelocEnd(o.sections, |o.sections|, RelocStart(o), o.AddressBytes());
    Commands(o, t) + DataPart(o, |o.sections|) + RelocPart(o, |o.sections|) + Zeros(SymtabOffset(o) - end) +
    NlistPart(o, t, MachOSymbols.Order(o.symbols)) + t.data
  }

  /** What a successful write leaves in the buffer. */
  ghost predicate Wrote(o: Object, t: Strtab, file: seq<byte>)
  {
    && Sound(o) && o.AddressBytes() > 0 && Writable(o) && StringsFound(o, t)
    && NlistsWritable(o, MachOSymbols.Order(o.symbols))
    && file == Image(o, t)
  }

  // ---------------------------------------------------------------------------------------------
  // The second pass.

  /** The results of the first pass. */
  datatype Layout = Layout(
    addresses: seq<nat>, filesize: nat, vmsize: nat, relocOffsets: seq<nat>, relocCounts: seq<nat>,
    locals: seq<nat>, externals: seq<nat>, undefineds: seq<nat>, numbers: seq<nat>, nsyms: nat,
    symtabOffset: nat, strtabOffset: nat, strtab: Strtab)

  ghost predicate LayoutOf(o: Object, l: Layout)
    requires Sound(o) && o.AddressBytes() > 0
  {
    && |l.addresses| == |o.sections| && (forall k :: 0 <= k < |o.sections| ==> l.addresses[k] == Address(o.sections, k))
    && l.filesize == DataEnd(o.sections, |o.sections|) && l.vmsize == BssEnd(o.sections, |o.sections|)
    && |l.relocOffsets| == |l.relocCounts| == |o.sections|
    && (forall k :: 0 <= k < |o.sections| ==>
         l.relocOffsets[k] == RelocOffset(o.sections, k, RelocStart(o), o.AddressBytes()) &&
         l.relocCounts[k] == CountOf(o.sections[k].relocations))
    && l.locals == MachOSymbols.Locals(o.symbols) && l.externals == MachOSymbols.Externals(o.symbols)
    && l.undefineds == MachOSymbols.Undefineds(o.symbols)
    && |l.numbers| == |o.symbols| && (forall i :: 0 <= i < |o.symbols| ==>
         l.numbers[i] == MachOSymbols.NumberOf(MachOSymbols.Order(o.symbols), i))
    && l.nsyms == SymbolCount(o)
    && l.symtabOffset == SymtabOffset(o) && l.strtabOffset == StrtabOffset(o)
    && StringsFound(o, l.strtab)
  }

  /** The section header loop; a name that is too long or an unsupported section is an error. */
  method WriteSectionHeaders(o: Object, l: Layout, buffer: Buffer) returns (ok: bool)
    requires Sound(o) && o.AddressBytes() > 0 && LayoutOf(o, l)
    modifies buffer
    ensures ok <==> HeadersWritable(o, |o.sections|)
    ensures ok ==> buffer.bytes == old(buffer.bytes) + SectionHeaders(o, |o.sections|)
  {
    hide SectionBytes, Address, RelocOffset, CountOf, FlagsOfSection, LayoutOf;
    for i := 0 to |o.sections|
      invariant HeadersWritable(o, i)
      invariant buffer.bytes == old(buffer.bytes) + SectionHeaders(o, i)
    {
      var s := o.sections[i];
      if |s.name| > 16 || |s.segment| > 16 || FlagsOfSection(s).None? {
        return false;
      }
      LayoutAddress(o, l, i);
      var offset := if s.IsBss() then 0 else DataOffset(o) + l.addresses[i];
      buffer.Write(SectionBytes(o, s.name, s.segment, l.addresses[i], s.size, offset, TrailingZeros(s.align),
                                l.relocOffsets[i], l.relocCounts[i], FlagsOfSection(s).value));
    }
    ok := true;
  }

  /** The section data loop: no resize goes back, and each section lands on its computed offset. */
  method WriteSectionData(o: Object, l: Layout, buffer: Buffer)
    requires Sound(o) && o.AddressBytes() > 0 && LayoutOf(o, l)
    requires |buffer.bytes| == DataOffset(o)
    modifies buffer
    ensures buffer.bytes == old(buffer.bytes) + DataPart(o, |o.sections|)
  {
    hide Address, DataEnd, Align, DataPart, LayoutOf;
    DataPartNone(o);
    for i := 0 to |o.sections|
      invariant buffer.bytes == old(buffer.bytes) + DataPart(o, i)
    {
      DataPartStep(o, i);
      LayoutAddress(o, l, i);
      if !o.sections[i].IsBss() {
        SectionInterval(o.sections, i);
        buffer.Resize(DataOffset(o) + l.addresses[i]);
        assert |buffer.bytes| == OffsetField(o, i);
        ghost var padding := Zeros(l.addresses[i] - DataEnd(o.sections, i));
        Regroup(old(buffer.bytes) + DataPart(o, i), padding, o.sections[i].data);
        Regroup(old(buffer.bytes), DataPart(o, i), padding + o.sections[i].data);
        buffer.Write(o.sections[i].data);
      }
    }
  }

  lemma DataPartNone(o: Object)
    requires Sound(o)
    ensures DataPart(o, 0) == []
  {
  }

  lemma DataPartStep(o: Object, i: nat)
    requires Sound(o) && i < |o.sections|
    ensures var s := o.sections[i];
      DataPart(o, i + 1) ==
      if s.IsBss() then DataPart(o, i)
      else DataPart(o, i) + (Zeros(Address(o.sections, i) - DataEnd(o.sections, i)) + s.data)
  {
    hide Address, DataEnd;
    assert o.ValidSection(o.sections[i]);
    DataEndStep(o.sections, i + 1);
  }

  lemma LayoutAddress(o: Object, l: Layout, i: nat)
    requires Sound(o) && o.AddressBytes() > 0 && LayoutOf(o, l) && i < |o.sections|
    ensures |l.addresses| == |l.relocOffsets| == |l.relocCounts| == |o.sections|
    ensures l.addresses[i] == Address(o.sections, i)
    ensures l.relocOffsets[i] == RelocOffset(o.sections, i, RelocStart(o), o.AddressBytes())
    ensures l.relocCounts[i] == CountOf(o.sections[i].relocations)
  {
    hide Address, DataEnd, RelocOffset, CountOf, StringsFound;
  }

  lemma LayoutNumber(o: Object, l: Layout, i: nat)
    requires Sound(o) && o.AddressBytes() > 0 && LayoutOf(o, l) && i < |o.symbols|
    ensures |l.numbers| == |o.symbols|
    ensures l.numbers[i] == MachOSymbols.NumberOf(MachOSymbols.Order(o.symbols), i)
    ensures o.symbols[i].kind.SectionSymbol? ==> o.symbols[i].section.InSection?
  {
    hide Address, DataEnd, RelocOffset, CountOf, StringsFound;
    assert o.ValidSymbol(o.symbols[i]);
  }

  /** `write_reloc`: the explicit addend, if any, and then the relocation. */
  method WriteReloc(o: Object, l: Layout, r: Relocation, buffer: Buffer) returns (ok: bool)
    requires Sound(o) && o.AddressBytes() > 0 && LayoutOf(o, l) && r.symbol < |o.symbols|
    modifies buffer
    ensures ok <==> Encodable(o, r)
    ensures ok ==> buffer.bytes == old(buffer.bytes) + EntriesBytes(o.endian, EntriesOf(o, r))
  {
    hide EntryBytes, LayoutOf, EntriesBytes, Sound;
    LayoutNumber(o, l, r.symbol);
    if !r.flags.MachORelocation? {
      return false;
    }
    if r.addend != 0 {
      if !o.arch.Aarch64? && !o.arch.Aarch64_Ilp32? {
        return false;
      }
      buffer.Write(EntryBytes(o.endian, Entry(r.offset, r.addend, false, r.flags.r_length, false, ARM64_RELOC_ADDEND)));
    }
    var symbol := o.symbols[r.symbol];
    var number, extern;
    if symbol.kind.SectionSymbol? {
      number, extern := symbol.section.id + 1, false;
    } else {
      number, extern := l.numbers[r.symbol], true;
    }
    buffer.Write(EntryBytes(o.endian, Entry(r.offset, number, r.flags.r_pcrel, r.flags.r_length, extern,
                                            r.flags.r_type)));
    EntriesBytesOf(o, r);
    ok := true;
  }

  lemma EntriesBytesOf(o: Object, r: Relocation)
    requires Encodable(o, r) && r.symbol < |o.symbols|
    ensures EntriesBytes(o.endian, EntriesOf(o, r)) ==
            (if r.addend != 0 then EntryBytes(o.endian, AddendEntry(o, r)) else []) +
            EntryBytes(o.endian, MainEntry(o, r))
  {
    hide EntryBytes, MainEntry;
    var a, m := AddendEntry(o, r), MainEntry(o, r);
    assert [m][..0] == [];
    assert EntriesBytes(o.endian, [m]) == EntryBytes(o.endian, m);
    assert [a][..0] == [];
    assert EntriesBytes(o.endian, [a]) == EntryBytes(o.endian, a);
    EntriesBytesConcat(o.endian, [a], [m]);
    assert [] + [m] == [m];
  }

  /** The relocations of one section, last first when `need_reverse` says so. */
  method WriteSectionRelocs(o: Object, l: Layout, rs: seq<Relocation>, buffer: Buffer) returns (ok: bool)
    requires Sound(o) && o.AddressBytes() > 0 && LayoutOf(o, l)
    requires forall k :: 0 <= k < |rs| ==> rs[k].symbol < |o.symbols|
    modifies buffer
    ensures ok <==> AllEncodable(o, rs)
    ensures ok ==> AllEncodable(o, Emitted(rs))
    ensures ok ==> buffer.bytes == old(buffer.bytes) + EntriesBytes(o.endian, Entries(o, Emitted(rs)))
  {
    hide LayoutOf, Encodable, EntriesOf, EntriesBytes;
    var e := Emitted(rs);
    var k := 0;
    EntriesBytesNone(o);
    while k < |rs|
      invariant k <= |rs| && |e| == |rs|
      invariant AllEncodable(o, e[..k])
      invariant buffer.bytes == old(buffer.bytes) + EntriesBytes(o.endian, Entries(o, e[..k]))
    {
      EmittedSource(rs, k);
      var r := if NeedReverse(rs) then rs[|rs| - 1 - k] else rs[k];
      assert r == e[k];
      var written := WriteReloc(o, l, r, buffer);
      if !written {
        return false;
      }
      EntriesSnoc(o, e, k);
      EntriesBytesConcat(o.endian, Entries(o, e[..k]), EntriesOf(o, r));
      k := k + 1;
    }
    assert e[..|rs|] == e;
    EmittedAll(o, rs);
    ok := true;
  }

  lemma EntriesBytesNone(o: Object)
    ensures EntriesBytes(o.endian, []) == []
  {
  }

  lemma EmittedSource(rs: seq<Relocation>, k: nat)
    requires k < |rs|
    ensures Emitted(rs)[k] == if NeedReverse(rs) then rs[|rs| - 1 - k] else rs[k]
  {
  }

  lemma EntriesSnoc(o: Object, e: seq<Relocation>, k: nat)
    requires k < |e| && AllEncodable(o, e[..k]) && Encodable(o, e[k]) && e[k].symbol < |o.symbols|
    ensures AllEncodable(o, e[..k + 1])
    ensures Entries(o, e[..k + 1]) == Entries(o, e[..k]) + EntriesOf(o, e[k])
  {
    hide EntriesOf;
    assert e[..k + 1][..k] == e[..k];
  }

  lemma EmittedAll(o: Object, rs: seq<Relocation>)
    requires AllEncodable(o, Emitted(rs))
    ensures AllEncodable(o, rs)
  {
    forall k | 0 <= k < |rs|
      ensures Encodable(o, rs[k]) && rs[k].symbol < |o.symbols|
    {
      EmittedSource(rs, if NeedReverse(rs) then |rs| - 1 - k else k);
    }
  }

  lemma RelocPartStep(o: Object, i: nat)
    requires Sound(o) && o.AddressBytes() > 0 && i < |o.sections| && RelocsWritable(o, i + 1)
    ensures RelocPart(o, 0) == []
    ensures var before := RelocEnd(o.sections, i, RelocStart(o), o.AddressBytes());
      RelocPart(o, i + 1) ==
      if o.sections[i].relocations == [] then RelocPart(o, i)
      else RelocPart(o, i) +
           (Zeros(RelocOffset(o.sections, i, RelocStart(o), o.AddressBytes()) - before) +
            EntriesBytes(o.endian, SectionEntries(o, i)))
  {
    hide RelocEnd, Align, SectionEntries, RelocStart;
  }

  lemma RelocSymbols(o: Object, i: nat)
    requires Sound(o) && i < |o.sections|
    ensures forall k :: 0 <= k < |o.sections[i].relocations| ==> o.sections[i].relocations[k].symbol < |o.symbols|
  {
    assert o.ValidSection(o.sections[i]);
  }

  lemma SectionEntriesOf(o: Object, i: nat)
    requires i < |o.sections| && AllEncodable(o, o.sections[i].relocations)
    requires AllEncodable(o, Emitted(o.sections[i].relocations))
    ensures SectionEntries(o, i) == Entries(o, Emitted(o.sections[i].relocations))
  {
  }

  /** The relocation loop: each block starts at its computed offset. */
  method WriteRelocations(o: Object, l: Layout, buffer: Buffer) returns (ok: bool)
    requires Sound(o) && o.AddressBytes() > 0 && LayoutOf(o, l)
    requires |buffer.bytes| == RelocStart(o)
    modifies buffer
    ensures ok <==> RelocsWritable(o, |o.sections|)
    ensures ok ==> buffer.bytes == old(buffer.bytes) + RelocPart(o, |o.sections|)
  {
    hide RelocPart, LayoutOf, RelocEnd, RelocStart, SectionEntries, AllEncodable, CountOf, Sound, Emitted, Entries,
         EntriesBytes;
    RelocPartNone(o);
    for i := 0 to |o.sections|
      invariant RelocsWritable(o, i)
      invariant buffer.bytes == old(buffer.bytes) + RelocPart(o, i)
    {
      RelocSymbols(o, i);
      LayoutAddress(o, l, i);
      var rs := o.sections[i].relocations;
      if rs != [] {
        ghost var before := buffer.bytes;
        buffer.WriteAlign(o.AddressBytes());
        assert |buffer.bytes| == l.relocOffsets[i];
        assert buffer.bytes == before + Zeros(l.relocOffsets[i] - |before|);
        var written := WriteSectionRelocs(o, l, rs, buffer);
        if !written {
          return false;
        }
        BlockWritten(o, i, old(buffer.bytes), before, buffer.bytes);
      } else {
        NoRelocsEncodable(o, rs);
        RelocPartStep(o, i);
      }
    }
    ok := true;
  }

  /** A block that starts at its computed offset extends the relocations written so far. */
  lemma BlockWritten(o: Object, i: nat, start: seq<byte>, before: seq<byte>, after: seq<byte>)
    requires Sound(o) && o.AddressBytes() > 0 && i < |o.sections| && RelocsWritable(o, i)
    requires |start| == RelocStart(o) && before == start + RelocPart(o, i) && o.sections[i].relocations != []
    requires var rs := o.sections[i].relocations;
      var at := RelocOffset(o.sections, i, RelocStart(o), o.AddressBytes());
      && AllEncodable(o, rs) && AllEncodable(o, Emitted(rs)) && at >= |before|
      && after == before + Zeros(at - |before|) + EntriesBytes(o.endian, Entries(o, Emitted(rs)))
    ensures RelocsWritable(o, i + 1) && after == start + RelocPart(o, i + 1)
  {
    hide RelocPart, RelocEnd, RelocStart, SectionEntries, AllEncodable, CountOf, Emitted, Entries, EntriesBytes,
         RelocOffset, Sound;
    SectionEntriesOf(o, i);
    RelocPartStep(o, i);
    var padding := Zeros(RelocOffset(o.sections, i, RelocStart(o), o.AddressBytes()) - |before|);
    var block := EntriesBytes(o.endian, SectionEntries(o, i));
    Regroup(start + RelocPart(o, i), padding, block);
    Regroup(start, RelocPart(o, i), padding + block);
  }

  lemma NoRelocsEncodable(o: Object, rs: seq<Relocation>)
    requires rs == []
    ensures AllEncodable(o, rs)
  {
  }

  lemma RelocPartNone(o: Object)
    requires Sound(o) && o.AddressBytes() > 0
    ensures RelocsWritable(o, 0) && RelocPart(o, 0) == []
  {
  }

  /** The symbol loop: entry `k` is that of the symbol numbered `k`. */
  method WriteSymbols(o: Object, l: Layout, order: seq<nat>, buffer: Buffer) returns (ok: bool)
    requires Sound(o) && o.AddressBytes() > 0 && LayoutOf(o, l)
    requires forall k :: 0 <= k < |order| ==> order[k] < |o.symbols| && o.symbols[order[k]].IsEmitted()
    modifies buffer
    ensures ok <==> NlistsWritable(o, order)
    ensures ok ==> |l.strtab.strx| == |o.symbols| && buffer.bytes == old(buffer.bytes) + NlistPart(o, l.strtab, order)
  {
    hide LayoutOf, NlistPart, NlistOf, NlistBytes, NlistType, NlistDesc, Sound;
    LayoutStrings(o, l);
    NlistPartNone(o, l.strtab);
    assert order[..0] == [];
    for k := 0 to |order|
      invariant NlistsWritable(o, order[..k])
      invariant buffer.bytes == old(buffer.bytes) + NlistPart(o, l.strtab, order[..k])
    {
      var index := order[k];
      var symbol := o.symbols[index];
      var typ := NlistType(symbol);
      if typ.None? {
        return false;
      }
      var desc := NlistDesc(symbol);
      if desc.None? {
        return false;
      }
      var value := symbol.value;
      if symbol.section.InSection? {
        SectionOfSymbol(o, index);
        LayoutAddress(o, l, symbol.section.id);
        value := l.addresses[symbol.section.id] + symbol.value;
      }
      NlistOfStep(o, l.strtab, index, value);
      NlistPartStep(o, l.strtab, order, k);
      buffer.Write(NlistBytes(o, l.strtab.strx[index], typ.value.0, typ.value.1, desc.value, value));
    }
    assert order[..|order|] == order;
    ok := true;
  }

  lemma LayoutStrings(o: Object, l: Layout)
    requires Sound(o) && o.AddressBytes() > 0 && LayoutOf(o, l)
    ensures StringsFound(o, l.strtab) && |l.strtab.strx| == |o.symbols|
  {
    hide Address, RelocOffset, CountOf;
  }

  lemma NlistPartNone(o: Object, t: Strtab)
    requires Sound(o) && |t.strx| == |o.symbols|
    ensures NlistsWritable(o, []) && NlistPart(o, t, []) == []
  {
  }

  lemma SectionOfSymbol(o: Object, i: nat)
    requires Sound(o) && i < |o.symbols|
    ensures o.symbols[i].section.InSection? ==> o.symbols[i].section.id < |o.sections|
  {
    assert o.ValidSymbol(o.symbols[i]);
  }

  lemma NlistOfStep(o: Object, t: Strtab, i: nat, value: nat)
    requires Sound(o) && i < |o.symbols| && |t.strx| == |o.symbols| && NlistWritable(o.symbols[i])
    requires if o.symbols[i].section.InSection?
             then o.symbols[i].section.id < |o.sections| &&
                  value == Address(o.sections, o.symbols[i].section.id) + o.symbols[i].value
             else value == o.symbols[i].value
    ensures var s := o.symbols[i];
      NlistOf(o, t, i) == NlistBytes(o, t.strx[i], NlistType(s).value.0, NlistType(s).value.1, NlistDesc(s).value,
                                     value)
  {
    hide NlistBytes, NlistType, NlistDesc, Address;
  }

  lemma NlistPartStep(o: Object, t: Strtab, order: seq<nat>, k: nat)
    requires Sound(o) && |t.strx| == |o.symbols| && k < |order| && NlistsWritable(o, order[..k])
    requires order[k] < |o.symbols| && NlistWritable(o.symbols[order[k]])
    ensures NlistsWritable(o, order[..k + 1])
    ensures NlistPart(o, t, order[..k + 1]) == NlistPart(o, t, order[..k]) + NlistOf(o, t, order[k])
  {
    hide NlistOf, NlistType, NlistDesc;
    assert order[..k + 1][..k] == order[..k];
  }

  // ---------------------------------------------------------------------------------------------
  // The first pass, and both passes together.

  /** Reads the offset of every symbol's name; symbols without one refer to offset zero. */
  method StringOffsets(o: Object, ids: seq<Option<nat>>, strtab: StringTable.StringTable) returns (strx: seq<nat>)
    requires |ids| == |o.symbols|
    requires forall i :: 0 <= i < |ids| ==> ids[i].Some? ==> ids[i].value < |strtab.offsets|
    ensures |strx| == |ids|
    ensures forall i :: 0 <= i < |ids| ==> strx[i] == if ids[i].Some? then strtab.offsets[ids[i].value] else 0
  {
    strx := [];
    for i := 0 to |ids|
      invariant |strx| == i
      invariant forall k :: 0 <= k < i ==> strx[k] == if ids[k].Some? then strtab.offsets[ids[k].value] else 0
    {
      strx := strx + [if ids[i].Some? then strtab.offsets[ids[i].value] else 0];
    }
  }

  /** The names that were entered can be found in the table that was written, padding included. */
  lemma NamesFound(o: Object, strings: seq<seq<byte>>, ids: seq<Option<nat>>, data: seq<byte>, offsets: seq<nat>,
                   strx: seq<nat>, padding: seq<byte>)
    requires |ids| == |strx| == |o.symbols| && |offsets| == |strings|
    requires forall i :: 0 <= i < |o.symbols| ==> MachOSymbols.Named(o.symbols, strings, ids, i)
    requires forall id :: 0 <= id < |strings| ==> StringTable.HasString(data, offsets[id], strings[id])
    requires forall i :: 0 <= i < |ids| ==> ids[i].Some? ==>
      ids[i].value < |offsets| && strx[i] == offsets[ids[i].value]
    requires forall i :: 0 <= i < |ids| ==> ids[i].None? ==> strx[i] == 0
    requires |data| > 0 && data[0] == 0
    requires o.AddressBytes() > 0 ==> |data + padding| % o.AddressBytes() == 0
    ensures StringsFound(o, Strtab(data + padding, strx))
  {
    hide StringTable.HasString;
    forall i | 0 <= i < |o.symbols| && o.symbols[i].IsEmitted()
      ensures if o.symbols[i].name == [] then strx[i] == 0
              else StringTable.HasString(data + padding, strx[i], o.symbols[i].name)
    {
      assert MachOSymbols.Named(o.symbols, strings, ids, i);
      if o.symbols[i].name != [] {
        StringTable.HasStringExtends(data, padding, strx[i], o.symbols[i].name);
      }
    }
  }

  /** Builds the string table of the emitted names, padded to the pointer alignment. */
  method BuildStrtab(o: Object, ids: seq<Option<nat>>, strtab: StringTable.StringTable) returns (t: Strtab)
    requires strtab.Valid() && strtab.offsets == [] && o.AddressBytes() > 0
    requires |ids| == |o.symbols|
    requires forall i :: 0 <= i < |o.symbols| ==> MachOSymbols.Named(o.symbols, strtab.strings, ids, i)
    modifies strtab
    ensures StringsFound(o, t)
  {
    hide StringTable.HasString, StringTable.KeptBytes, StringTable.Sorted, StringTable.Enumerates, Align;
    forall i | 0 <= i < |ids|
      ensures ids[i].Some? ==> ids[i].value < |strtab.strings|
    {
      assert MachOSymbols.Named(o.symbols, strtab.strings, ids, i);
    }
    var data := strtab.Write(1, [0]);
    assert |data| > 0 && data[0] == 0;
    var padding := Zeros(Align(|data|, o.AddressBytes()) - |data|);
    var strx := StringOffsets(o, ids, strtab);
    NamesFound(o, strtab.strings, ids, data, strtab.offsets, strx, padding);
    t := Strtab(data + padding, strx);
  }

  /** The first pass: every offset, address, number and count, before anything is written. */
  method FirstPass(o: Object) returns (ok: bool, l: Layout)
    requires o.Valid()
    ensures ok <==> forall i :: 0 <= i < |o.symbols| ==> !o.symbols[i].kind.LabelSymbol?
    ensures ok ==> Sound(o) && o.AddressBytes() > 0 && LayoutOf(o, l)
  {
    hide StringsFound, RelocEnd, RelocOffset, CountOf, Align, Address, DataEnd, BssEnd,
         MachOSymbols.Select, MachOSymbols.SortByName, MachOSymbols.ClassOf, MachOSymbols.NumberOf,
         MachOSymbols.NoDuplicates, MachOSymbols.Named;
    ValidIsSound(o);
    ValidNames(o);
    var addresses, filesize, vmsize := LayoutSections(o.sections);
    var strtab := new StringTable.StringTable();
    var labels, ids, locals, externals, undefineds := MachOSymbols.PartitionSymbols(o.symbols, strtab);
    if !labels {
      return false, Layout([], 0, 0, [], [], [], [], [], [], 0, 0, 0, Strtab([], []));
    }
    MachOSymbols.SelectWithin(o.symbols, MachOSymbols.External);
    MachOSymbols.SelectWithin(o.symbols, MachOSymbols.UndefinedClass);
    externals := MachOSymbols.SortByName(o.symbols, externals);
    undefineds := MachOSymbols.SortByName(o.symbols, undefineds);
    MachOSymbols.OrderIsPermutation(o.symbols);
    var numbers, nsyms := MachOSymbols.AssignNumbers(locals + externals + undefineds, |o.symbols|);
    var offset := DataOffset(o) + filesize;
    var relocOffsets, relocCounts, end := LayoutRelocations(o.sections, offset, o.AddressBytes());
    var symtabOffset := Align(end, o.AddressBytes());
    var strtabOffset := symtabOffset + TableSize(nsyms, NlistSize(o));
    var t := BuildStrtab(o, ids, strtab);
    l := Layout(addresses, filesize, vmsize, relocOffsets, relocCounts, locals, externals, undefineds, numbers, nsyms,
                symtabOffset, strtabOffset, t);
    ok := true;
  }

  lemma ValidNames(o: Object)
    requires o.Valid()
    ensures MachOSymbols.NamesReadable(o.symbols)
  {
    forall i | 0 <= i < |o.symbols| && o.symbols[i].IsEmitted()
      ensures 0 !in o.symbols[i].name
    {
      assert o.ValidSymbol(o.symbols[i]);
    }
  }

  /** The load commands and section headers of the second pass. */
  method WriteCommands(o: Object, l: Layout, buffer: Buffer) returns (ok: bool)
    requires Sound(o) && o.AddressBytes() > 0 && LayoutOf(o, l) && buffer.bytes == []
    modifies buffer
    ensures ok <==> CpuType(o.arch, o.sub).Some? && HeadersWritable(o, |o.sections|)
    ensures ok ==> buffer.bytes == Commands(o, l.strtab)
  {
    hide HeaderBytes, SegmentBytes, SectionHeaders, SymtabBytes, DysymtabBytes, BuildVersionBytes, HeaderWritable,
         Address, DataEnd, BssEnd, RelocOffset, CountOf, RelocEnd, Align, StringsFound, CpuType,
         MachOSymbols.Locals, MachOSymbols.Externals, MachOSymbols.Undefineds, MachOSymbols.NumberOf;
    if CpuType(o.arch, o.sub).None? {
      return false;
    }
    buffer.Write(HeaderPart(o));
    var segmentCommandOffset := HeaderSize(o);
    assert segmentCommandOffset == |buffer.bytes|;
    buffer.Write(SegmentBytes(o, SegmentCommandSize(o), l.vmsize, DataOffset(o), l.filesize, |o.sections|));
    var written := WriteSectionHeaders(o, l, buffer);
    if !written {
      return false;
    }
    var buildVersionOffset := segmentCommandOffset + SegmentCommandSize(o);
    assert buildVersionOffset == |buffer.bytes|;
    buffer.Write(BuildPart(o));
    var symtabCommandOffset := buildVersionOffset + BuildSize(o);
    assert symtabCommandOffset == |buffer.bytes|;
    buffer.Write(SymtabBytes(o, l.symtabOffset, l.nsyms, l.strtabOffset, |l.strtab.data|));
    var dysymtabCommandOffset := symtabCommandOffset + SYMTAB_SIZE;
    assert dysymtabCommandOffset == |buffer.bytes|;
    buffer.Write(DysymtabBytes(o, |l.locals|, |l.externals|, |l.undefineds|));
    ok := true;
  }

  /** `macho_write`: succeeds exactly on writable objects, and then leaves the image in the buffer. */
  method MachoWrite(o: Object, buffer: Buffer) returns (ok: bool)
    requires o.Valid() && buffer.bytes == []
    modifies buffer
    ensures ok <==> Writable(o)
    ensures ok ==> exists t :: Wrote(o, t, buffer.bytes)
  {
    hide Commands, DataPart, RelocPart, NlistPart, LayoutOf, HeaderWritable, AllEncodable, CpuType,
         NlistWritable, MachOSymbols.Order, Sound, StringsFound;
    var passed, l := FirstPass(o);
    if !passed {
      return false;
    }
    LayoutStrings(o, l);
    LayoutOffsets(o, l);
    var order := l.locals + l.externals + l.undefineds;
    MachOSymbols.OrderIsPermutation(o.symbols);
    OrderWritable(o);
    var commands := WriteCommands(o, l, buffer);
    if !commands {
      return false;
    }
    WriteSectionData(o, l, buffer);
    assert DataOffset(o) + l.filesize == |buffer.bytes|;
    var relocations := WriteRelocations(o, l, buffer);
    if !relocations {
      return false;
    }
    buffer.WriteAlign(o.AddressBytes());
    assert l.symtabOffset == |buffer.bytes|;
    var symbols := WriteSymbols(o, l, order, buffer);
    if !symbols {
      return false;
    }
    assert l.strtabOffset == |buffer.bytes|;
    buffer.Write(l.strtab.data);
    assert l.strtabOffset + |l.strtab.data| == |buffer.bytes|;
    assert Wrote(o, l.strtab, buffer.bytes);
    ok := true;
  }

  lemma LayoutOffsets(o: Object, l: Layout)
    requires Sound(o) && o.AddressBytes() > 0 && LayoutOf(o, l)
    ensures l.filesize == DataEnd(o.sections, |o.sections|)
    ensures l.locals + l.externals + l.undefineds == MachOSymbols.Order(o.symbols)
    ensures l.symtabOffset == SymtabOffset(o) && l.strtabOffset == StrtabOffset(o)
  {
    hide Address, RelocOffset, CountOf, StringsFound, MachOSymbols.NumberOf;
  }

  /** All entries of the table can be written exactly when every emitted symbol can. */
  lemma OrderWritable(o: Object)
    ensures NlistsWritable(o, MachOSymbols.Order(o.symbols)) <==>
            forall i :: 0 <= i < |o.symbols| && o.symbols[i].IsEmitted() ==> NlistWritable(o.symbols[i])
  {
    hide MachOSymbols.Order, NlistWritable;
    MachOSymbols.OrderIsPermutation(o.symbols);
    var order := MachOSymbols.Order(o.symbols);
    if NlistsWritable(o, order) {
      forall i | 0 <= i < |o.symbols| && o.symbols[i].IsEmitted()
        ensures NlistWritable(o.symbols[i])
      {
        var k :| 0 <= k < |order| && order[k] == i;
      }
    } else {
      var k :| 0 <= k < |order| && !(order[k] < |o.symbols| && NlistWritable(o.symbols[order[k]]));
      assert order[k] in order;
    }
  }
}
