/**
 Reading a written Mach-O file back. The functions here look only at the bytes of the file, the way
 a reader does: they follow the header to the load commands, the load commands to the tables, and
 the tables to section data, relocations and names.
 */
module MachOReadBack {
  import opened Prelude
  import opened Endian
  import opened MachO
  import opened MachOLayout
  import opened MachORelocs
  import opened MachOWrite
  import MachOSymbols
  import Bits
  import RelocCodec
  import StringTable

  /** The sizes at which no field of the file is truncated. */
  ghost predicate Fits(o: Object, t: Strtab)
    requires Sound(o) && o.AddressBytes() > 0
  {
    StrtabOffset(o) + |t.data| <= U32_MAX && BssEnd(o.sections, |o.sections|) < Capacity(o.Word())
  }

  /** The number at an offset; zero outside the file. */
  function Field(e: Endian, s: seq<byte>, at: nat, w: nat): nat
  {
    if at + w <= |s| then Get(e, s[at..at + w]) else 0
  }

  lemma FieldOf(e: Endian, s: seq<byte>, at: nat, w: nat, v: nat)
    requires HasWord(e, s, at, w, v) && v < Capacity(w)
    ensures at + w <= |s| && Field(e, s, at, w) == v
  {
    hide Put, Get, Capacity;
    GetPutFits(e, v, w);
  }

  lemma Field32(e: Endian, s: seq<byte>, at: nat, v: nat)
    requires HasWord(e, s, at, 4, v) && v <= U32_MAX
    ensures at + 4 <= |s| && Field(e, s, at, 4) == v
  {
    hide Field, HasWord, Capacity;
    CapacityValues();
    FieldOf(e, s, at, 4, v);
  }

  // ---------------------------------------------------------------------------------------------
  // Slices.

  lemma SixParts(a: seq<byte>, b: seq<byte>, c: seq<byte>, d: seq<byte>, e: seq<byte>, f: seq<byte>)
    ensures var s, n := a + b + c + d + e + f, |a| + |b| + |c| + |d| + |e|;
      && s[..|a|] == a
      && s[|a|..|a| + |b|] == b
      && s[|a| + |b|..|a| + |b| + |c|] == c
      && s[|a| + |b| + |c|..|a| + |b| + |c| + |d|] == d
      && s[n - |e|..n] == e
      && s[n..n + |f|] == f
  {
    var two, three, four, five := a + b, a + b + c, a + b + c + d, a + b + c + d + e;
    LastPart(five, f);
    LastPart(four, e);
    LastPart(three, d);
    LastPart(two, c);
    LastPart(a, b);
    FrontPart(five, f, |four|, |five|);
    FrontPart(five, f, |three|, |four|);
    FrontPart(four, e, |three|, |four|);
    FrontPart(five, f, |two|, |three|);
    FrontPart(four, e, |two|, |three|);
    FrontPart(three, d, |two|, |three|);
    FrontPart(five, f, |a|, |two|);
    FrontPart(four, e, |a|, |two|);
    FrontPart(three, d, |a|, |two|);
    FrontPart(two, c, |a|, |two|);
    FrontPart(five, f, 0, |a|);
    FrontPart(four, e, 0, |a|);
    FrontPart(three, d, 0, |a|);
    FrontPart(two, c, 0, |a|);
  }

  lemma LastPart(s: seq<byte>, t: seq<byte>)
    ensures (s + t)[..|s|] == s && (s + t)[|s|..|s| + |t|] == t
  {
  }

  lemma FrontPart(s: seq<byte>, t: seq<byte>, i: nat, j: nat)
    requires i <= j <= |s|
    ensures (s + t)[i..j] == s[i..j]
  {
  }

  /** A number inside a part of the file is a number of the file. */
  lemma WordInPart(e: Endian, s: seq<byte>, from: nat, part: seq<byte>, at: nat, w: nat, v: nat)
    requires from + |part| <= |s| && s[from..from + |part|] == part && HasWord(e, part, at, w, v)
    ensures HasWord(e, s, from + at, w, v)
  {
    hide Put;
    SliceOfSlice(s, from, from + |part|, at, at + w);
  }

  /** The `k`-th number of an array with bytes before and after it. */
  lemma WordBetween(e: Endian, p: seq<byte>, v: seq<nat>, w: nat, q: seq<byte>, k: nat)
    requires k < |v|
    ensures HasWord(e, p + (PutWords(e, v, w) + q), |p| + k * w, w, v[k])
  {
    hide Put, PutWords;
    WordAt(e, v, w, k);
    var m, at := PutWords(e, v, w), k * w;
    assert (m + q)[at..at + w] == m[at..at + w];
    SliceOfConcat(p, m + q, at, at + w);
  }

  lemma PartField(e: Endian, s: seq<byte>, from: nat, part: seq<byte>, at: nat, v: nat)
    requires from + |part| <= |s| && s[from..from + |part|] == part && HasWord(e, part, at, 4, v) && v <= U32_MAX
    ensures Field(e, s, from + at, 4) == v
  {
    hide HasWord, Field;
    WordInPart(e, s, from, part, at, 4, v);
    Field32(e, s, from + at, v);
  }

  // ---------------------------------------------------------------------------------------------
  // The parts of the file and of the load commands.

  lemma FileParts(o: Object, t: Strtab, file: seq<byte>)
    requires Wrote(o, t, file)
    ensures HeadersWritable(o, |o.sections|) && RelocsWritable(o, |o.sections|)
    ensures DataOffset(o) <= RelocStart(o) <= RelocEnd(o.sections, |o.sections|, RelocStart(o), o.AddressBytes())
            <= SymtabOffset(o) <= StrtabOffset(o) <= |file| == StrtabOffset(o) + |t.data|
    ensures file[0..DataOffset(o)] == Commands(o, t)
    ensures file[DataOffset(o)..RelocStart(o)] == DataPart(o, |o.sections|)
    ensures file[RelocStart(o)..RelocEnd(o.sections, |o.sections|, RelocStart(o), o.AddressBytes())]
            == RelocPart(o, |o.sections|)
    ensures file[SymtabOffset(o)..StrtabOffset(o)] == NlistPart(o, t, MachOSymbols.Order(o.symbols))
    ensures file[StrtabOffset(o)..|file|] == t.data
  {
    hide Commands, DataPart, RelocPart, NlistPart, Align, DataEnd, MachOSymbols.Order, HeaderWritable, NlistWritable,
         AllEncodable, StringsFound, CpuType, RelocEnd, Sound;
    StringOfEach(o, t);
    RelocEndGrows(o.sections, 0, |o.sections|, RelocStart(o), o.AddressBytes());
    RelocEndStep(o.sections, 0, RelocStart(o), o.AddressBytes());
    var end := RelocEnd(o.sections, |o.sections|, RelocStart(o), o.AddressBytes());
    SixParts(Commands(o, t), DataPart(o, |o.sections|), RelocPart(o, |o.sections|), Zeros(SymtabOffset(o) - end),
             NlistPart(o, t, MachOSymbols.Order(o.symbols)), t.data);
  }

  lemma StringOfEach(o: Object, t: Strtab)
    requires StringsFound(o, t)
    ensures |t.strx| == |o.symbols|
  {
    hide StringTable.HasString;
  }

  function SectionHeadersAt(o: Object): nat
  {
    HeaderSize(o) + SegmentSize(o)
  }

  function BuildAt(o: Object): nat
  {
    HeaderSize(o) + SegmentCommandSize(o)
  }

  function SymtabAt(o: Object): nat
  {
    BuildAt(o) + BuildSize(o)
  }

  function DysymtabAt(o: Object): nat
  {
    SymtabAt(o) + SYMTAB_SIZE
  }

  lemma CommandParts(o: Object, t: Strtab, file: seq<byte>)
    requires Wrote(o, t, file)
    ensures HeadersWritable(o, |o.sections|) && CpuType(o.arch, o.sub).Some?
    ensures DysymtabAt(o) + DYSYMTAB_SIZE == DataOffset(o) <= |file|
    ensures SectionHeadersAt(o) <= BuildAt(o)
    ensures file[0..HeaderSize(o)] == HeaderPart(o)
    ensures file[HeaderSize(o)..SectionHeadersAt(o)] == SegmentPart(o)
    ensures file[SectionHeadersAt(o)..BuildAt(o)] == SectionHeaders(o, |o.sections|)
    ensures file[BuildAt(o)..SymtabAt(o)] == BuildPart(o)
    ensures file[SymtabAt(o)..DysymtabAt(o)] == SymtabPart(o, t)
    ensures file[DysymtabAt(o)..DataOffset(o)] == DysymtabPart(o)
  {
    hide HeaderPart, SegmentPart, SectionHeaders, BuildPart, SymtabPart, DysymtabPart, Image, HeaderWritable,
         Sound, RelocStart, SymtabOffset, StrtabOffset, CpuType, RelocEnd, StringsFound, NlistsWritable, NlistWritable,
         AllEncodable, DataPart, RelocPart, NlistPart;
    FileParts(o, t, file);
    WritableCpu(o, t, file);
    SixParts(HeaderPart(o), SegmentPart(o), SectionHeaders(o, |o.sections|), BuildPart(o), SymtabPart(o, t),
             DysymtabPart(o));
    var c, n := Commands(o, t), DataOffset(o);
    SliceOfSlice(file, 0, n, 0, HeaderSize(o));
    SliceOfSlice(file, 0, n, HeaderSize(o), SectionHeadersAt(o));
    SliceOfSlice(file, 0, n, SectionHeadersAt(o), BuildAt(o));
    SliceOfSlice(file, 0, n, BuildAt(o), SymtabAt(o));
    SliceOfSlice(file, 0, n, SymtabAt(o), DysymtabAt(o));
    SliceOfSlice(file, 0, n, DysymtabAt(o), n);
  }

  lemma WritableCpu(o: Object, t: Strtab, file: seq<byte>)
    requires Wrote(o, t, file)
    ensures CpuType(o.arch, o.sub).Some?
  {
    hide Image, CpuType;
  }

  // ---------------------------------------------------------------------------------------------
  // Fields of the header and of the load commands.

  /** Every number is within the file, so no offset or count is truncated. */
  lemma FitsAll(o: Object, t: Strtab, file: seq<byte>)
    requires Wrote(o, t, file) && Fits(o, t)
    ensures |file| <= U32_MAX && CommandsSize(o) <= U32_MAX && SegmentCommandSize(o) <= U32_MAX
    ensures DataOffset(o) <= RelocStart(o) <= SymtabOffset(o) <= StrtabOffset(o) <= U32_MAX
    ensures SymbolCount(o) <= U32_MAX
    ensures BssEnd(o.sections, |o.sections|) < Capacity(o.Word())
  {
    hide Image, Sound, StringsFound, NlistsWritable, Writable, MachOSymbols.Order, Align, BssEnd, DataEnd, RelocEnd,
         Capacity, Wrote, TableSize;
    SoundFile(o, t, file);
    FileParts(o, t, file);
    AtLeast(SymbolCount(o), NlistSize(o));
  }

  lemma SoundFile(o: Object, t: Strtab, file: seq<byte>)
    requires Wrote(o, t, file)
    ensures Sound(o) && o.AddressBytes() > 0 && NlistsWritable(o, MachOSymbols.Order(o.symbols)) && StringsFound(o, t)
  {
    hide Image, Sound, StringsFound, NlistsWritable, Writable, MachOSymbols.Order;
  }

  lemma AtLeast(n: nat, size: nat)
    requires size > 0
    ensures n <= TableSize(n, size)
  {
  }

  /** The numbers of the header behind the magic. */
  function HeaderNumbers(o: Object): seq<nat>
    requires CpuType(o.arch, o.sub).Some?
  {
    var cpu := CpuType(o.arch, o.sub).value;
    [cpu.0, if o.cpuSubtype.Some? then o.cpuSubtype.value else cpu.1, MH_OBJECT, CommandCount(o), CommandsSize(o),
     FileFlags(o)]
  }

  lemma HeaderWords(o: Object, k: nat)
    requires CpuType(o.arch, o.sub).Some? && k < 6
    ensures HasWord(o.endian, HeaderPart(o), 4 + 4 * k, 4, HeaderNumbers(o)[k])
  {
    hide Put, PutWords, HasWord, CpuType, FileFlags, Magic, CommandsSize, CommandCount;
    var words := HeaderNumbers(o) + (if o.Is64() then [0] else []);
    var m := Put(Big, Magic(o), 4);
    NothingAfter(PutWords(o.endian, words, 4));
    WordBetween(o.endian, m, words, 4, [], k);
  }

  lemma NothingAfter(s: seq<byte>)
    ensures s + [] == s
  {
  }

  /** Every number of the header, if its field can hold it. */
  lemma HeaderField(o: Object, t: Strtab, file: seq<byte>, k: nat)
    requires Wrote(o, t, file) && k < 6
    ensures CpuType(o.arch, o.sub).Some?
    ensures HeaderNumbers(o)[k] <= U32_MAX ==> Field(o.endian, file, 4 + 4 * k, 4) == HeaderNumbers(o)[k]
  {
    hide Wrote, HeaderPart, HasWord, Field, CommandsSize, CommandCount, CpuType, SegmentPart, SectionHeaders, BuildPart,
         SymtabPart, DysymtabPart, FileFlags;
    CommandParts(o, t, file);
    HeaderWords(o, k);
    if HeaderNumbers(o)[k] <= U32_MAX {
      PartField(o.endian, file, 0, HeaderPart(o), 4 + 4 * k, HeaderNumbers(o)[k]);
    }
  }

  /** Bytes 16 and 20 of the header: the number and the size of the load commands. */
  lemma HeaderFields(o: Object, t: Strtab, file: seq<byte>)
    requires Wrote(o, t, file) && CommandsSize(o) <= U32_MAX
    ensures Field(o.endian, file, 16, 4) == CommandCount(o)
    ensures Field(o.endian, file, 20, 4) == CommandsSize(o)
  {
    hide Wrote, Field, CommandsSize, CommandCount, CpuType, FileFlags;
    FewCommands(o);
    HeaderField(o, t, file, 3);
    HeaderField(o, t, file, 4);
  }

  /** The magic, read in the byte order of the file, tells the word size. */
  lemma MagicReadBack(o: Object, t: Strtab, file: seq<byte>)
    requires Wrote(o, t, file)
    ensures Field(o.endian, file, 0, 4) == if o.Is64() then 0xfeed_facf else 0xfeed_face
  {
    hide Wrote, SegmentPart, SectionHeaders, BuildPart, SymtabPart, DysymtabPart, CpuType, Get, Put, PutWords, Magic,
         FileFlags, CommandsSize, CommandCount;
    CommandParts(o, t, file);
    SliceOfSlice(file, 0, HeaderSize(o), 0, 4);
    assert file[0..4] == Put(Big, Magic(o), 4);
    MagicBytes(o);
  }

  lemma MagicBytes(o: Object)
    ensures Get(o.endian, Put(Big, Magic(o), 4)) == if o.Is64() then 0xfeed_facf else 0xfeed_face
  {
    FourBytes(0xfe, 0xed, 0xfa, 0xcf);
    FourBytes(0xfe, 0xed, 0xfa, 0xce);
    FourBytes(0xcf, 0xfa, 0xed, 0xfe);
    FourBytes(0xce, 0xfa, 0xed, 0xfe);
  }

  /** Four bytes written from the highest can be read in either order. */
  lemma FourBytes(a: byte, b: byte, c: byte, d: byte)
    ensures var s := Put(Big, ((a * 0x100 + b) * 0x100 + c) * 0x100 + d, 4);
      && Get(Big, s) == ((a * 0x100 + b) * 0x100 + c) * 0x100 + d
      && Get(Little, s) == ((d * 0x100 + c) * 0x100 + b) * 0x100 + a
  {
    var v := ((a * 0x100 + b) * 0x100 + c) * 0x100 + d;
    var s := Put(Big, v, 4);
    CapacityValues();
    GetPutFits(Big, v, 4);
    assert Put(Big, a, 1) == [a];
    assert Put(Big, a * 0x100 + b, 2) == [a, b];
    assert Put(Big, (a * 0x100 + b) * 0x100 + c, 3) == [a, b, c];
    assert s == [a, b, c, d];
    assert s[1..] == [b, c, d] && s[1..][1..] == [c, d] && s[1..][1..][1..] == [d];
    assert Get(Little, [d]) == d;
    assert Get(Little, [c, d]) == c + 0x100 * d;
  }

  lemma FewCommands(o: Object)
    ensures CommandCount(o) == if o.buildVersion.Some? then 4 else 3
  {
  }

  lemma NothingBefore(s: seq<byte>)
    ensures [] + s == s
  {
  }

  lemma SegmentWords(o: Object)
    requires Sound(o)
    ensures var s, w := SegmentPart(o), o.Word();
      && HasWord(o.endian, s, 0, 4, if o.Is64() then LC_SEGMENT_64 else LC_SEGMENT)
      && HasWord(o.endian, s, 4, 4, SegmentCommandSize(o))
      && HasWord(o.endian, s, 24, w, 0)
      && HasWord(o.endian, s, 24 + w, w, BssEnd(o.sections, |o.sections|))
      && HasWord(o.endian, s, 24 + 2 * w, w, DataOffset(o))
      && HasWord(o.endian, s, 24 + 3 * w, w, DataEnd(o.sections, |o.sections|))
      && HasWord(o.endian, s, 24 + 4 * w, 4, 7) && HasWord(o.endian, s, 28 + 4 * w, 4, 7)
      && HasWord(o.endian, s, 24 + 4 * w + 8, 4, |o.sections|)
  {
    hide Put, PutWords, HasWord, SegmentCommandSize, BssEnd, DataEnd, DataOffset, Zeros;
    var w := o.Word();
    var first := [if o.Is64() then LC_SEGMENT_64 else LC_SEGMENT, SegmentCommandSize(o)];
    var second := [0, BssEnd(o.sections, |o.sections|), DataOffset(o), DataEnd(o.sections, |o.sections|)];
    var third := [7, 7, |o.sections|, 0];
    var a, b, c, d := PutWords(o.endian, first, 4), Zeros(16), PutWords(o.endian, second, w),
                      PutWords(o.endian, third, 4);
    var s := SegmentPart(o);
    assert s == a + (b + (c + d));
    NothingBefore(s);
    WordBetween(o.endian, [], first, 4, b + (c + d), 0);
    WordBetween(o.endian, [], first, 4, b + (c + d), 1);
    Regroup(a, b, c + d);
    WordBetween(o.endian, a + b, second, w, d, 0);
    WordBetween(o.endian, a + b, second, w, d, 1);
    WordBetween(o.endian, a + b, second, w, d, 2);
    WordBetween(o.endian, a + b, second, w, d, 3);
    Regroup(a + b, c, d);
    NothingAfter(d);
    WordBetween(o.endian, a + b + c, third, 4, [], 0);
    WordBetween(o.endian, a + b + c, third, 4, [], 1);
    WordBetween(o.endian, a + b + c, third, 4, [], 2);
  }

  lemma SymtabWords(o: Object, t: Strtab)
    requires Sound(o) && o.AddressBytes() > 0
    ensures var s := SymtabPart(o, t);
      && HasWord(o.endian, s, 0, 4, LC_SYMTAB) && HasWord(o.endian, s, 4, 4, SYMTAB_SIZE)
      && HasWord(o.endian, s, 8, 4, SymtabOffset(o)) && HasWord(o.endian, s, 12, 4, SymbolCount(o))
      && HasWord(o.endian, s, 16, 4, StrtabOffset(o)) && HasWord(o.endian, s, 20, 4, |t.data|)
  {
    hide Put, PutWords, HasWord, Sound, SymtabOffset, SymbolCount, StrtabOffset;
    var words := [LC_SYMTAB, SYMTAB_SIZE, SymtabOffset(o), SymbolCount(o), StrtabOffset(o), |t.data|];
    var s := PutWords(o.endian, words, 4);
    NothingBefore(s + []);
    NothingAfter(s);
    WordBetween(o.endian, [], words, 4, [], 0);
    WordBetween(o.endian, [], words, 4, [], 1);
    WordBetween(o.endian, [], words, 4, [], 2);
    WordBetween(o.endian, [], words, 4, [], 3);
    WordBetween(o.endian, [], words, 4, [], 4);
    WordBetween(o.endian, [], words, 4, [], 5);
  }

  lemma DysymtabWords(o: Object)
    ensures var s, l, x, u := DysymtabPart(o), |MachOSymbols.Locals(o.symbols)|, |MachOSymbols.Externals(o.symbols)|,
                              |MachOSymbols.Undefineds(o.symbols)|;
      && HasWord(o.endian, s, 0, 4, LC_DYSYMTAB) && HasWord(o.endian, s, 4, 4, DYSYMTAB_SIZE)
      && HasWord(o.endian, s, 8, 4, 0) && HasWord(o.endian, s, 12, 4, l)
      && HasWord(o.endian, s, 16, 4, l) && HasWord(o.endian, s, 20, 4, x)
      && HasWord(o.endian, s, 24, 4, l + x) && HasWord(o.endian, s, 28, 4, u)
  {
    hide Put, PutWords, HasWord, Zeros, MachOSymbols.Locals, MachOSymbols.Externals, MachOSymbols.Undefineds;
    var l, x := |MachOSymbols.Locals(o.symbols)|, |MachOSymbols.Externals(o.symbols)|;
    var u := |MachOSymbols.Undefineds(o.symbols)|;
    var words := [LC_DYSYMTAB, DYSYMTAB_SIZE, 0, l, l, x, l + x, u];
    var s := PutWords(o.endian, words, 4);
    NothingBefore(s + Zeros(48));
    WordBetween(o.endian, [], words, 4, Zeros(48), 0);
    WordBetween(o.endian, [], words, 4, Zeros(48), 1);
    WordBetween(o.endian, [], words, 4, Zeros(48), 2);
    WordBetween(o.endian, [], words, 4, Zeros(48), 3);
    WordBetween(o.endian, [], words, 4, Zeros(48), 4);
    WordBetween(o.endian, [], words, 4, Zeros(48), 5);
    WordBetween(o.endian, [], words, 4, Zeros(48), 6);
    WordBetween(o.endian, [], words, 4, Zeros(48), 7);
  }

  lemma BuildWords(o: Object)
    requires o.buildVersion.Some?
    ensures HasWord(o.endian, BuildPart(o), 0, 4, LC_BUILD_VERSION)
    ensures HasWord(o.endian, BuildPart(o), 4, 4, BUILD_VERSION_SIZE)
  {
    hide Put, PutWords, HasWord;
    var v := o.buildVersion.value;
    var words := [LC_BUILD_VERSION, BUILD_VERSION_SIZE, v.platform, v.minos, v.sdk, 0];
    var s := PutWords(o.endian, words, 4);
    NothingBefore(s + []);
    NothingAfter(s);
    WordBetween(o.endian, [], words, 4, [], 0);
    WordBetween(o.endian, [], words, 4, [], 1);
  }

  lemma SectionWords(o: Object, i: nat)
    requires Sound(o) && o.AddressBytes() > 0 && i < |o.sections| && HeaderWritable(o.sections[i])
    ensures var h, w, s := SectionHeader(o, i), o.Word(), o.sections[i];
      && HasWord(o.endian, h, 32, w, Address(o.sections, i))
      && HasWord(o.endian, h, 32 + w, w, s.size)
      && HasWord(o.endian, h, 32 + 2 * w, 4, OffsetField(o, i))
      && HasWord(o.endian, h, 36 + 2 * w, 4, TrailingZeros(s.align))
      && HasWord(o.endian, h, 40 + 2 * w, 4, RelocOffset(o.sections, i, RelocStart(o), o.AddressBytes()))
      && HasWord(o.endian, h, 44 + 2 * w, 4, CountOf(s.relocations))
      && HasWord(o.endian, h, 48 + 2 * w, 4, FlagsOfSection(s).value)
  {
    hide Put, PutWords, HasWord, Address, OffsetField, TrailingZeros, RelocOffset, CountOf, FlagsOfSection, Name16;
    var s, w := o.sections[i], o.Word();
    var first := [Address(o.sections, i), s.size];
    var second := [OffsetField(o, i), TrailingZeros(s.align),
                   RelocOffset(o.sections, i, RelocStart(o), o.AddressBytes()),
                   CountOf(s.relocations), FlagsOfSection(s).value, 0, 0] + (if o.Is64() then [0] else []);
    var a, b, c, d := Name16(s.name), Name16(s.segment), PutWords(o.endian, first, w), PutWords(o.endian, second, 4);
    var h := SectionHeader(o, i);
    assert h == a + (b + (c + d));
    Regroup(a, b, c + d);
    WordBetween(o.endian, a + b, first, w, d, 0);
    WordBetween(o.endian, a + b, first, w, d, 1);
    Regroup(a + b, c, d);
    NothingAfter(d);
    WordBetween(o.endian, a + b + c, second, 4, [], 0);
    WordBetween(o.endian, a + b + c, second, 4, [], 1);
    WordBetween(o.endian, a + b + c, second, 4, [], 2);
    WordBetween(o.endian, a + b + c, second, 4, [], 3);
    WordBetween(o.endian, a + b + c, second, 4, [], 4);
  }

  // ---------------------------------------------------------------------------------------------
  // The load commands of the file.

  datatype LoadCommand = LoadCommand(cmd: nat, offset: nat, size: nat)

  /** A reader's walk: `n` commands, each directly after the one before. */
  function LoadCommands(e: Endian, s: seq<byte>, at: nat, n: nat): seq<LoadCommand>
    decreases n
  {
    if n == 0 then []
    else
      var c := LoadCommand(Field(e, s, at, 4), at, Field(e, s, at + 4, 4));
      [c] + LoadCommands(e, s, at + c.size, n - 1)
  }

  function WalkEnd(commands: seq<LoadCommand>, at: nat): nat
  {
    if commands == [] then at else WalkEnd(commands[1..], commands[0].offset + commands[0].size)
  }

  /** A command of the file: its two leading numbers. */
  ghost predicate CommandAt(e: Endian, s: seq<byte>, c: LoadCommand)
  {
    Field(e, s, c.offset, 4) == c.cmd && Field(e, s, c.offset + 4, 4) == c.size
  }

  lemma CommandFound(o: Object, file: seq<byte>, part: seq<byte>, c: LoadCommand)
    requires c.offset + |part| <= |file| && file[c.offset..c.offset + |part|] == part
    requires HasWord(o.endian, part, 0, 4, c.cmd) && HasWord(o.endian, part, 4, 4, c.size)
    requires c.cmd <= U32_MAX && c.size <= U32_MAX
    ensures CommandAt(o.endian, file, c)
  {
    hide HasWord, Field;
    WordInPart(o.endian, file, c.offset, part, 0, 4, c.cmd);
    WordInPart(o.endian, file, c.offset, part, 4, 4, c.size);
    Field32(o.endian, file, c.offset, c.cmd);
    Field32(o.endian, file, c.offset + 4, c.size);
  }

  function SegmentCommand(o: Object): LoadCommand
  {
    LoadCommand(if o.Is64() then LC_SEGMENT_64 else LC_SEGMENT, HeaderSize(o), SegmentCommandSize(o))
  }

  function BuildCommand(o: Object): LoadCommand
  {
    LoadCommand(LC_BUILD_VERSION, BuildAt(o), BUILD_VERSION_SIZE)
  }

  function SymtabCommand(o: Object): LoadCommand
  {
    LoadCommand(LC_SYMTAB, SymtabAt(o), SYMTAB_SIZE)
  }

  function DysymtabCommand(o: Object): LoadCommand
  {
    LoadCommand(LC_DYSYMTAB, DysymtabAt(o), DYSYMTAB_SIZE)
  }

  lemma SegmentFound(o: Object, t: Strtab, file: seq<byte>)
    requires Wrote(o, t, file) && CommandsSize(o) <= U32_MAX
    ensures CommandAt(o.endian, file, SegmentCommand(o))
  {
    hide Wrote, HasWord, CommandAt, SegmentPart, SectionHeaders, BuildPart, HeaderPart, SymtabPart, DysymtabPart,
         CpuType, HeadersWritable, DataEnd, BssEnd, Sound;
    SoundFile(o, t, file);
    CommandParts(o, t, file);
    SegmentWords(o);
    CommandFound(o, file, SegmentPart(o), SegmentCommand(o));
  }

  lemma SymtabFound(o: Object, t: Strtab, file: seq<byte>)
    requires Wrote(o, t, file)
    ensures CommandAt(o.endian, file, SymtabCommand(o))
    ensures CommandAt(o.endian, file, DysymtabCommand(o))
    ensures o.buildVersion.Some? ==> CommandAt(o.endian, file, BuildCommand(o))
  {
    hide Wrote, HasWord, CommandAt, SegmentPart, SectionHeaders, BuildPart, HeaderPart, SymtabPart, DysymtabPart,
         CpuType, HeadersWritable, DataEnd, BssEnd, Sound;
    SoundFile(o, t, file);
    CommandParts(o, t, file);
    SymtabWords(o, t);
    CommandFound(o, file, SymtabPart(o, t), SymtabCommand(o));
    DysymtabWords(o);
    CommandFound(o, file, DysymtabPart(o), DysymtabCommand(o));
    if o.buildVersion.Some? {
      BuildWords(o);
      CommandFound(o, file, BuildPart(o), BuildCommand(o));
    }
  }

  /** One step of the walk, past a command of the file. */
  lemma LoadCommandStep(e: Endian, s: seq<byte>, c: LoadCommand, n: nat)
    requires CommandAt(e, s, c) && n > 0
    ensures LoadCommands(e, s, c.offset, n) == [c] + LoadCommands(e, s, c.offset + c.size, n - 1)
  {
    hide Field;
  }

  lemma LoadCommandNone(e: Endian, s: seq<byte>, at: nat)
    ensures LoadCommands(e, s, at, 0) == []
  {
  }

  function CommandList(o: Object): seq<LoadCommand>
  {
    [SegmentCommand(o)] + ((if o.buildVersion.Some? then [BuildCommand(o)] else []) +
    [SymtabCommand(o), DysymtabCommand(o)])
  }

  /**
   The walk of a reader over the number of commands in the header finds exactly the commands that
   were laid out, and ends where the header says that the commands end.
   */
  lemma CommandWalk(o: Object, t: Strtab, file: seq<byte>)
    requires Wrote(o, t, file) && CommandsSize(o) <= U32_MAX
    ensures LoadCommands(o.endian, file, HeaderSize(o), Field(o.endian, file, 16, 4)) == CommandList(o)
    ensures WalkEnd(CommandList(o), HeaderSize(o)) == HeaderSize(o) + Field(o.endian, file, 20, 4) == DataOffset(o)
  {
    hide Wrote, LoadCommands, CommandAt, Field, SegmentCommandSize, HeaderSize;
    var e := o.endian;
    HeaderFields(o, t, file);
    SegmentFound(o, t, file);
    SymtabFound(o, t, file);
    FewCommands(o);
    var n := CommandCount(o);
    LoadCommandStep(e, file, SegmentCommand(o), n);
    if o.buildVersion.Some? {
      LoadCommandStep(e, file, BuildCommand(o), 3);
    }
    LoadCommandStep(e, file, SymtabCommand(o), 2);
    LoadCommandStep(e, file, DysymtabCommand(o), 1);
    LoadCommandNone(e, file, DataOffset(o));
    CommandListEnd(o);
  }

  lemma CommandListEnd(o: Object)
    ensures WalkEnd(CommandList(o), HeaderSize(o)) == DataOffset(o)
  {
    hide HeaderSize, SegmentCommandSize;
    var l, d := SymtabCommand(o), DysymtabCommand(o);
    var tail := (if o.buildVersion.Some? then [BuildCommand(o)] else []) + [l, d];
    assert CommandList(o)[1..] == tail;
    assert [l, d][1..] == [d] && [d][1..] == [];
    assert WalkEnd([d], l.offset + l.size) == d.offset + d.size;
    assert WalkEnd([l, d], l.offset) == d.offset + d.size;
    if o.buildVersion.Some? {
      assert tail[1..] == [l, d];
    } else {
      assert tail == [l, d];
    }
  }

  // ---------------------------------------------------------------------------------------------
  // Sections.

  function SectionAt(o: Object, i: nat): nat
  {
    SectionHeadersAt(o) + TableSize(i, SectionSize(o))
  }

  lemma {:induction false} SectionHeaderAt(o: Object, n: nat, i: nat)
    requires Sound(o) && HeadersWritable(o, n) && i < n
    ensures (i + 1) * SectionSize(o) <= n * SectionSize(o)
    ensures SectionHeaders(o, n)[i * SectionSize(o)..(i + 1) * SectionSize(o)] == SectionHeader(o, i)
  {
    hide SectionHeader, HeaderWritable, Sound, SectionSize;
    var size := SectionSize(o);
    assert n * size == (n - 1) * size + size;
    if i < n - 1 {
      SectionHeaderAt(o, n - 1, i);
      PrefixSlice(SectionHeaders(o, n), SectionHeaders(o, n - 1), i * size, (i + 1) * size);
    }
  }

  lemma SectionHeaderFound(o: Object, t: Strtab, file: seq<byte>, i: nat)
    requires Wrote(o, t, file) && i < |o.sections|
    ensures Sound(o) && o.AddressBytes() > 0 && HeaderWritable(o.sections[i])
    ensures SectionAt(o, i) + SectionSize(o) <= |file|
    ensures file[SectionAt(o, i)..SectionAt(o, i) + SectionSize(o)] == SectionHeader(o, i)
  {
    hide Wrote, SegmentPart, SectionHeaders, BuildPart, HeaderPart, SymtabPart, DysymtabPart, CpuType, HeaderWritable,
         Sound, SectionHeader, SectionSize;
    SoundFile(o, t, file);
    CommandParts(o, t, file);
    var n, size := |o.sections|, SectionSize(o);
    SectionHeaderAt(o, n, i);
    assert (i + 1) * size == i * size + size;
    SliceOfSlice(file, SectionHeadersAt(o), BuildAt(o), i * size, (i + 1) * size);
  }

  /** The bytes of section `i` among the data of the first `n` sections. */
  lemma {:induction false} DataPartAt(o: Object, n: nat, i: nat)
    requires Sound(o) && i < n <= |o.sections| && !o.sections[i].IsBss()
    ensures Address(o.sections, i) + o.sections[i].size <= DataEnd(o.sections, n)
    ensures DataPart(o, n)[Address(o.sections, i)..Address(o.sections, i) + o.sections[i].size] == o.sections[i].data
  {
    hide Address, DataEnd, DataPart;
    var s := o.sections[i];
    assert o.ValidSection(s);
    SectionInterval(o.sections, i);
    DataPartStep(o, n - 1);
    DataEndGrows(o.sections, i + 1, n);
    if i == n - 1 {
      var before := DataPart(o, i);
      var padding := Zeros(Address(o.sections, i) - DataEnd(o.sections, i));
      Regroup(before, padding, s.data);
    } else {
      DataPartAt(o, n - 1, i);
      PrefixSlice(DataPart(o, n), DataPart(o, n - 1), Address(o.sections, i), Address(o.sections, i) + s.size);
    }
  }

  /** The data of every section that has any is in the file at the segment offset plus its address. */
  lemma SectionDataFound(o: Object, t: Strtab, file: seq<byte>, i: nat)
    requires Wrote(o, t, file) && i < |o.sections| && !o.sections[i].IsBss()
    ensures Sound(o) && OffsetField(o, i) == DataOffset(o) + Address(o.sections, i)
    ensures OffsetField(o, i) + o.sections[i].size <= |file|
    ensures file[OffsetField(o, i)..OffsetField(o, i) + o.sections[i].size] == o.sections[i].data
  {
    hide Wrote, DataPart, Address, DataEnd, Commands, RelocPart, NlistPart, StrtabOffset, SymtabOffset, RelocEnd,
         StringsFound, NlistsWritable, Writable, Image, OffsetField, RelocStart, DataOffset, HeadersWritable,
         RelocsWritable;
    SoundFile(o, t, file);
    FileParts(o, t, file);
    DataPartAt(o, |o.sections|, i);
    DataOffsets(o, i);
    var a := Address(o.sections, i);
    SliceOfSlice(file, DataOffset(o), RelocStart(o), a, a + o.sections[i].size);
  }

  lemma DataOffsets(o: Object, i: nat)
    requires Sound(o) && i < |o.sections| && !o.sections[i].IsBss()
    ensures RelocStart(o) == DataOffset(o) + DataEnd(o.sections, |o.sections|)
    ensures OffsetField(o, i) == DataOffset(o) + Address(o.sections, i)
  {
    hide DataOffset, DataEnd, Address;
  }

  lemma {:induction false} TrailingZerosOfPower(k: nat)
    ensures TrailingZeros(Bits.Pow2(k)) == k
  {
    if k > 0 {
      TrailingZerosOfPower(k - 1);
      assert Bits.Pow2(k) == 2 * Bits.Pow2(k - 1);
    }
  }

  lemma SectionFits(o: Object, t: Strtab, file: seq<byte>, i: nat)
    requires Wrote(o, t, file) && Fits(o, t) && i < |o.sections| && Sound(o) && o.AddressBytes() > 0
    ensures Address(o.sections, i) < Capacity(o.Word()) && o.sections[i].size < Capacity(o.Word())
    ensures RelocOffset(o.sections, i, RelocStart(o), o.AddressBytes()) <= U32_MAX
    ensures CountOf(o.sections[i].relocations) <= U32_MAX
  {
    hide Wrote, Address, DataEnd, BssEnd, Capacity, StrtabOffset, Align, RelocEnd, RelocOffset, CountOf, RelocStart,
         StringsFound, Writable, NlistsWritable, Image, Commands, DataPart, RelocPart, NlistPart, Fits,
         HeadersWritable, RelocsWritable, SymtabOffset, DataOffset, SegmentCommandSize, SymbolCount, CommandsSize;
    FitsAll(o, t, file);
    FileParts(o, t, file);
    SectionsInSegment(o.sections, i);
    RelocEndStep(o.sections, i + 1, RelocStart(o), o.AddressBytes());
    RelocEndGrows(o.sections, i + 1, |o.sections|, RelocStart(o), o.AddressBytes());
  }

  lemma AlignReadBack(o: Object, i: nat)
    requires Sound(o) && i < |o.sections|
    ensures TrailingZeros(o.sections[i].align) < 64
    ensures Bits.Pow2(TrailingZeros(o.sections[i].align)) == o.sections[i].align
  {
    hide TrailingZeros, Bits.Pow2;
    assert o.ValidSection(o.sections[i]);
    var k: nat :| k < 64 && o.sections[i].align == Bits.Pow2(k);
    TrailingZerosOfPower(k);
  }

  /**
   What the header of section `i` says is true of the section, and the data that it points to is
   the data of the section.
   */
  lemma SectionReadBack(o: Object, t: Strtab, file: seq<byte>, i: nat)
    requires Wrote(o, t, file) && Fits(o, t) && i < |o.sections|
    ensures Sound(o) && o.AddressBytes() > 0
    ensures var e, h, w, s := o.endian, SectionAt(o, i), o.Word(), o.sections[i];
      && Field(e, file, h + 32, w) == Address(o.sections, i)
      && Field(e, file, h + 32 + w, w) == s.size
      && Bits.Pow2(Field(e, file, h + 36 + 2 * w, 4)) == s.align
      && Field(e, file, h + 40 + 2 * w, 4) == RelocOffset(o.sections, i, RelocStart(o), o.AddressBytes())
      && Field(e, file, h + 44 + 2 * w, 4) == CountOf(s.relocations)
      && var offset := Field(e, file, h + 32 + 2 * w, 4);
        if s.IsBss() then offset == 0
        else
          && offset == DataOffset(o) + Address(o.sections, i)
          && offset + s.size <= |file| && file[offset..offset + s.size] == s.data
  {
    hide Wrote, Fits, Field, HasWord, Address, OffsetField, TrailingZeros, RelocOffset, CountOf, RelocStart, Capacity,
         SectionAt, SectionHeader, Bits.Pow2, FlagsOfSection, DataOffset, StrtabOffset, SymtabOffset;
    SectionHeaderFound(o, t, file, i);
    SectionWords(o, i);
    SectionFits(o, t, file, i);
    AlignReadBack(o, i);
    var e, h, w, s, header := o.endian, SectionAt(o, i), o.Word(), o.sections[i], SectionHeader(o, i);
    WordInPart(e, file, h, header, 32, w, Address(o.sections, i));
    FieldOf(e, file, h + 32, w, Address(o.sections, i));
    WordInPart(e, file, h, header, 32 + w, w, s.size);
    FieldOf(e, file, h + (32 + w), w, s.size);
    WordInPart(e, file, h, header, 36 + 2 * w, 4, TrailingZeros(s.align));
    Field32(e, file, h + (36 + 2 * w), TrailingZeros(s.align));
    WordInPart(e, file, h, header, 40 + 2 * w, 4, RelocOffset(o.sections, i, RelocStart(o), o.AddressBytes()));
    Field32(e, file, h + (40 + 2 * w), RelocOffset(o.sections, i, RelocStart(o), o.AddressBytes()));
    WordInPart(e, file, h, header, 44 + 2 * w, 4, CountOf(s.relocations));
    Field32(e, file, h + (44 + 2 * w), CountOf(s.relocations));
    WordInPart(e, file, h, header, 32 + 2 * w, 4, OffsetField(o, i));
    OffsetFits(o, t, file, i);
    Field32(e, file, h + (32 + 2 * w), OffsetField(o, i));
  }

  lemma OffsetFits(o: Object, t: Strtab, file: seq<byte>, i: nat)
    requires Wrote(o, t, file) && Fits(o, t) && i < |o.sections| && Sound(o)
    ensures OffsetField(o, i) <= U32_MAX
    ensures if o.sections[i].IsBss() then OffsetField(o, i) == 0
            else OffsetField(o, i) == DataOffset(o) + Address(o.sections, i) &&
                 OffsetField(o, i) + o.sections[i].size <= |file| &&
                 file[OffsetField(o, i)..OffsetField(o, i) + o.sections[i].size] == o.sections[i].data
  {
    hide Wrote, Fits, Address, DataOffset, Capacity, StrtabOffset, SymtabOffset, RelocStart, BssEnd;
    if !o.sections[i].IsBss() {
      FitsAll(o, t, file);
      SectionDataFound(o, t, file, i);
    }
  }

  // ---------------------------------------------------------------------------------------------
  // Relocations.

  lemma {:induction false} RelocPartAt(o: Object, n: nat, i: nat)
    requires Sound(o) && o.AddressBytes() > 0 && RelocsWritable(o, n) && i < n && o.sections[i].relocations != []
    ensures var start, block := RelocStart(o), EntriesBytes(o.endian, SectionEntries(o, i));
      var at := RelocOffset(o.sections, i, start, o.AddressBytes());
      && start <= at && at + |block| <= RelocEnd(o.sections, n, start, o.AddressBytes())
      && RelocPart(o, n)[at - start..at - start + |block|] == block
  {
    hide RelocPart, RelocEnd, RelocOffset, RelocStart, Sound, AllEncodable, SectionEntries, EntriesBytes, CountOf,
         Align;
    var start, a := RelocStart(o), o.AddressBytes();
    var block := EntriesBytes(o.endian, SectionEntries(o, i));
    var at, before := RelocOffset(o.sections, i, start, a), RelocEnd(o.sections, i, start, a);
    RelocPartStep(o, n - 1);
    RelocEndStep(o.sections, i + 1, start, a);
    RelocEndStep(o.sections, 0, start, a);
    RelocEndGrows(o.sections, 0, i, start, a);
    RelocEndGrows(o.sections, i + 1, n, start, a);
    if i == n - 1 {
      Regroup(RelocPart(o, i), Zeros(at - before), block);
    } else {
      RelocPartAt(o, n - 1, i);
      PrefixSlice(RelocPart(o, n), RelocPart(o, n - 1), at - start, at - start + |block|);
    }
  }

  lemma RelocBlockFound(o: Object, t: Strtab, file: seq<byte>, i: nat)
    requires Wrote(o, t, file) && i < |o.sections| && o.sections[i].relocations != []
    ensures Sound(o) && o.AddressBytes() > 0 && AllEncodable(o, o.sections[i].relocations)
    ensures var at := RelocOffset(o.sections, i, RelocStart(o), o.AddressBytes());
      var block := EntriesBytes(o.endian, SectionEntries(o, i));
      at + |block| <= |file| && file[at..at + |block|] == block
  {
    hide Wrote, RelocPart, RelocOffset, RelocStart, RelocEnd, SectionEntries, EntriesBytes, CountOf, Commands,
         DataPart, NlistPart, StrtabOffset, SymtabOffset, StringsFound, NlistsWritable, Writable, Image, DataOffset,
         Sound, AllEncodable, HeadersWritable;
    SoundFile(o, t, file);
    FileParts(o, t, file);
    RelocPartAt(o, |o.sections|, i);
    var start, block := RelocStart(o), EntriesBytes(o.endian, SectionEntries(o, i));
    var at := RelocOffset(o.sections, i, start, o.AddressBytes());
    SliceOfSlice(file, start, RelocEnd(o.sections, |o.sections|, start, o.AddressBytes()),
                 at - start, at - start + |block|);
  }

  /** Entry `m` of the block of section `i`. */
  lemma EntryFound(o: Object, t: Strtab, file: seq<byte>, i: nat, m: nat)
    requires Wrote(o, t, file) && i < |o.sections| && m < CountOf(o.sections[i].relocations)
    ensures Sound(o) && o.AddressBytes() > 0 && AllEncodable(o, o.sections[i].relocations)
    ensures var at := RelocOffset(o.sections, i, RelocStart(o), o.AddressBytes()) + RELOCATION_SIZE * m;
      at + RELOCATION_SIZE <= |file| &&
      file[at..at + RELOCATION_SIZE] == EntryBytes(o.endian, SectionEntries(o, i)[m])
  {
    hide Wrote, RelocOffset, RelocStart, SectionEntries, EntryBytes, Sound, AllEncodable;
    CountZero(o.sections[i].relocations);
    RelocBlockFound(o, t, file, i);
    var entries := SectionEntries(o, i);
    var block := EntriesBytes(o.endian, entries);
    var from, at := RelocOffset(o.sections, i, RelocStart(o), o.AddressBytes()), RELOCATION_SIZE * m;
    EntryBytesAt(o.endian, entries, m);
    SliceOfSlice(file, from, from + |block|, at, at + RELOCATION_SIZE);
  }

  function Word32(n: nat): bv32
  {
    if n <= U32_MAX then n as bv32 else 0
  }

  /** The two words of an entry, as a reader sees them. */
  function RawRelocation(e: Endian, s: seq<byte>, at: nat): RelocCodec.Relocation
  {
    RelocCodec.Relocation(Word32(Field(e, s, at, 4)), Word32(Field(e, s, at + 4, 4)))
  }

  lemma EntryWords(e: Endian, s: seq<byte>, at: nat, entry: Entry)
    requires at + RELOCATION_SIZE <= |s| && s[at..at + RELOCATION_SIZE] == EntryBytes(e, entry)
    requires entry.r_address <= U32_MAX
    ensures Field(e, s, at, 4) == entry.r_address
    ensures Field(e, s, at + 4, 4) == RelocCodec.PlainWord(Info(entry), e.Little?) as nat
  {
    hide Put, Field, RelocCodec.PlainWord, Info;
    var word := RelocCodec.PlainWord(Info(entry), e.Little?) as nat;
    var part := EntryBytes(e, entry);
    assert HasWord(e, part, 0, 4, entry.r_address);
    assert HasWord(e, part, 4, 4, word);
    WordInPart(e, s, at, part, 0, 4, entry.r_address);
    WordInPart(e, s, at, part, 4, 4, word);
    Field32(e, s, at, entry.r_address);
    Field32(e, s, at + 4, word);
  }

  lemma EntryRaw(e: Endian, s: seq<byte>, at: nat, entry: Entry)
    requires at + RELOCATION_SIZE <= |s| && s[at..at + RELOCATION_SIZE] == EntryBytes(e, entry)
    requires entry.r_address <= U32_MAX
    ensures RawRelocation(e, s, at) == RelocCodec.PlainEncode(Info(entry), e.Little?)
  {
    hide Field, RelocCodec.PlainWord, EntryBytes, Info;
    EntryWords(e, s, at, entry);
    RelocCodec.SameWord(RelocCodec.PlainWord(Info(entry), e.Little?));
    SameAddress(entry);
  }

  lemma SameAddress(entry: Entry)
    requires entry.r_address <= U32_MAX
    ensures Info(entry).r_address == Word32(entry.r_address)
  {
    assert entry.r_address % 0x1_0000_0000 == entry.r_address;
  }

  // ---------------------------------------------------------------------------------------------
  // Symbols.

  lemma {:induction false} NlistPartAt(o: Object, t: Strtab, order: seq<nat>, k: nat)
    requires Sound(o) && |t.strx| == |o.symbols| && NlistsWritable(o, order) && k < |order|
    ensures (k + 1) * NlistSize(o) <= |order| * NlistSize(o)
    ensures NlistPart(o, t, order)[k * NlistSize(o)..(k + 1) * NlistSize(o)] == NlistOf(o, t, order[k])
  {
    hide NlistOf, NlistWritable, Sound, NlistSize;
    var size, n, front := NlistSize(o), |order|, order[..|order| - 1];
    assert n * size == (n - 1) * size + size;
    if k < n - 1 {
      NlistPartAt(o, t, front, k);
      PrefixSlice(NlistPart(o, t, order), NlistPart(o, t, front), k * size, (k + 1) * size);
    }
  }

  /** Where entry `k` of the symbol table is. */
  function NlistAt(o: Object, k: nat): nat
    requires Sound(o) && o.AddressBytes() > 0
  {
    SymtabOffset(o) + TableSize(k, NlistSize(o))
  }

  lemma NlistFound(o: Object, t: Strtab, file: seq<byte>, k: nat)
    requires Wrote(o, t, file) && k < SymbolCount(o)
    ensures Sound(o) && o.AddressBytes() > 0 && |t.strx| == |o.symbols|
    ensures NlistsWritable(o, MachOSymbols.Order(o.symbols))
    ensures NlistAt(o, k) + NlistSize(o) <= |file|
    ensures file[NlistAt(o, k)..NlistAt(o, k) + NlistSize(o)] == NlistOf(o, t, MachOSymbols.Order(o.symbols)[k])
  {
    hide Wrote, NlistPart, NlistOf, NlistSize, NlistWritable, MachOSymbols.Order, SymtabOffset, Commands, DataPart,
         RelocPart, StringsFound, Writable, Image, DataOffset, RelocStart, RelocEnd, Sound, HeadersWritable,
         RelocsWritable;
    SoundFile(o, t, file);
    StringOfEach(o, t);
    FileParts(o, t, file);
    var order, size := MachOSymbols.Order(o.symbols), NlistSize(o);
    NlistPartAt(o, t, order, k);
    assert (k + 1) * size == k * size + size;
    SliceOfSlice(file, SymtabOffset(o), StrtabOffset(o), k * size, (k + 1) * size);
  }

  lemma NlistWords(o: Object, t: Strtab, i: nat)
    requires Sound(o) && i < |o.symbols| && |t.strx| == |o.symbols| && NlistWritable(o.symbols[i])
    ensures var s, n := o.symbols[i], NlistOf(o, t, i);
      && HasWord(o.endian, n, 0, 4, t.strx[i])
      && n[4] == NlistType(s).value.0
      && HasWord(o.endian, n, 5, 1, NlistType(s).value.1)
      && HasWord(o.endian, n, 6, 2, NlistDesc(s).value)
      && (s.section.InSection? ==> s.section.id < |o.sections|)
      && HasWord(o.endian, n, 8, o.Word(), NlistValue(o, s))
  {
    hide Put, NlistType, NlistDesc, NlistValue;
    var s := o.symbols[i];
    assert o.ValidSymbol(s);
    NlistLayout(Put(o.endian, t.strx[i], 4), NlistType(s).value.0, Put(o.endian, NlistType(s).value.1, 1),
                Put(o.endian, NlistDesc(s).value, 2), Put(o.endian, NlistValue(o, s), o.Word()));
  }

  lemma NlistLayout(a: seq<byte>, b: byte, c: seq<byte>, d: seq<byte>, e: seq<byte>)
    requires |a| == 4 && |c| == 1 && |d| == 2
    ensures var s := a + ([b] + (c + (d + e)));
      s[0..4] == a && s[4] == b && s[5..6] == c && s[6..8] == d && s[8..8 + |e|] == e
  {
  }

  /** The symbol table command points at the symbol table and the string table. */
  lemma SymtabReadBack(o: Object, t: Strtab, file: seq<byte>)
    requires Wrote(o, t, file) && Fits(o, t)
    ensures Sound(o) && o.AddressBytes() > 0
    ensures var e, at := o.endian, SymtabAt(o);
      && Field(e, file, at + 8, 4) == SymtabOffset(o) && Field(e, file, at + 12, 4) == SymbolCount(o)
      && Field(e, file, at + 16, 4) == StrtabOffset(o) && Field(e, file, at + 20, 4) == |t.data|
  {
    hide Wrote, Fits, Field, HasWord, SegmentPart, SectionHeaders, BuildPart, HeaderPart, SymtabPart, DysymtabPart,
         CpuType, HeadersWritable, SymtabOffset, StrtabOffset, SymbolCount, Sound, SymtabAt, Capacity, BssEnd;
    SoundFile(o, t, file);
    CommandParts(o, t, file);
    FitsAll(o, t, file);
    FileParts(o, t, file);
    SymtabWords(o, t);
    var e, at, part := o.endian, SymtabAt(o), SymtabPart(o, t);
    PartField(e, file, at, part, 8, SymtabOffset(o));
    PartField(e, file, at, part, 12, SymbolCount(o));
    PartField(e, file, at, part, 16, StrtabOffset(o));
    PartField(e, file, at, part, 20, |t.data|);
  }

  /** A string of the table is in the file at the table's offset plus its own. */
  lemma NameFound(o: Object, t: Strtab, file: seq<byte>, i: nat)
    requires Wrote(o, t, file) && i < |o.symbols| && o.symbols[i].IsEmitted()
    ensures Sound(o) && o.AddressBytes() > 0 && |t.strx| == |o.symbols| && t.strx[i] < |t.data|
    ensures StringTable.HasString(file, StrtabOffset(o) + t.strx[i], o.symbols[i].name)
  {
    hide Wrote, Commands, DataPart, RelocPart, NlistPart, Writable, NlistsWritable, Image, DataOffset, RelocStart,
         RelocEnd, SymtabOffset, Sound, HeadersWritable, RelocsWritable, StrtabOffset;
    SoundFile(o, t, file);
    FileParts(o, t, file);
    StringIn(file, StrtabOffset(o), t.data, t.strx[i], o.symbols[i].name);
  }

  lemma StringIn(file: seq<byte>, from: nat, data: seq<byte>, offset: nat, s: seq<byte>)
    requires from + |data| == |file| && file[from..|file|] == data && StringTable.HasString(data, offset, s)
    ensures StringTable.HasString(file, from + offset, s)
  {
    SliceOfSlice(file, from, |file|, offset, offset + |s|);
    assert file[from + (offset + |s|)] == data[offset + |s|];
  }

  /** Entry `i` of the symbol table, at a known place. */
  lemma NlistFields(o: Object, t: Strtab, file: seq<byte>, at: nat, i: nat)
    requires Sound(o) && i < |o.symbols| && |t.strx| == |o.symbols| && NlistWritable(o.symbols[i])
    requires at + NlistSize(o) <= |file| && file[at..at + NlistSize(o)] == NlistOf(o, t, i)
    requires t.strx[i] <= U32_MAX
    ensures Field(o.endian, file, at, 4) == t.strx[i]
    ensures EntryOf(o, file, at, o.symbols[i])
  {
    hide Field, HasWord, NlistOf, NlistType, NlistDesc, NlistValue, Capacity;
    var e, part, s := o.endian, NlistOf(o, t, i), o.symbols[i];
    NlistWords(o, t, i);
    CapacityValues();
    WordInPart(e, file, at, part, 0, 4, t.strx[i]);
    Field32(e, file, at, t.strx[i]);
    assert file[at + 4] == part[4];
    WordInPart(e, file, at, part, 5, 1, NlistType(s).value.1);
    WordInPart(e, file, at, part, 6, 2, NlistDesc(s).value);
    WordInPart(e, file, at, part, 8, o.Word(), NlistValue(o, s));
    FieldModulo(e, file, at + 5, 1, NlistType(s).value.1);
    FieldModulo(e, file, at + 6, 2, NlistDesc(s).value);
    FieldModulo(e, file, at + 8, o.Word(), NlistValue(o, s));
  }

  /** The type, section ordinal, description and value of a symbol table entry, cut to their fields. */
  ghost predicate EntryOf(o: Object, file: seq<byte>, at: nat, s: Symbol)
    requires Sound(o)
  {
    var e := o.endian;
    && at + NlistSize(o) <= |file| && NlistType(s).Some? && NlistDesc(s).Some?
    && file[at + 4] == NlistType(s).value.0
    && Field(e, file, at + 5, 1) == NlistType(s).value.1 % 0x100
    && Field(e, file, at + 6, 2) == NlistDesc(s).value % 0x1_0000
    && (s.section.InSection? ==> s.section.id < |o.sections|)
    && Field(e, file, at + 8, o.Word()) == NlistValue(o, s) % Capacity(o.Word())
  }

  lemma NumberedSymbol(o: Object, t: Strtab, file: seq<byte>, k: nat)
    requires Wrote(o, t, file) && k < SymbolCount(o)
    ensures var i := MachOSymbols.Order(o.symbols)[k];
      && i < |o.symbols| && o.symbols[i].IsEmitted() && NlistWritable(o.symbols[i])
  {
    hide Wrote, MachOSymbols.Order, NlistWritable, Sound, StringsFound;
    SoundFile(o, t, file);
    MachOSymbols.OrderIsPermutation(o.symbols);
    assert MachOSymbols.Order(o.symbols)[k] in MachOSymbols.Order(o.symbols);
  }

  /**
   Entry `k` of the symbol table is that of the symbol numbered `k`: from the symbol table command
   alone, a reader finds its name, its type and its value.
   */
  lemma SymbolReadBack(o: Object, t: Strtab, file: seq<byte>, k: nat)
    requires Wrote(o, t, file) && Fits(o, t) && k < SymbolCount(o)
    ensures Sound(o) && MachOSymbols.Order(o.symbols)[k] < |o.symbols|
    ensures var e, c, s := o.endian, SymtabAt(o), o.symbols[MachOSymbols.Order(o.symbols)[k]];
      var at, names := Field(e, file, c + 8, 4) + TableSize(k, NlistSize(o)), Field(e, file, c + 16, 4);
      && Field(e, file, c + 12, 4) == |MachOSymbols.Order(o.symbols)|
      && StringTable.HasString(file, names + Field(e, file, at, 4), s.name)
      && EntryOf(o, file, at, s)
  {
    hide *;
    SoundFile(o, t, file);
    NlistPlace(o, k);
    NumberedSymbol(o, t, file, k);
    var i := MachOSymbols.Order(o.symbols)[k];
    NlistFound(o, t, file, k);
    NameFound(o, t, file, i);
    FileLength(o, t, file);
    NlistFields(o, t, file, NlistAt(o, k), i);
    SymtabReadBack(o, t, file);
  }

  lemma NlistPlace(o: Object, k: nat)
    requires Sound(o) && o.AddressBytes() > 0
    ensures NlistAt(o, k) == SymtabOffset(o) + TableSize(k, NlistSize(o))
    ensures SymbolCount(o) == |MachOSymbols.Order(o.symbols)|
  {
    hide SymtabOffset, NlistSize, MachOSymbols.Order;
  }

  lemma FieldModulo(e: Endian, s: seq<byte>, at: nat, w: nat, v: nat)
    requires HasWord(e, s, at, w, v)
    ensures Field(e, s, at, w) == v % Capacity(w)
  {
    hide Capacity, Put, Get;
    GetPut(e, v, w);
  }

  lemma FileLength(o: Object, t: Strtab, file: seq<byte>)
    requires Wrote(o, t, file) && Fits(o, t)
    ensures |t.data| <= |file| <= U32_MAX
  {
    hide Wrote, Capacity, BssEnd, SymtabOffset, RelocStart, RelocEnd, DataOffset, Commands, DataPart, RelocPart,
         NlistPart, HeadersWritable, RelocsWritable;
    SoundFile(o, t, file);
    FileParts(o, t, file);
  }

  /** The three ranges of the dynamic symbol table command. */
  datatype Ranges = Ranges(ilocal: nat, nlocal: nat, iextdef: nat, nextdef: nat, iundef: nat, nundef: nat)
  {
    /** The ranges follow one another from zero, and cover `n` entries. */
    predicate Partition(n: nat)
    {
      ilocal == 0 && iextdef == ilocal + nlocal && iundef == iextdef + nextdef && n == iundef + nundef
    }

    predicate Contains(c: MachOSymbols.Class, k: nat)
    {
      match c
      case Local => ilocal <= k < ilocal + nlocal
      case External => iextdef <= k < iextdef + nextdef
      case UndefinedClass => iundef <= k < iundef + nundef
      case NotEmitted => false
    }
  }

  function RangesAt(e: Endian, s: seq<byte>, at: nat): Ranges
  {
    Ranges(Field(e, s, at + 8, 4), Field(e, s, at + 12, 4), Field(e, s, at + 16, 4), Field(e, s, at + 20, 4),
           Field(e, s, at + 24, 4), Field(e, s, at + 28, 4))
  }

  /** The ranges of the file partition the symbol table, and entry `k` is in the range of its symbol's class only. */
  lemma DysymtabReadBack(o: Object, t: Strtab, file: seq<byte>, k: nat, c: MachOSymbols.Class)
    requires Wrote(o, t, file) && Fits(o, t) && k < SymbolCount(o)
    ensures MachOSymbols.Order(o.symbols)[k] < |o.symbols|
    ensures RangesAt(o.endian, file, DysymtabAt(o)).Partition(Field(o.endian, file, SymtabAt(o) + 12, 4))
    ensures RangesAt(o.endian, file, DysymtabAt(o)).Contains(c, k) <==>
            MachOSymbols.ClassOf(o.symbols[MachOSymbols.Order(o.symbols)[k]]) == c
  {
    hide Wrote, Fits, Field, MachOSymbols.Locals, MachOSymbols.Externals, MachOSymbols.Undefineds, MachOSymbols.ClassOf,
         MachOSymbols.Order, SymtabAt, DysymtabAt, Sound, SymtabOffset, StrtabOffset;
    DysymtabFields(o, t, file);
    SymtabReadBack(o, t, file);
    MachOSymbols.ClassOfNumber(o.symbols, k);
  }

  lemma DysymtabFields(o: Object, t: Strtab, file: seq<byte>)
    requires Wrote(o, t, file) && Fits(o, t)
    ensures var e, d := o.endian, DysymtabAt(o);
      var l, x, u := |MachOSymbols.Locals(o.symbols)|, |MachOSymbols.Externals(o.symbols)|,
                     |MachOSymbols.Undefineds(o.symbols)|;
      && Field(e, file, d + 8, 4) == 0 && Field(e, file, d + 12, 4) == l
      && Field(e, file, d + 16, 4) == l && Field(e, file, d + 20, 4) == x
      && Field(e, file, d + 24, 4) == l + x && Field(e, file, d + 28, 4) == u
  {
    hide Wrote, Fits, Field, HasWord, SegmentPart, SectionHeaders, BuildPart, HeaderPart, SymtabPart, DysymtabPart,
         CpuType, HeadersWritable, SymtabOffset, StrtabOffset, Sound, DysymtabAt, Capacity, BssEnd,
         MachOSymbols.Locals, MachOSymbols.Externals, MachOSymbols.Undefineds, RelocStart, DataOffset;
    CommandParts(o, t, file);
    FitsAll(o, t, file);
    DysymtabWords(o);
    var e, at, part := o.endian, DysymtabAt(o), DysymtabPart(o);
    var l, x := |MachOSymbols.Locals(o.symbols)|, |MachOSymbols.Externals(o.symbols)|;
    var u := |MachOSymbols.Undefineds(o.symbols)|;
    PartField(e, file, at, part, 8, 0);
    PartField(e, file, at, part, 12, l);
    PartField(e, file, at, part, 16, l);
    PartField(e, file, at, part, 20, x);
    PartField(e, file, at, part, 24, l + x);
    PartField(e, file, at, part, 28, u);
  }

  // ---------------------------------------------------------------------------------------------
  // From a relocation to the name of its symbol.

  /** The relocation that is emitted at position `k` of section `i`. */
  function EmittedAt(o: Object, i: nat, k: nat): Relocation
    requires i < |o.sections| && k < |o.sections[i].relocations|
  {
    Emitted(o.sections[i].relocations)[k]
  }

  /** The position of its first entry in the block of the section. */
  function FirstEntry(o: Object, i: nat, k: nat): nat
    requires i < |o.sections| && k < |o.sections[i].relocations|
  {
    CountOf(Emitted(o.sections[i].relocations)[..k])
  }

  lemma EntriesInBlock(o: Object, i: nat, k: nat)
    requires i < |o.sections| && k < |o.sections[i].relocations| && AllEncodable(o, o.sections[i].relocations)
    ensures Encodable(o, EmittedAt(o, i, k)) && EmittedAt(o, i, k).symbol < |o.symbols|
    ensures var r, m, entries := EmittedAt(o, i, k), FirstEntry(o, i, k), SectionEntries(o, i);
      if r.addend == 0 then m < |entries| && entries[m] == MainEntry(o, r)
      else m + 1 < |entries| && entries[m] == AddendEntry(o, r) && entries[m + 1] == MainEntry(o, r)
  {
    hide MainEntry, AddendEntry, CountOf, Entries, Emitted;
    var rs := o.sections[i].relocations;
    EmittedEncodable(o, rs);
    SectionEntriesOf(o, i);
    EntriesAt(o, Emitted(rs), k);
    var r, m, entries := Emitted(rs)[k], CountOf(Emitted(rs)[..k]), SectionEntries(o, i);
    var found := entries[m..m + |EntriesOf(o, r)|];
    assert found[0] == entries[m];
    if r.addend != 0 {
      assert found[1] == entries[m + 1];
    }
  }

  /** Where a reader finds entry `m` of section `i`, going by the header of the section. */
  function EntryPlace(o: Object, file: seq<byte>, i: nat, m: nat): nat
  {
    Field(o.endian, file, SectionAt(o, i) + 40 + 2 * o.Word(), 4) + RELOCATION_SIZE * m
  }

  lemma EntryReadBack(o: Object, t: Strtab, file: seq<byte>, i: nat, m: nat)
    requires Wrote(o, t, file) && Fits(o, t) && i < |o.sections| && m < CountOf(o.sections[i].relocations)
    requires AllEncodable(o, o.sections[i].relocations) && SectionEntries(o, i)[m].r_address <= U32_MAX
    ensures Field(o.endian, file, EntryPlace(o, file, i, m), 4) == SectionEntries(o, i)[m].r_address
    ensures RawRelocation(o.endian, file, EntryPlace(o, file, i, m))
            == RelocCodec.PlainEncode(Info(SectionEntries(o, i)[m]), o.endian.Little?)
  {
    hide Wrote, Fits, Field, RawRelocation, SectionEntries, EntryBytes, RelocOffset, RelocStart, Address, SectionAt,
         Sound, CountOf, Info, RelocCodec.PlainEncode, AllEncodable;
    SectionReadBack(o, t, file, i);
    EntryFound(o, t, file, i, m);
    EntryWords(o.endian, file, EntryPlace(o, file, i, m), SectionEntries(o, i)[m]);
    EntryRaw(o.endian, file, EntryPlace(o, file, i, m), SectionEntries(o, i)[m]);
  }

  /** A little-endian entry decodes to itself, up to the low 24 bits of its number. */
  lemma EntryDecodes(entry: Entry)
    requires entry.r_length < 4 && entry.r_type < 16
    ensures var d := RelocCodec.PlainDecode(RelocCodec.PlainEncode(Info(entry), true), true);
      && d == Info(entry).(r_symbolnum := d.r_symbolnum)
      && d.r_symbolnum as nat == entry.r_symbolnum % 0x100_0000
      && (0 <= entry.r_symbolnum < 0x100_0000 ==> d == Info(entry))
  {
    hide RelocCodec.PlainEncode, RelocCodec.PlainDecode;
    var n := entry.r_symbolnum % 0x1_0000_0000;
    SmallFields(0, entry.r_length, entry.r_type);
    RelocCodec.PlainLittleMasked(Info(entry));
    RelocCodec.LowBits(n);
    NestedModulo(entry.r_symbolnum);
    if 0 <= entry.r_symbolnum < 0x100_0000 {
      SmallFields(n, entry.r_length, entry.r_type);
      RelocCodec.PlainLittleRoundTrip(Info(entry));
    }
  }

  lemma NestedModulo(x: int)
    ensures x % 0x1_0000_0000 % 0x100_0000 == x % 0x100_0000
    ensures 0 <= x < 0x100_0000 ==> x % 0x1_0000_0000 == x
  {
    var q, r := x / 0x1_0000_0000, x % 0x1_0000_0000;
    var a, b := r / 0x100_0000, r % 0x100_0000;
    assert x == 0x100_0000 * (0x100 * q + a) + b;
    Bits.DivModUnique(x, 0x100_0000, 0x100 * q + a, b);
  }

  lemma SmallFields(n: nat, length: byte, typ: byte)
    requires n < 0x100_0000 && length < 4 && typ < 16
    ensures (n as bv32) < 0x100_0000 && (n as bv32) as nat == n && (length as bv8) < 4 && (typ as bv8) < 16
  {
    RelocCodec.NumberOfWord(n);
  }

  /** The CPU type in the header of a file, by which its reader tells scattered relocations. */
  function HeaderCpu(e: Endian, file: seq<byte>): bv32
  {
    Word32(Field(e, file, 4, 4))
  }

  const CPU_TYPE_ARM: bv32 := 12
  const CPU_TYPE_X86: bv32 := 7
  const CPU_TYPE_ARM64: bv32 := 0x0100_000c
  const CPU_TYPE_ARM64_32: bv32 := 0x0200_000c

  lemma CpuReadBack(o: Object, t: Strtab, file: seq<byte>)
    requires Wrote(o, t, file)
    ensures var cpu := HeaderCpu(o.endian, file);
      && (cpu == RelocCodec.CPU_TYPE_X86_64 <==> o.arch.X86_64?) && (cpu == CPU_TYPE_X86 <==> o.arch.I386?)
      && (cpu == CPU_TYPE_ARM <==> o.arch.Arm?)
      && (cpu == CPU_TYPE_ARM64 <==> o.arch.Aarch64?) && (cpu == CPU_TYPE_ARM64_32 <==> o.arch.Aarch64_Ilp32?)
  {
    hide Wrote, Field, CpuType, CommandsSize, FileFlags, CommandCount;
    HeaderField(o, t, file, 0);
    CpuWords(o);
  }

  lemma CpuWords(o: Object)
    requires CpuType(o.arch, o.sub).Some?
    ensures CpuType(o.arch, o.sub).value.0 <= U32_MAX
    ensures var cpu := Word32(CpuType(o.arch, o.sub).value.0);
      && (cpu == RelocCodec.CPU_TYPE_X86_64 <==> o.arch.X86_64?) && (cpu == CPU_TYPE_X86 <==> o.arch.I386?)
      && (cpu == CPU_TYPE_ARM <==> o.arch.Arm?)
      && (cpu == CPU_TYPE_ARM64 <==> o.arch.Aarch64?) && (cpu == CPU_TYPE_ARM64_32 <==> o.arch.Aarch64_Ilp32?)
  {
    hide Word32;
    CpuValues();
  }

  /** The CPU types as words. */
  lemma CpuValues()
    ensures Word32(12) == CPU_TYPE_ARM && Word32(7) == CPU_TYPE_X86 && Word32(18) == 18
    ensures Word32(0x100_000c) == CPU_TYPE_ARM64 && Word32(0x200_000c) == CPU_TYPE_ARM64_32
    ensures Word32(0x100_0007) == RelocCodec.CPU_TYPE_X86_64 && Word32(0x100_0012) == 0x0100_0012
  {
    RelocCodec.WordIs(12, CPU_TYPE_ARM);
    RelocCodec.WordIs(7, CPU_TYPE_X86);
    RelocCodec.WordIs(18, 18);
    RelocCodec.WordIs(0x100_000c, CPU_TYPE_ARM64);
    RelocCodec.WordIs(0x200_000c, CPU_TYPE_ARM64_32);
    RelocCodec.WordIs(0x100_0007, RelocCodec.CPU_TYPE_X86_64);
    RelocCodec.WordIs(0x100_0012, 0x0100_0012);
  }

  /** A reader takes an entry for a scattered one exactly from address 2^31, except on x86-64. */
  lemma EntryScattered(entry: Entry, little: bool, cpu: bv32)
    requires entry.r_address <= U32_MAX
    ensures RelocCodec.IsScattered(RelocCodec.PlainEncode(Info(entry), little), cpu) <==>
            cpu != RelocCodec.CPU_TYPE_X86_64 && entry.r_address >= 0x8000_0000
  {
    hide RelocCodec.PlainEncode, RelocCodec.IsScattered, Info, Word32;
    RelocCodec.PlainScattered(Info(entry), little, cpu);
    SameAddress(entry);
    HighWord(entry.r_address);
  }

  lemma HighWord(n: nat)
    requires n <= U32_MAX
    ensures Word32(n) >= RelocCodec.R_SCATTERED <==> n >= 0x8000_0000
  {
    RelocCodec.NumberOfWord(n);
    RelocCodec.HighWord(n as bv32);
  }

  /** What an entry refers to: a symbol by name, a section by ordinal, or symbol zero if the symbol has no entry. */
  ghost predicate LeadsTo(o: Object, file: seq<byte>, info: RelocCodec.RelocationInfo, s: Symbol)
  {
    if s.IsEmitted() then info.r_extern && NamedBy(o, file, info.r_symbolnum as nat, s.name)
    else if s.kind.SectionSymbol? then
      !info.r_extern && s.section.InSection? && info.r_symbolnum as nat == s.section.id + 1
    else info.r_extern && info.r_symbolnum as nat == 0
  }

  /** The fields of a relocation fit its entry, and so do all symbol and section numbers. */
  predicate Representable(o: Object, r: Relocation)
  {
    && r.offset <= U32_MAX && r.flags.MachORelocation? && r.flags.r_length < 4 && r.flags.r_type < 16
    && |MachOSymbols.Order(o.symbols)| <= 0x100_0000 && |o.sections| < 0x100_0000
  }

  /**
   A relocation in a little-endian file: the entry found through the section header has its address
   and flags, and leads to its symbol. The entry is passed over as a scattered one exactly from
   address 2^31, except on x86-64.
   */
  lemma RelocationReadBack(o: Object, t: Strtab, file: seq<byte>, i: nat, k: nat)
    requires Wrote(o, t, file) && Fits(o, t) && o.endian.Little?
    requires i < |o.sections| && k < |o.sections[i].relocations| && AllEncodable(o, o.sections[i].relocations)
    requires EmittedAt(o, i, k).symbol < |o.symbols| && Representable(o, EmittedAt(o, i, k))
    ensures var e, r, m := o.endian, EmittedAt(o, i, k), FirstEntry(o, i, k);
      var raw := RawRelocation(e, file, EntryPlace(o, file, i, if r.addend == 0 then m else m + 1));
      var info := RelocCodec.PlainDecode(raw, true);
      && info.r_address as nat == r.offset && info.r_pcrel == r.flags.r_pcrel
      && info.r_length as int == r.flags.r_length && info.r_type as int == r.flags.r_type
      && LeadsTo(o, file, info, o.symbols[r.symbol])
      && (RelocCodec.IsScattered(raw, HeaderCpu(e, file)) <==> !o.arch.X86_64? && r.offset >= 0x8000_0000)
  {
    hide Wrote, Fits, RawRelocation, SectionEntries, EmittedAt, FirstEntry, EntryPlace, MainEntry, Info, LeadsTo,
         RelocCodec.PlainDecode, RelocCodec.PlainEncode, RelocCodec.IsScattered, AllEncodable, CountOf,
         MachOSymbols.Order, HeaderCpu;
    var r, m := EmittedAt(o, i, k), FirstEntry(o, i, k);
    EntriesInBlock(o, i, k);
    MainFields(o, r);
    MainNumber(o, t, file, r);
    EntryReadBack(o, t, file, i, if r.addend == 0 then m else m + 1);
    EntryDecodes(MainEntry(o, r));
    InfoFields(MainEntry(o, r));
    CpuReadBack(o, t, file);
    EntryScattered(MainEntry(o, r), true, HeaderCpu(o.endian, file));
    MainLeads(o, t, file, r);
  }

  /** The numbers of a packed entry. */
  lemma InfoFields(entry: Entry)
    requires entry.r_address <= U32_MAX && entry.r_length < 4 && entry.r_type < 16
    ensures var info := Info(entry);
      && info.r_address as nat == entry.r_address && info.r_pcrel == entry.r_pcrel && info.r_extern == entry.r_extern
      && info.r_length as int == entry.r_length && info.r_type as int == entry.r_type
  {
    RelocCodec.NumberOfWord(entry.r_address);
    assert entry.r_address % 0x1_0000_0000 == entry.r_address;
  }

  /** The number in the entry of a relocation fits its field. */
  lemma MainNumber(o: Object, t: Strtab, file: seq<byte>, r: Relocation)
    requires Wrote(o, t, file) && Encodable(o, r) && r.symbol < |o.symbols| && Representable(o, r)
    ensures 0 <= MainEntry(o, r).r_symbolnum < 0x100_0000
  {
    hide Wrote, MachOSymbols.Order, MachOSymbols.NumberOf, Image;
    SoundFile(o, t, file);
    SectionOfSymbol(o, r.symbol);
    MachOSymbols.NumberOfMeaning(MachOSymbols.Order(o.symbols), r.symbol);
    MachOSymbols.OrderIsPermutation(o.symbols);
  }

  /** The decoded entry of a relocation leads to its symbol. */
  lemma MainLeads(o: Object, t: Strtab, file: seq<byte>, r: Relocation)
    requires Wrote(o, t, file) && Fits(o, t) && Encodable(o, r) && r.symbol < |o.symbols| && Representable(o, r)
    ensures LeadsTo(o, file, Info(MainEntry(o, r)), o.symbols[r.symbol])
  {
    hide Wrote, Fits, NamedBy, MachOSymbols.Order, MachOSymbols.NumberOf, Info;
    var s, entry := o.symbols[r.symbol], MainEntry(o, r);
    SoundFile(o, t, file);
    SectionSymbolIn(o, r.symbol);
    MainNumber(o, t, file, r);
    NumberOfInfo(entry);
    if s.IsEmitted() {
      EntryNamesSymbol(o, r);
      NamedByNumber(o, t, file, entry.r_symbolnum);
    } else {
      MachOSymbols.OrderIsPermutation(o.symbols);
      MachOSymbols.NumberOfMeaning(MachOSymbols.Order(o.symbols), r.symbol);
    }
  }

  lemma NumberOfInfo(entry: Entry)
    requires 0 <= entry.r_symbolnum < 0x100_0000
    ensures Info(entry).r_symbolnum as nat == entry.r_symbolnum && Info(entry).r_extern == entry.r_extern
  {
    assert entry.r_symbolnum % 0x1_0000_0000 == entry.r_symbolnum;
    RelocCodec.NumberOfWord(entry.r_symbolnum);
  }

  lemma SectionSymbolIn(o: Object, i: nat)
    requires Sound(o) && i < |o.symbols|
    ensures o.symbols[i].kind.SectionSymbol? ==> o.symbols[i].section.InSection?
  {
    assert o.ValidSymbol(o.symbols[i]);
  }

  /**
   An explicit addend is in the entry just before its relocation, at the same address. A reader gets
   it back exactly when it is in the signed range of the 24-bit field.
   */
  lemma AddendReadBack(o: Object, t: Strtab, file: seq<byte>, i: nat, k: nat)
    requires Wrote(o, t, file) && Fits(o, t) && o.endian.Little?
    requires i < |o.sections| && k < |o.sections[i].relocations| && AllEncodable(o, o.sections[i].relocations)
    requires EmittedAt(o, i, k).symbol < |o.symbols| && Representable(o, EmittedAt(o, i, k))
    requires EmittedAt(o, i, k).addend != 0
    ensures var e, r := o.endian, EmittedAt(o, i, k);
      var raw := RawRelocation(e, file, EntryPlace(o, file, i, FirstEntry(o, i, k)));
      var info := RelocCodec.PlainDecode(raw, true);
      && info.r_address as nat == r.offset && info.r_type as int == ARM64_RELOC_ADDEND
      && !info.r_pcrel && !info.r_extern && info.r_length as int == r.flags.r_length
      && (RelocCodec.SignExtend24(info.r_symbolnum as nat) == r.addend <==> -0x80_0000 <= r.addend < 0x80_0000)
      && (RelocCodec.IsScattered(raw, HeaderCpu(e, file)) <==> r.offset >= 0x8000_0000)
  {
    hide Wrote, Fits, RawRelocation, SectionEntries, EmittedAt, FirstEntry, EntryPlace, Info, RelocCodec.PlainDecode,
         RelocCodec.PlainEncode, RelocCodec.IsScattered, AllEncodable, CountOf, MachOSymbols.Order, HeaderCpu,
         RelocCodec.SignExtend24, MainEntry;
    var r, m := EmittedAt(o, i, k), FirstEntry(o, i, k);
    EntriesInBlock(o, i, k);
    EntryReadBack(o, t, file, i, m);
    EntryDecodes(AddendEntry(o, r));
    InfoFields(AddendEntry(o, r));
    RelocCodec.AddendSurvives(r.addend);
    SignOfModulo(r.addend);
    CpuReadBack(o, t, file);
    EntryScattered(AddendEntry(o, r), true, HeaderCpu(o.endian, file));
  }

  lemma SignOfModulo(x: int)
    ensures RelocCodec.SignExtend24(x % 0x100_0000) == RelocCodec.SignExtend24(x % 0x1_0000_0000)
  {
    NestedModulo(x);
  }

  /** In a big-endian file the entry decodes to itself exactly when its symbol number is zero. */
  lemma BigEndianReadBack(o: Object, t: Strtab, file: seq<byte>, i: nat, m: nat)
    requires Wrote(o, t, file) && Fits(o, t) && o.endian.Big?
    requires i < |o.sections| && m < CountOf(o.sections[i].relocations) && AllEncodable(o, o.sections[i].relocations)
    requires var entry := SectionEntries(o, i)[m];
      && entry.r_address <= U32_MAX && 0 <= entry.r_symbolnum < 0x100_0000
      && entry.r_length < 4 && entry.r_type < 16
    ensures var entry := SectionEntries(o, i)[m];
      RelocCodec.PlainDecode(RawRelocation(Big, file, EntryPlace(o, file, i, m)), false) == Info(entry) <==>
      entry.r_symbolnum == 0
  {
    hide Wrote, Fits, RawRelocation, SectionEntries, EntryPlace, RelocCodec.PlainDecode, RelocCodec.PlainEncode,
         AllEncodable, CountOf;
    var entry := SectionEntries(o, i)[m];
    EntryReadBack(o, t, file, i, m);
    SmallFields(entry.r_symbolnum, entry.r_length, entry.r_type);
    assert entry.r_symbolnum % 0x1_0000_0000 == entry.r_symbolnum;
    RelocCodec.PlainBigRoundTrip(Info(entry));
  }

  /** Relocations that were added in order of address are found in descending order. */
  lemma AddressesReadBack(o: Object, t: Strtab, file: seq<byte>, i: nat, m: nat, n: nat)
    requires Wrote(o, t, file) && Fits(o, t) && i < |o.sections| && m <= n < CountOf(o.sections[i].relocations)
    requires Ascending(o.sections[i].relocations) || Descending(o.sections[i].relocations)
    requires AllEncodable(o, o.sections[i].relocations)
    requires SectionEntries(o, i)[m].r_address <= U32_MAX
    ensures Field(o.endian, file, EntryPlace(o, file, i, m), 4) >= Field(o.endian, file, EntryPlace(o, file, i, n), 4)
  {
    hide Wrote, Fits, Field, RawRelocation, EntryPlace, SectionEntries, RelocCodec.PlainEncode, AllEncodable, CountOf,
         Ascending, Descending, Entries, Emitted, Info;
    var rs := o.sections[i].relocations;
    EmittedEncodable(o, rs);
    SectionEntriesOf(o, i);
    AddressesDescend(o, rs, m, n);
    EntryReadBack(o, t, file, i, m);
    EntryReadBack(o, t, file, i, n);
  }

  lemma MainFields(o: Object, r: Relocation)
    requires Encodable(o, r) && r.symbol < |o.symbols|
    ensures var e := MainEntry(o, r);
      && e.r_address == r.offset && e.r_pcrel == r.flags.r_pcrel
      && e.r_length == r.flags.r_length && e.r_type == r.flags.r_type
    ensures Info(MainEntry(o, r)).r_extern == MainEntry(o, r).r_extern
  {
    hide MachOSymbols.NumberOf, MachOSymbols.Order;
  }

  /** Whether entry `n` of the symbol table of the file has a name. */
  ghost predicate NamedBy(o: Object, file: seq<byte>, n: nat, name: seq<byte>)
  {
    var e, c := o.endian, SymtabAt(o);
    var at, names := Field(e, file, c + 8, 4) + TableSize(n, NlistSize(o)), Field(e, file, c + 16, 4);
    n < Field(e, file, c + 12, 4) && StringTable.HasString(file, names + Field(e, file, at, 4), name)
  }

  lemma NamedByNumber(o: Object, t: Strtab, file: seq<byte>, n: nat)
    requires Wrote(o, t, file) && Fits(o, t) && n < |MachOSymbols.Order(o.symbols)|
    ensures var i := MachOSymbols.Order(o.symbols)[n];
      i < |o.symbols| && NamedBy(o, file, n, o.symbols[i].name)
  {
    hide Wrote, Fits, Field, MachOSymbols.Order, StringTable.HasString, EntryOf, SymtabAt, NlistSize, TableSize, Sound;
    SymbolReadBack(o, t, file, n);
  }

  // ---------------------------------------------------------------------------------------------
  // The segment, and the names in section headers.

  /** The one segment: it starts at address zero, and its file part is the section data. */
  lemma SegmentReadBack(o: Object, t: Strtab, file: seq<byte>)
    requires Wrote(o, t, file) && Fits(o, t)
    ensures Sound(o) && o.AddressBytes() > 0
    ensures var e, at, w := o.endian, HeaderSize(o) + 24, o.Word();
      && Field(e, file, at, w) == 0
      && Field(e, file, at + w, w) == BssEnd(o.sections, |o.sections|)
      && Field(e, file, at + 2 * w, w) == DataOffset(o)
      && Field(e, file, at + 3 * w, w) == DataEnd(o.sections, |o.sections|)
      && Field(e, file, at + 4 * w, 4) == 7 && Field(e, file, at + 4 * w + 4, 4) == 7
      && Field(e, file, at + 4 * w + 8, 4) == |o.sections|
  {
    hide Wrote, Fits, Field, HasWord, SegmentPart, SectionHeaders, BuildPart, HeaderPart, SymtabPart, DysymtabPart,
         CpuType, HeadersWritable, BssEnd, DataEnd, Capacity, DataOffset, HeaderSize;
    SoundFile(o, t, file);
    CommandParts(o, t, file);
    SegmentWords(o);
    SegmentFits(o, t, file);
    var e, from, part, w := o.endian, HeaderSize(o), SegmentPart(o), o.Word();
    PartWord(e, file, from, part, 24, w, 0);
    PartWord(e, file, from, part, 24 + w, w, BssEnd(o.sections, |o.sections|));
    PartWord(e, file, from, part, 24 + 2 * w, w, DataOffset(o));
    PartWord(e, file, from, part, 24 + 3 * w, w, DataEnd(o.sections, |o.sections|));
    PartField(e, file, from, part, 24 + 4 * w, 7);
    PartField(e, file, from, part, 28 + 4 * w, 7);
    PartField(e, file, from, part, 24 + 4 * w + 8, |o.sections|);
  }

  lemma PartWord(e: Endian, s: seq<byte>, from: nat, part: seq<byte>, at: nat, w: nat, v: nat)
    requires from + |part| <= |s| && s[from..from + |part|] == part && HasWord(e, part, at, w, v) && v < Capacity(w)
    ensures Field(e, s, from + at, w) == v
  {
    hide HasWord, Field, Capacity;
    WordInPart(e, s, from, part, at, w, v);
    FieldOf(e, s, from + at, w, v);
  }

  lemma SegmentFits(o: Object, t: Strtab, file: seq<byte>)
    requires Wrote(o, t, file) && Fits(o, t) && Sound(o)
    ensures |o.sections| <= U32_MAX && 0 < Capacity(o.Word())
    ensures DataEnd(o.sections, |o.sections|) <= BssEnd(o.sections, |o.sections|) < Capacity(o.Word())
    ensures DataOffset(o) < Capacity(o.Word())
  {
    hide Wrote, Fits, BssEnd, DataEnd, Capacity, RelocStart, SymtabOffset, StrtabOffset, SymbolCount;
    FitsAll(o, t, file);
    CapacityValues();
    AtLeast(|o.sections|, SectionSize(o));
    BssEndStart(o.sections);
    BssEndGrows(o.sections, 0, |o.sections|);
  }

  /** The two name fields of a section header: the name, padded with zeros. */
  lemma SectionNamesReadBack(o: Object, t: Strtab, file: seq<byte>, i: nat)
    requires Wrote(o, t, file) && i < |o.sections|
    ensures |o.sections[i].name| <= 16 && |o.sections[i].segment| <= 16 && SectionAt(o, i) + 32 <= |file|
    ensures file[SectionAt(o, i)..SectionAt(o, i) + 16] == Name16(o.sections[i].name)
    ensures file[SectionAt(o, i) + 16..SectionAt(o, i) + 32] == Name16(o.sections[i].segment)
  {
    hide Wrote, SectionAt, Sound, Name16, PutWords;
    SectionHeaderFound(o, t, file, i);
    var h := SectionAt(o, i);
    SectionNamesFirst(o, i);
    SliceOfSlice(file, h, h + SectionSize(o), 0, 16);
    SliceOfSlice(file, h, h + SectionSize(o), 16, 32);
  }

  lemma SectionNamesFirst(o: Object, i: nat)
    requires Sound(o) && o.AddressBytes() > 0 && i < |o.sections| && HeaderWritable(o.sections[i])
    ensures SectionHeader(o, i)[0..16] == Name16(o.sections[i].name)
    ensures SectionHeader(o, i)[16..32] == Name16(o.sections[i].segment)
  {
    hide PutWords, Name16, Address, OffsetField, TrailingZeros, RelocOffset, CountOf, FlagsOfSection;
  }

  /** The section flags, if the field can hold them. */
  lemma SectionFlagsReadBack(o: Object, t: Strtab, file: seq<byte>, i: nat)
    requires Wrote(o, t, file) && i < |o.sections|
    ensures FlagsOfSection(o.sections[i]).Some?
    ensures FlagsOfSection(o.sections[i]).value <= U32_MAX ==>
      Field(o.endian, file, SectionAt(o, i) + 48 + 2 * o.Word(), 4) == FlagsOfSection(o.sections[i]).value
  {
    hide Wrote, SectionAt, Sound, HasWord, Field, FlagsOfSection, SectionHeader, Address, OffsetField, TrailingZeros,
         RelocOffset, CountOf;
    SectionHeaderFound(o, t, file, i);
    SectionWords(o, i);
    if FlagsOfSection(o.sections[i]).value <= U32_MAX {
      PartField(o.endian, file, SectionAt(o, i), SectionHeader(o, i), 48 + 2 * o.Word(),
                FlagsOfSection(o.sections[i]).value);
    }
  }
}
