/**
 The relocation iterator of the Mach-O reader, and what it yields for the relocations of a section
 in a file that the writer has made.
 */
module MachORelocReader {
  import opened Prelude
  import opened Endian
  import opened MachO
  import opened MachOLayout
  import opened MachORelocs
  import opened MachOWrite
  import opened MachOReadBack
  import MachOSymbols
  import RelocCodec

  datatype RelocationKind = UnknownKind | Absolute | Relative | GotRelative | PltRelative | OtherKind

  datatype RelocationEncoding = Generic | X86RipRelative | X86RipRelativeMovq | X86Branch | AArch64Call | OtherEncoding

  /** A relocation as the reader reports it. */
  datatype Item = Item(
    offset: nat, external: bool, target: nat, addend: int, implicit: bool, r_type: nat, r_pcrel: bool, r_length: nat,
    kind: RelocationKind, encoding: RelocationEncoding, size: nat)

  /** Kind and encoding of a type. */
  function KindOf(cpu: bv32, r_pcrel: bool, r_type: nat): (RelocationKind, RelocationEncoding)
  {
    if !r_pcrel then
      if r_type == 0 &&
         cpu in {CPU_TYPE_ARM, CPU_TYPE_X86, CPU_TYPE_ARM64, CPU_TYPE_ARM64_32, RelocCodec.CPU_TYPE_X86_64}
      then (RelocationKind.Absolute, Generic)
      else (UnknownKind, Generic)
    else if cpu == RelocCodec.CPU_TYPE_X86_64 then
      match r_type
      case 1 => (Relative, X86RipRelative)
      case 2 => (Relative, X86Branch)
      case 3 => (GotRelative, X86RipRelativeMovq)
      case 4 => (GotRelative, Generic)
      case _ => (UnknownKind, Generic)
    else (UnknownKind, Generic)
  }

  /** What the reader subtracts from the addend of a relative relocation. */
  function PcAdjust(cpu: bv32, r_pcrel: bool, r_length: nat, r_type: nat): nat
  {
    if !r_pcrel then 0
    else if cpu == CPU_TYPE_X86 then Shifted(r_length)
    else if cpu == RelocCodec.CPU_TYPE_X86_64 then
      Shifted(r_length) + (if r_type == 6 then 1 else if r_type == 7 then 2 else if r_type == 8 then 4 else 0)
    else 0
  }

  /** `1 << r_length` */
  function Shifted(r_length: nat): nat
  {
    match r_length case 0 => 1 case 1 => 2 case 2 => 4 case _ => 8
  }

  predicate IsAddend(cpu: bv32, r_type: nat)
  {
    (cpu == CPU_TYPE_ARM64 || cpu == CPU_TYPE_ARM64_32) && r_type == ARM64_RELOC_ADDEND as int
  }

  function ItemAt(info: RelocCodec.RelocationInfo, cpu: bv32, paired: int): Item
  {
    var length, typ := info.r_length as nat, info.r_type as nat;
    Item(info.r_address as nat, info.r_extern, info.r_symbolnum as nat,
         paired - PcAdjust(cpu, info.r_pcrel, length, typ), paired == 0, typ, info.r_pcrel, length,
         KindOf(cpu, info.r_pcrel, typ).0, KindOf(cpu, info.r_pcrel, typ).1, 8 * Shifted(length))
  }

  /** Everything that is yielded from a list of entries, given the addend that waits for its relocation. */
  function Items(raws: seq<RelocCodec.Relocation>, little: bool, cpu: bv32, paired: int): seq<Item>
  {
    if raws == [] then []
    else if RelocCodec.IsScattered(raws[0], cpu) then Items(raws[1..], little, cpu, paired)
    else
      var info := RelocCodec.PlainDecode(raws[0], little);
      if IsAddend(cpu, info.r_type as nat) then
        Items(raws[1..], little, cpu, RelocCodec.SignExtend24(info.r_symbolnum as nat))
      else [ItemAt(info, cpu, paired)] + Items(raws[1..], little, cpu, 0)
  }

  /** `MachORelocationIterator` */
  class MachORelocationIterator {
    var relocations: seq<RelocCodec.Relocation>
    const little: bool
    const cpu: bv32

    constructor (relocations: seq<RelocCodec.Relocation>, little: bool, cpu: bv32)
      ensures this.relocations == relocations && this.little == little && this.cpu == cpu
    {
      this.relocations, this.little, this.cpu := relocations, little, cpu;
    }

    /** Passes over scattered entries, and keeps an addend for the relocation behind it. */
    method Next() returns (item: Option<Item>)
      modifies this
      ensures Items(old(relocations), little, cpu, 0) ==
              if item.None? then [] else [item.value] + Items(relocations, little, cpu, 0)
      ensures item.Some? ==> |relocations| < |old(relocations)|
      ensures item.None? ==> relocations == []
    {
      hide RelocCodec.IsScattered, RelocCodec.PlainDecode, RelocCodec.SignExtend24, PcAdjust;
      var pairedAddend := 0;
      while relocations != []
        invariant |relocations| <= |old(relocations)|
        invariant Items(relocations, little, cpu, pairedAddend) == Items(old(relocations), little, cpu, 0)
        decreases |relocations|
      {
        var reloc := relocations[0];
        relocations := relocations[1..];
        if RelocCodec.IsScattered(reloc, cpu) {
          continue;
        }
        var info := RelocCodec.PlainDecode(reloc, little);
        if IsAddend(cpu, info.r_type as nat) {
          pairedAddend := RelocCodec.SignExtend24(info.r_symbolnum as nat);
          continue;
        }
        return Some(ItemAt(info, cpu, pairedAddend));
      }
      item := None;
    }

    /** Draining the iterator yields all items. */
    method Collect() returns (items: seq<Item>)
      modifies this
      ensures items == Items(old(relocations), little, cpu, 0)
    {
      hide Items;
      items := [];
      var item := Next();
      while item.Some?
        invariant items + (if item.Some? then [item.value] + Items(relocations, little, cpu, 0) else [])
                  == Items(old(relocations), little, cpu, 0)
        decreases item.Some?, |relocations|
      {
        items := items + [item.value];
        item := Next();
      }
    }
  }

  // ---------------------------------------------------------------------------------------------
  // Lists of entries.

  /** The addend that waits after a list of entries. */
  function Waiting(raws: seq<RelocCodec.Relocation>, little: bool, cpu: bv32, paired: int): int
  {
    if raws == [] then paired
    else if RelocCodec.IsScattered(raws[0], cpu) then Waiting(raws[1..], little, cpu, paired)
    else
      var info := RelocCodec.PlainDecode(raws[0], little);
      if IsAddend(cpu, info.r_type as nat) then
        Waiting(raws[1..], little, cpu, RelocCodec.SignExtend24(info.r_symbolnum as nat))
      else Waiting(raws[1..], little, cpu, 0)
  }

  lemma {:induction false} ItemsConcat(a: seq<RelocCodec.Relocation>, b: seq<RelocCodec.Relocation>, little: bool,
                                       cpu: bv32, paired: int)
    ensures Items(a + b, little, cpu, paired) ==
            Items(a, little, cpu, paired) + Items(b, little, cpu, Waiting(a, little, cpu, paired))
    ensures Waiting(a + b, little, cpu, paired) == Waiting(b, little, cpu, Waiting(a, little, cpu, paired))
    decreases |a|
  {
    hide RelocCodec.IsScattered, RelocCodec.PlainDecode, RelocCodec.SignExtend24, ItemAt, IsAddend;
    if a == [] {
      assert a + b == b;
    } else {
      assert (a + b)[1..] == a[1..] + b;
      if RelocCodec.IsScattered(a[0], cpu) {
        ItemsConcat(a[1..], b, little, cpu, paired);
      } else {
        var info := RelocCodec.PlainDecode(a[0], little);
        ItemsConcat(a[1..], b, little, cpu,
                    if IsAddend(cpu, info.r_type as nat) then RelocCodec.SignExtend24(info.r_symbolnum as nat) else 0);
      }
    }
  }

  /** Little-endian entries as their words. */
  function RawsOf(entries: seq<Entry>): (r: seq<RelocCodec.Relocation>)
    ensures |r| == |entries|
  {
    seq(|entries|, m requires 0 <= m < |entries| => RelocCodec.PlainEncode(Info(entries[m]), true))
  }

  // ---------------------------------------------------------------------------------------------
  // One relocation.

  /** Whether the CPU type is that of the architecture, as far as the reader distinguishes them. */
  predicate CpuMatches(o: Object, cpu: bv32)
  {
    && (cpu == RelocCodec.CPU_TYPE_X86_64 <==> o.arch.X86_64?) && (cpu == CPU_TYPE_X86 <==> o.arch.I386?)
    && (cpu == CPU_TYPE_ARM <==> o.arch.Arm?)
    && (cpu == CPU_TYPE_ARM64 <==> o.arch.Aarch64?) && (cpu == CPU_TYPE_ARM64_32 <==> o.arch.Aarch64_Ilp32?)
  }

  /** The fields fit, and the relocation itself is not an addend entry. */
  predicate Readable(o: Object, r: Relocation)
  {
    Representable(o, r) && !((o.arch.Aarch64? || o.arch.Aarch64_Ilp32?) && r.flags.r_type == ARM64_RELOC_ADDEND)
  }

  /** From address 2^31 a relocation is taken for a scattered one, except on x86-64. */
  predicate Visible(o: Object, r: Relocation)
  {
    o.arch.X86_64? || r.offset < 0x8000_0000
  }

  /** What a reader reports for a relocation: the addend is what is left of it in 24 bits. */
  function ItemOf(o: Object, r: Relocation, cpu: bv32): Item
    requires Encodable(o, r) && r.symbol < |o.symbols| && MainEntry(o, r).r_symbolnum >= 0
  {
    var e, paired := MainEntry(o, r), RelocCodec.SignExtend24(r.addend % 0x1_0000_0000);
    Item(r.offset, e.r_extern, e.r_symbolnum, paired - PcAdjust(cpu, r.flags.r_pcrel, r.flags.r_length, r.flags.r_type),
         paired == 0, r.flags.r_type, r.flags.r_pcrel, r.flags.r_length,
         KindOf(cpu, r.flags.r_pcrel, r.flags.r_type).0, KindOf(cpu, r.flags.r_pcrel, r.flags.r_type).1,
         8 * Shifted(r.flags.r_length))
  }

  /** A single entry that is not an addend. */
  lemma MainItem(o: Object, r: Relocation, cpu: bv32, paired: int)
    requires Encodable(o, r) && r.symbol < |o.symbols| && Readable(o, r) && CpuMatches(o, cpu)
    requires 0 <= MainEntry(o, r).r_symbolnum < 0x100_0000
    ensures var raw := RelocCodec.PlainEncode(Info(MainEntry(o, r)), true);
      if Visible(o, r) then
        !RelocCodec.IsScattered(raw, cpu) &&
        var info := RelocCodec.PlainDecode(raw, true);
        && !IsAddend(cpu, info.r_type as nat)
        && ItemAt(info, cpu, paired) ==
           Item(r.offset, MainEntry(o, r).r_extern, MainEntry(o, r).r_symbolnum,
                paired - PcAdjust(cpu, r.flags.r_pcrel, r.flags.r_length, r.flags.r_type),
                paired == 0, r.flags.r_type, r.flags.r_pcrel, r.flags.r_length,
                KindOf(cpu, r.flags.r_pcrel, r.flags.r_type).0, KindOf(cpu, r.flags.r_pcrel, r.flags.r_type).1,
                8 * Shifted(r.flags.r_length))
      else RelocCodec.IsScattered(raw, cpu)
  {
    hide RelocCodec.IsScattered, RelocCodec.PlainDecode, RelocCodec.PlainEncode, Info, MainEntry, PcAdjust,
         KindOf, MachOSymbols.Order;
    var e := MainEntry(o, r);
    MainFields(o, r);
    EntryScattered(e, true, cpu);
    EntryDecodes(e);
    InfoFields(e);
    NumberOfInfo(e);
  }

  /** The addend entry of a relocation. */
  lemma AddendItem(o: Object, r: Relocation, cpu: bv32)
    requires Encodable(o, r) && Readable(o, r) && CpuMatches(o, cpu) && r.addend != 0
    ensures var raw := RelocCodec.PlainEncode(Info(AddendEntry(o, r)), true);
      if Visible(o, r) then
        !RelocCodec.IsScattered(raw, cpu) &&
        var info := RelocCodec.PlainDecode(raw, true);
        && IsAddend(cpu, info.r_type as nat)
        && RelocCodec.SignExtend24(info.r_symbolnum as nat) == RelocCodec.SignExtend24(r.addend % 0x1_0000_0000)
      else RelocCodec.IsScattered(raw, cpu)
  {
    hide RelocCodec.IsScattered, RelocCodec.PlainDecode, RelocCodec.PlainEncode, Info, RelocCodec.SignExtend24,
         MachOSymbols.Order;
    var e := AddendEntry(o, r);
    EntryScattered(e, true, cpu);
    EntryDecodes(e);
    InfoFields(e);
    SignOfModulo(r.addend);
  }

  /** One step over a list with at least one entry. */
  lemma ItemsStep(raw: RelocCodec.Relocation, rest: seq<RelocCodec.Relocation>, cpu: bv32, paired: int)
    ensures var raws, info := [raw] + rest, RelocCodec.PlainDecode(raw, true);
      if RelocCodec.IsScattered(raw, cpu) then
        Items(raws, true, cpu, paired) == Items(rest, true, cpu, paired) &&
        Waiting(raws, true, cpu, paired) == Waiting(rest, true, cpu, paired)
      else if IsAddend(cpu, info.r_type as nat) then
        var next := RelocCodec.SignExtend24(info.r_symbolnum as nat);
        Items(raws, true, cpu, paired) == Items(rest, true, cpu, next) &&
        Waiting(raws, true, cpu, paired) == Waiting(rest, true, cpu, next)
      else
        Items(raws, true, cpu, paired) == [ItemAt(info, cpu, paired)] + Items(rest, true, cpu, 0) &&
        Waiting(raws, true, cpu, paired) == Waiting(rest, true, cpu, 0)
    ensures Items([], true, cpu, paired) == [] && Waiting([], true, cpu, paired) == paired
  {
    hide RelocCodec.IsScattered, RelocCodec.PlainDecode, RelocCodec.SignExtend24, ItemAt, IsAddend;
    assert ([raw] + rest)[1..] == rest;
  }

  /** All entries of one relocation. */
  lemma RelocationItems(o: Object, r: Relocation, cpu: bv32)
    requires Encodable(o, r) && r.symbol < |o.symbols| && Readable(o, r) && CpuMatches(o, cpu)
    requires 0 <= MainEntry(o, r).r_symbolnum < 0x100_0000
    ensures var raws := RawsOf(EntriesOf(o, r));
      && Items(raws, true, cpu, 0) == (if Visible(o, r) then [ItemOf(o, r, cpu)] else [])
      && Waiting(raws, true, cpu, 0) == 0
  {
    hide Items, Waiting, RelocCodec.IsScattered, RelocCodec.PlainDecode, RelocCodec.PlainEncode,
         RelocCodec.SignExtend24, IsAddend, ItemAt, Info, MainEntry, AddendEntry, PcAdjust, CpuMatches, Readable;
    var main := RelocCodec.PlainEncode(Info(MainEntry(o, r)), true);
    var paired := RelocCodec.SignExtend24(r.addend % 0x1_0000_0000);
    MainItem(o, r, cpu, paired);
    if r.addend == 0 {
      NoAddend();
      assert RawsOf(EntriesOf(o, r)) == [main] + [];
      ItemsStep(main, [], cpu, 0);
    } else {
      var first := RelocCodec.PlainEncode(Info(AddendEntry(o, r)), true);
      AddendItem(o, r, cpu);
      assert RawsOf(EntriesOf(o, r)) == [first] + [main];
      MainItem(o, r, cpu, 0);
      ItemsStep(first, [main], cpu, 0);
      assert [main] == [main] + [];
      ItemsStep(main, [], cpu, 0);
      ItemsStep(main, [], cpu, paired);
    }
    NothingWaits(cpu);
  }

  lemma NoAddend()
    ensures RelocCodec.SignExtend24(0 % 0x1_0000_0000) == 0
  {
  }

  lemma NothingWaits(cpu: bv32)
    ensures Items([], true, cpu, 0) == [] && Waiting([], true, cpu, 0) == 0
  {
  }

  // ---------------------------------------------------------------------------------------------
  // A whole section.

  ghost predicate AllReadable(o: Object, rs: seq<Relocation>)
  {
    && AllEncodable(o, rs)
    && forall k :: 0 <= k < |rs| ==> Readable(o, rs[k]) && 0 <= MainEntry(o, rs[k]).r_symbolnum < 0x100_0000
  }

  /** The items of the visible relocations, in order. */
  ghost function ItemsOf(o: Object, rs: seq<Relocation>, cpu: bv32): seq<Item>
    requires AllReadable(o, rs)
  {
    if rs == [] then []
    else
      ItemsOf(o, rs[..|rs| - 1], cpu) + if Visible(o, rs[|rs| - 1]) then [ItemOf(o, rs[|rs| - 1], cpu)] else []
  }

  lemma {:induction false} EntriesItems(o: Object, rs: seq<Relocation>, cpu: bv32)
    requires AllReadable(o, rs) && CpuMatches(o, cpu)
    ensures Items(RawsOf(Entries(o, rs)), true, cpu, 0) == ItemsOf(o, rs, cpu)
    ensures Waiting(RawsOf(Entries(o, rs)), true, cpu, 0) == 0
  {
    hide Items, Waiting, ItemOf, Visible, MainEntry, Readable, Info, CpuMatches, Encodable, EntriesOf,
         RelocCodec.PlainEncode;
    if rs == [] {
      NothingWaits(cpu);
      assert RawsOf(Entries(o, [])) == [];
    } else {
      var front, r := rs[..|rs| - 1], rs[|rs| - 1];
      EntriesItems(o, front, cpu);
      RelocationItems(o, r, cpu);
      RawsConcat(Entries(o, front), EntriesOf(o, r));
      ItemsConcat(RawsOf(Entries(o, front)), RawsOf(EntriesOf(o, r)), true, cpu, 0);
    }
  }

  lemma RawsConcat(a: seq<Entry>, b: seq<Entry>)
    ensures RawsOf(a + b) == RawsOf(a) + RawsOf(b)
  {
    hide Info, RelocCodec.PlainEncode;
  }

  /** The entries of section `i` as the reader gets them: from the offset and the count in its header. */
  function BlockOf(o: Object, file: seq<byte>, i: nat): (r: seq<RelocCodec.Relocation>)
  {
    var count := Field(o.endian, file, SectionAt(o, i) + 44 + 2 * o.Word(), 4);
    seq(count, m requires 0 <= m < count => RawRelocation(o.endian, file, EntryPlace(o, file, i, m)))
  }

  lemma BlockReadBack(o: Object, t: Strtab, file: seq<byte>, i: nat)
    requires Wrote(o, t, file) && Fits(o, t) && o.endian.Little? && i < |o.sections|
    requires AllEncodable(o, o.sections[i].relocations)
    requires forall k :: 0 <= k < |o.sections[i].relocations| ==> o.sections[i].relocations[k].offset <= U32_MAX
    ensures BlockOf(o, file, i) == RawsOf(SectionEntries(o, i))
  {
    hide Wrote, Fits, Field, RawRelocation, SectionEntries, EntryPlace, RelocCodec.PlainEncode, Info, AllEncodable,
         CountOf, Address, RelocOffset, SectionAt;
    SectionReadBack(o, t, file, i);
    forall m | 0 <= m < CountOf(o.sections[i].relocations)
      ensures RawRelocation(o.endian, file, EntryPlace(o, file, i, m)) ==
              RelocCodec.PlainEncode(Info(SectionEntries(o, i)[m]), true)
    {
      EntryAddress(o, i, m);
      EntryReadBack(o, t, file, i, m);
    }
  }

  lemma EntryAddress(o: Object, i: nat, m: nat)
    requires i < |o.sections| && AllEncodable(o, o.sections[i].relocations) && m < CountOf(o.sections[i].relocations)
    requires forall k :: 0 <= k < |o.sections[i].relocations| ==> o.sections[i].relocations[k].offset <= U32_MAX
    ensures SectionEntries(o, i)[m].r_address <= U32_MAX
  {
    hide Entries, CountOf;
    var rs := o.sections[i].relocations;
    EmittedEncodable(o, rs);
    SectionEntriesOf(o, i);
    var k := EntrySource(o, Emitted(rs), m);
    EmittedSource(rs, k);
  }

  /**
   Writing and reading the relocations of a section: in a little-endian file the reader reports
   every relocation that is not taken for a scattered one, in the order of emission, with its
   address, target and flags, and with what is left of its addend.
   */
  lemma SectionRelocationsReadBack(o: Object, t: Strtab, file: seq<byte>, i: nat)
    requires Wrote(o, t, file) && Fits(o, t) && o.endian.Little? && i < |o.sections|
    requires AllEncodable(o, o.sections[i].relocations)
    requires forall k :: 0 <= k < |o.sections[i].relocations| ==> Readable(o, o.sections[i].relocations[k])
    ensures AllReadable(o, Emitted(o.sections[i].relocations))
    ensures var cpu := HeaderCpu(o.endian, file);
      Items(BlockOf(o, file, i), true, cpu, 0) == ItemsOf(o, Emitted(o.sections[i].relocations), cpu)
  {
    hide Wrote, Fits, Items, ItemsOf, BlockOf, SectionEntries, Entries, Emitted, MainEntry, HeaderCpu, AllEncodable,
         Encodable;
    var rs := o.sections[i].relocations;
    BlockReadBack(o, t, file, i);
    EmittedEncodable(o, rs);
    SectionEntriesOf(o, i);
    EmittedReadable(o, t, file, rs);
    CpuReadBack(o, t, file);
    EntriesItems(o, Emitted(rs), HeaderCpu(o.endian, file));
  }

  lemma EmittedReadable(o: Object, t: Strtab, file: seq<byte>, rs: seq<Relocation>)
    requires Wrote(o, t, file) && AllEncodable(o, Emitted(rs)) && forall k :: 0 <= k < |rs| ==> Readable(o, rs[k])
    ensures AllReadable(o, Emitted(rs))
  {
    hide Wrote, MainEntry, Encodable, Emitted, MachOSymbols.Order;
    forall k | 0 <= k < |Emitted(rs)|
      ensures Readable(o, Emitted(rs)[k]) && 0 <= MainEntry(o, Emitted(rs)[k]).r_symbolnum < 0x100_0000
    {
      EmittedSource(rs, k);
      MainNumber(o, t, file, Emitted(rs)[k]);
    }
  }
}
