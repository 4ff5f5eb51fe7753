/**
 Building the object that the Mach-O writer reads: appending section data, translating relocations,
 and creating the descriptors of thread-local variables.
 */
module MachOBuilder {
  import opened Prelude
  import opened Endian
  import opened MachO
  import opened MachOLayout
  import opened MachORelocs
  import Bits
  import MachOReadBack
  import MachORelocReader
  import MachOSymbols
  import MachOWrite
  import RelocCodec

  type RelocationKind = MachORelocReader.RelocationKind

  type RelocationEncoding = MachORelocReader.RelocationEncoding

  /** The flags with which a relocation is requested. */
  datatype Request =
    | GenericRequest(kind: RelocationKind, encoding: RelocationEncoding, size: nat)
    | MachORequest(r_type: byte, r_pcrel: bool, r_length: byte)
    | OtherRequest

  const X86_64_RELOC_UNSIGNED: byte := 0
  const X86_64_RELOC_SIGNED: byte := 1
  const X86_64_RELOC_BRANCH: byte := 2
  const X86_64_RELOC_GOT_LOAD: byte := 3
  const X86_64_RELOC_GOT: byte := 4
  const X86_64_RELOC_SIGNED_1: byte := 6
  const X86_64_RELOC_SIGNED_2: byte := 7
  const X86_64_RELOC_SIGNED_4: byte := 8
  const ARM64_RELOC_UNSIGNED: byte := 0
  const ARM64_RELOC_BRANCH26: byte := 2
  const ARM64_RELOC_PAGE21: byte := 3
  const ARM64_RELOC_PAGEOFF12: byte := 4
  const RELOC_VANILLA: byte := 0

  function LengthOf(arch: Architecture, size: nat): Option<byte>
  {
    var size' := if arch.Aarch64? && size in {12, 21, 26} then 32 else size;
    match size'
    case 8 => Some(0)
    case 16 => Some(1)
    case 32 => Some(2)
    case 64 => Some(3)
    case _ => None
  }

  /** `r_pcrel` and `r_type` of a generic relocation, for the architectures that have them. */
  function TypeOf(arch: Architecture, kind: RelocationKind, encoding: RelocationEncoding): Option<(bool, byte)>
  {
    match arch
    case I386 | Arm => if kind.Absolute? then Some((false, RELOC_VANILLA)) else None
    case X86_64 =>
      (match (kind, encoding)
       case (Absolute, Generic) => Some((false, X86_64_RELOC_UNSIGNED))
       case (Relative, Generic) => Some((true, X86_64_RELOC_SIGNED))
       case (Relative, X86RipRelative) => Some((true, X86_64_RELOC_SIGNED))
       case (Relative, X86Branch) => Some((true, X86_64_RELOC_BRANCH))
       case (PltRelative, X86Branch) => Some((true, X86_64_RELOC_BRANCH))
       case (GotRelative, Generic) => Some((true, X86_64_RELOC_GOT))
       case (GotRelative, X86RipRelativeMovq) => Some((true, X86_64_RELOC_GOT_LOAD))
       case _ => None)
    case Aarch64 | Aarch64_Ilp32 =>
      (match (kind, encoding)
       case (Absolute, Generic) => Some((false, ARM64_RELOC_UNSIGNED))
       case (Relative, AArch64Call) => Some((true, ARM64_RELOC_BRANCH26))
       case _ => None)
    case _ => None
  }

  /** `macho_translate_relocation`, with other flags left as they are. */
  function Translate(arch: Architecture, request: Request): Result<RelocationFlags>
  {
    match request
    case GenericRequest(kind, encoding, size) =>
      (match (LengthOf(arch, size), TypeOf(arch, kind, encoding))
       case (Some(length), Some(t)) => Ok(MachORelocation(t.1, t.0, length))
       case _ => Err)
    case MachORequest(r_type, r_pcrel, r_length) => Ok(MachORelocation(r_type, r_pcrel, r_length))
    case OtherRequest => Ok(OtherRelocation)
  }

  /** A translated generic relocation fits its bit fields. */
  lemma TranslationFits(arch: Architecture, request: Request)
    requires request.GenericRequest? && Translate(arch, request).Ok?
    ensures var f := Translate(arch, request).value;
      f.MachORelocation? && f.r_length < 4 && f.r_type < ARM64_RELOC_ADDEND
  {
  }

  /** How far the program counter is from the place of a relative relocation. */
  function PcOffset(arch: Architecture, flags: RelocationFlags): nat
    requires flags.MachORelocation?
  {
    if !flags.r_pcrel then 0
    else match arch
      case I386 => 4
      case X86_64 =>
        if flags.r_type == X86_64_RELOC_SIGNED_1 then 5
        else if flags.r_type == X86_64_RELOC_SIGNED_2 then 6
        else if flags.r_type == X86_64_RELOC_SIGNED_4 then 8
        else 4
      case _ => 0
  }

  /** Whether the addend is kept in the section data. */
  predicate IsImplicit(arch: Architecture, flags: RelocationFlags)
    requires flags.MachORelocation?
  {
    arch.Aarch64? ==> flags.r_type !in {ARM64_RELOC_BRANCH26, ARM64_RELOC_PAGE21, ARM64_RELOC_PAGEOFF12}
  }

  /** The bytes of an implicit addend: four or eight, by the length field. */
  function AddendSize(flags: RelocationFlags): Option<nat>
    requires flags.MachORelocation?
  {
    if flags.r_length == 2 then Some(4) else if flags.r_length == 3 then Some(8) else None
  }

  function Unsigned(addend: int, size: nat): nat
  {
    addend % Capacity(size)
  }

  // ---------------------------------------------------------------------------------------------
  // Invariants of the object.

  ghost predicate AllRelocsEncodable(o: Object)
  {
    forall i :: 0 <= i < |o.sections| ==> RelocsEncodable(o, o.sections[i])
  }

  ghost predicate RelocsEncodable(o: Object, s: Section)
  {
    forall k :: 0 <= k < |s.relocations| ==> Encodable(o, s.relocations[k])
  }

  ghost predicate Buildable(o: Object)
  {
    o.Valid() && AllRelocsEncodable(o)
  }

  lemma SymbolsChanged(o: Object, symbols: seq<Symbol>)
    requires Buildable(o) && |symbols| >= |o.symbols|
    requires forall i :: 0 <= i < |symbols| ==>
      (i < |o.symbols| && symbols[i] == o.symbols[i]) || o.ValidSymbol(symbols[i])
    ensures Buildable(o.(symbols := symbols))
  {
    var o' := o.(symbols := symbols);
    forall i | 0 <= i < |o'.sections|
      ensures o'.ValidSection(o'.sections[i]) && RelocsEncodable(o', o'.sections[i])
    {
      assert o.ValidSection(o.sections[i]);
    }
    forall i | 0 <= i < |symbols|
      ensures o'.ValidSymbol(symbols[i])
    {
      if i < |o.symbols| && symbols[i] == o.symbols[i] {
        assert o.ValidSymbol(o.symbols[i]);
      }
    }
  }

  lemma SectionsChanged(o: Object, sections: seq<Section>)
    requires Buildable(o) && |sections| >= |o.sections|
    requires forall i :: 0 <= i < |sections| ==>
      (i < |o.sections| && sections[i] == o.sections[i]) ||
      (o.ValidSection(sections[i]) && RelocsEncodable(o, sections[i]))
    ensures Buildable(o.(sections := sections))
  {
    var o' := o.(sections := sections);
    forall i | 0 <= i < |sections|
      ensures o'.ValidSection(sections[i]) && RelocsEncodable(o', sections[i])
    {
      if i < |o.sections| && sections[i] == o.sections[i] {
        assert o.ValidSection(o.sections[i]);
      }
    }
    forall i | 0 <= i < |o'.symbols|
      ensures o'.ValidSymbol(o'.symbols[i])
    {
      assert o.ValidSymbol(o.symbols[i]);
    }
  }

  /** The relocations of a built object are never the reason for a failed write. */
  lemma BuildableIsWritable(o: Object)
    requires Buildable(o)
    ensures MachOWrite.Writable(o) <==>
      && CpuType(o.arch, o.sub).Some?
      && (forall i :: 0 <= i < |o.symbols| ==> !o.symbols[i].kind.LabelSymbol?)
      && (forall i :: 0 <= i < |o.sections| ==> MachOWrite.HeaderWritable(o.sections[i]))
      && (forall i :: 0 <= i < |o.symbols| && o.symbols[i].IsEmitted() ==> MachOWrite.NlistWritable(o.symbols[i]))
  {
    hide MachOWrite.HeaderWritable, MachOWrite.NlistWritable, CpuType;
    forall i | 0 <= i < |o.sections|
      ensures AllEncodable(o, o.sections[i].relocations)
    {
      assert o.ValidSection(o.sections[i]) && RelocsEncodable(o, o.sections[i]);
    }
  }

  /** Padding by the remainder, as data is appended, is alignment. */
  lemma PadToAlign(offset: nat, align: nat)
    requires align > 0
    ensures Align(offset, align) == if offset % align == 0 then offset else offset + (align - offset % align)
  {
    var a, r := Align(offset, align), offset % align;
    var q := offset / align;
    assert offset == align * q + r;
    var up := if r == 0 then q else q + 1;
    var target := if r == 0 then offset else offset + (align - r);
    assert target == align * up;
    SameMultiple(a, target, align, up);
  }

  /** Two multiples of a number that are less than it apart are equal. */
  lemma SameMultiple(a: nat, b: nat, align: nat, n: nat)
    requires align > 0 && a % align == 0 && b == align * n && a < b + align && b < a + align
    ensures a == b
  {
    var m := a / align;
    assert a == align * m;
    assert a - b == align * (m - n);
    assert a - b == -(align * (n - m));
    if m > n {
      Bits.MulStep(align, m - n);
    } else if n > m {
      Bits.MulStep(align, n - m);
    }
  }

  /** The symbol that every thread-local variable descriptor refers to. */
  const TLV_BOOTSTRAP: seq<byte> :=
    [0x5f, 0x74, 0x6c, 0x76, 0x5f, 0x62, 0x6f, 0x6f, 0x74, 0x73, 0x74, 0x72, 0x61, 0x70]

  const TLV_INIT: seq<byte> := [0x24, 0x74, 0x6c, 0x76, 0x24, 0x69, 0x6e, 0x69, 0x74]

  const DATA_SEGMENT: seq<byte> := [0x5f, 0x5f, 0x44, 0x41, 0x54, 0x41]

  const THREAD_VARS: seq<byte> := [0x5f, 0x5f, 0x74, 0x68, 0x72, 0x65, 0x61, 0x64, 0x5f, 0x76, 0x61, 0x72, 0x73]

  function BootstrapSymbol(prefix: seq<byte>): Symbol
  {
    Symbol(prefix + TLV_BOOTSTRAP, 0, TextSymbol, Dynamic, false, Undefined, NoSymbolFlags)
  }

  /** The symbol for the initial value of a thread-local variable. */
  function InitSymbol(name: seq<byte>): Symbol
  {
    Symbol(name + TLV_INIT, 0, TlsSymbol, Compilation, false, Undefined, NoSymbolFlags)
  }

  const THREAD_VARS_SECTION: Section :=
    Section(DATA_SEGMENT, THREAD_VARS, TlsVariables, 0, 1, [], [], NoSectionFlags)

  /** A descriptor: three pointers, of which two are relocated. */
  datatype Descriptor = Descriptor(symbol: nat, init: nat, offset: nat, reloc: nat)

  /** The flags of the relocation of one pointer. */
  function PointerRequest(o: Object): Request
  {
    GenericRequest(RelocationKind.Absolute, RelocationEncoding.Generic, 8 * o.AddressBytes())
  }

  /** The architectures on which descriptors can be made. */
  predicate HasThreadVars(o: Object)
  {
    Translate(o.arch, PointerRequest(o)).Ok?
  }

  lemma ThreadVarArchitectures(o: Object)
    ensures HasThreadVars(o) <==> o.arch in {Aarch64, Aarch64_Ilp32, Arm, I386, X86_64}
    ensures forall s: Section, offset: u64, symbol ::
      Requested(o, s, offset, symbol, 0, PointerRequest(o)).Some? <==> HasThreadVars(o)
  {
  }

  function PointerFlags(o: Object): RelocationFlags
    requires HasThreadVars(o)
  {
    Translate(o.arch, PointerRequest(o)).value
  }

  /** A descriptor inside its section: aligned, with its first and third pointers relocated. */
  ghost predicate DescriptorIn(o: Object, s: Section, bootstrap: nat, d: Descriptor)
  {
    var p := o.AddressBytes();
    && HasThreadVars(o) && p > 0 && d.symbol < |o.symbols| && d.init < |o.symbols|
    && d.offset % p == 0 && d.offset + 3 * p <= |s.data| <= U64_MAX
    && d.reloc + 1 < |s.relocations|
    && s.relocations[d.reloc] == Relocation(d.offset, bootstrap, 0, PointerFlags(o))
    && s.relocations[d.reloc + 1] == Relocation(d.offset + 2 * p, d.init, 0, PointerFlags(o))
  }

  /** All descriptors are in the section, and follow one another without overlap. */
  ghost predicate DescriptorsIn(o: Object, s: Section, bootstrap: nat, ds: seq<Descriptor>)
  {
    && (forall i :: 0 <= i < |ds| ==> DescriptorIn(o, s, bootstrap, ds[i]))
    && (forall i, j :: 0 <= i < j < |ds| ==> ds[i].offset + 3 * o.AddressBytes() <= ds[j].offset)
  }

  lemma DescriptorsKept(o: Object, o': Object, s: Section, s': Section, bootstrap: nat, ds: seq<Descriptor>)
    requires DescriptorsIn(o, s, bootstrap, ds)
    requires o'.arch == o.arch && |o'.symbols| >= |o.symbols|
    requires |s.data| <= |s'.data| <= U64_MAX && s.relocations <= s'.relocations
    ensures DescriptorsIn(o', s', bootstrap, ds)
  {
    hide Translate;
    forall i | 0 <= i < |ds|
      ensures DescriptorIn(o', s', bootstrap, ds[i])
    {
      assert DescriptorIn(o, s, bootstrap, ds[i]);
    }
  }

  ghost predicate Consistent(o: Object, tlvBootstrap: Option<nat>, threadVars: Option<nat>, ds: seq<Descriptor>)
  {
    && Buildable(o)
    && (tlvBootstrap.Some? ==> tlvBootstrap.value < |o.symbols|)
    && (threadVars.Some? ==> threadVars.value < |o.sections| && o.sections[threadVars.value].kind.TlsVariables?)
    && (ds != [] ==> tlvBootstrap.Some? && threadVars.Some? &&
                     DescriptorsIn(o, o.sections[threadVars.value], tlvBootstrap.value, ds))
  }

  /** Section contents may grow. */
  ghost predicate Extends(s: Section, s': Section)
  {
    s'.kind == s.kind && |s.data| <= |s'.data| <= U64_MAX && s.relocations <= s'.relocations
  }

  lemma ConsistentSection(o: Object, b: Option<nat>, v: Option<nat>, ds: seq<Descriptor>, i: nat, s': Section)
    requires Consistent(o, b, v, ds) && i < |o.sections| && Extends(o.sections[i], s')
    requires o.ValidSection(s') && RelocsEncodable(o, s')
    ensures Consistent(o.(sections := o.sections[i := s']), b, v, ds)
  {
    hide Buildable, DescriptorsIn, RelocsEncodable;
    var sections := o.sections[i := s'];
    SectionsChanged(o, sections);
    if ds != [] {
      var s := o.sections[v.value];
      if v.value == i {
        DescriptorsKept(o, o.(sections := sections), s, s', b.value, ds);
      } else {
        SameSection(o, o.(sections := sections), s, b.value, ds);
      }
    }
  }

  lemma SameSection(o: Object, o': Object, s: Section, bootstrap: nat, ds: seq<Descriptor>)
    requires DescriptorsIn(o, s, bootstrap, ds) && ds != []
    requires o'.arch == o.arch && |o'.symbols| >= |o.symbols|
    ensures DescriptorsIn(o', s, bootstrap, ds)
  {
    assert DescriptorIn(o, s, bootstrap, ds[0]);
    DescriptorsKept(o, o', s, s, bootstrap, ds);
  }

  lemma ConsistentNewSection(o: Object, b: Option<nat>, v: Option<nat>, v': Option<nat>, ds: seq<Descriptor>,
                             s': Section)
    requires Consistent(o, b, v, ds) && o.ValidSection(s') && RelocsEncodable(o, s')
    requires v' == v || (v.None? && v' == Some(|o.sections|) && s'.kind.TlsVariables?)
    ensures Consistent(o.(sections := o.sections + [s']), b, v', ds)
  {
    hide Buildable, DescriptorsIn, RelocsEncodable;
    var sections := o.sections + [s'];
    SectionsChanged(o, sections);
    if ds != [] {
      SameSection(o, o.(sections := sections), o.sections[v.value], b.value, ds);
    }
  }

  lemma ConsistentSymbols(o: Object, b: Option<nat>, v: Option<nat>, b': Option<nat>, ds: seq<Descriptor>,
                          symbols: seq<Symbol>)
    requires Consistent(o, b, v, ds) && |symbols| >= |o.symbols|
    requires forall i :: 0 <= i < |symbols| ==>
      (i < |o.symbols| && symbols[i] == o.symbols[i]) || o.ValidSymbol(symbols[i])
    requires b' == b || (b.None? && b'.Some? && b'.value < |symbols|)
    ensures Consistent(o.(symbols := symbols), b', v, ds)
  {
    hide Buildable, DescriptorsIn;
    SymbolsChanged(o, symbols);
    if ds != [] {
      SameSection(o, o.(symbols := symbols), o.sections[v.value], b.value, ds);
    }
  }

  /** The fields of the builder. */
  datatype State = BuilderState(
    sections: seq<Section>, symbols: seq<Symbol>, tlvBootstrap: Option<nat>, threadVars: Option<nat>,
    descriptors: seq<Descriptor>, generic: bool)

  ghost predicate Usable(o: Object, before: State, id: nat)
  {
    && id < |before.symbols|
    && (before.symbols[id].kind.TlsSymbol? ==> HasThreadVars(o) && 0 < o.AddressBytes() <= 8)
    && (before.threadVars.Some? ==>
         before.threadVars.value < |before.sections| && |before.sections[before.threadVars.value].data| <= U64_MAX / 2)
  }

  /** The sections and the index among them once the thread variable section exists. */
  function FoundSections(before: State): seq<Section>
  {
    if before.threadVars.Some? then before.sections else before.sections + [THREAD_VARS_SECTION]
  }

  function FoundIndex(before: State): nat
  {
    if before.threadVars.Some? then before.threadVars.value else |before.sections|
  }

  /** The state with one more descriptor, and with the bootstrap symbol if it was missing. */
  ghost function Described(o: Object, prefix: seq<byte>, before: State, id: nat, init: nat): State
    requires Usable(o, before, id) && HasThreadVars(o) && 0 < o.AddressBytes() <= 8
  {
    var sections, v := FoundSections(before), FoundIndex(before);
    var b := if before.tlvBootstrap.Some? then before.tlvBootstrap.value else |before.symbols|;
    var d := NewDescriptor(o, sections[v], id, init);
    BuilderState(
      sections[v := WithDescriptor(o, sections[v], d, b)],
      before.symbols + (if before.tlvBootstrap.Some? then [] else [BootstrapSymbol(prefix)]),
      Some(b), Some(v), before.descriptors + [d], before.generic)
  }

  /** The state after adding a thread-local variable: its symbol refers to the new descriptor. */
  ghost function WithThreadVar(o: Object, prefix: seq<byte>, before: State, id: nat): State
    requires Usable(o, before, id)
  {
    var symbol := before.symbols[id];
    if !symbol.kind.TlsSymbol? then before
    else
      var started := before.(symbols := before.symbols + [InitSymbol(symbol.name)]);
      var after := Described(o, prefix, started, id, |before.symbols|);
      var d := after.descriptors[|before.descriptors|];
      after.(symbols := after.symbols[id := symbol.(value := d.offset, section := InSection(FoundIndex(before)))])
  }

  /** The section with one more relocation, if its implicit addend can be stored. */
  function Relocated(endian: Endian, arch: Architecture, s: Section, offset: u64, symbol: nat, addend: int,
                     flags: RelocationFlags): Option<Section>
    requires flags.MachORelocation?
  {
    var adjusted := addend + PcOffset(arch, flags);
    if !IsImplicit(arch, flags) then
      Some(s.(relocations := s.relocations + [Relocation(offset, symbol, adjusted, flags)]))
    else if adjusted == 0 then
      Some(s.(relocations := s.relocations + [Relocation(offset, symbol, 0, flags)]))
    else match AddendSize(flags)
      case None => None
      case Some(size) =>
        if offset + size > |s.data| then None
        else Some(s.(data := Overwrite(s.data, offset, Put(endian, Unsigned(adjusted, size), size)),
                     relocations := s.relocations + [Relocation(offset, symbol, 0, flags)]))
  }

  /** The section that a successful `add_relocation` leaves. */
  function Requested(o: Object, s: Section, offset: u64, symbol: nat, addend: int, request: Request): Option<Section>
  {
    var flags := Translate(o.arch, request);
    if flags.Ok? && flags.value.MachORelocation? then
      Relocated(o.endian, o.arch, s, offset, symbol, addend, flags.value)
    else None
  }

  /** Flags whose fields fit, and that are not those of an addend entry. */
  predicate Narrow(flags: RelocationFlags)
  {
    flags.MachORelocation? && flags.r_length < 4 && flags.r_type < ARM64_RELOC_ADDEND
  }

  ghost predicate AllNarrow(sections: seq<Section>)
  {
    forall i, k :: 0 <= i < |sections| && 0 <= k < |sections[i].relocations| ==>
      Narrow(sections[i].relocations[k].flags)
  }

  lemma NarrowAppended(sections: seq<Section>, s: Section)
    requires s.relocations == []
    ensures AllNarrow(sections) ==> AllNarrow(sections + [s])
  {
  }

  lemma NarrowReplaced(sections: seq<Section>, i: nat, s: Section)
    requires i < |sections| && s.relocations == sections[i].relocations
    ensures AllNarrow(sections) ==> AllNarrow(sections[i := s])
  {
  }

  /** A request by kind, encoding and size gives narrow flags. */
  lemma NarrowRequested(arch: Architecture, request: Request, sections: seq<Section>, i: nat, s: Section)
    requires i < |sections| && Translate(arch, request).Ok? && |s.relocations| == |sections[i].relocations| + 1
    requires s.relocations[..|sections[i].relocations|] == sections[i].relocations
    requires s.relocations[|sections[i].relocations|].flags == Translate(arch, request).value
    ensures AllNarrow(sections) && request.GenericRequest? ==> AllNarrow(sections[i := s])
  {
    hide Translate;
    if request.GenericRequest? {
      TranslationFits(arch, request);
    }
    forall k | 0 <= k < |sections[i].relocations|
      ensures s.relocations[k] == sections[i].relocations[k]
    {
      assert s.relocations[..|sections[i].relocations|][k] == s.relocations[k];
    }
  }

  class Builder {
    /** The architecture, the byte order and the header fields; its sections and symbols are not used. */
    const base: Object
    /** The prefix of mangled global names. */
    const prefix: seq<byte>
    var sections: seq<Section>
    var symbols: seq<Symbol>
    var tlvBootstrap: Option<nat>
    var threadVars: Option<nat>
    ghost var descriptors: seq<Descriptor>
    /** Whether all relocations so far were requested by kind, encoding and size. */
    ghost var generic: bool

    ghost function State(): State
      reads this
    {
      BuilderState(sections, symbols, tlvBootstrap, threadVars, descriptors, generic)
    }

    /** The object built so far. */
    function Contents(): Object
      reads this
    {
      base.(sections := sections, symbols := symbols)
    }

    ghost predicate Valid()
      reads this
    {
      && 0 !in prefix && Consistent(Contents(), tlvBootstrap, threadVars, descriptors)
      && (generic ==> AllNarrow(sections))
    }

    constructor (base: Object, prefix: seq<byte>)
      requires base.AddressBytes() in {1, 2, 4, 8} && 0 !in prefix
      ensures Valid() && this.base == base && this.prefix == prefix
      ensures State() == BuilderState([], [], None, None, [], true)
    {
      this.base, this.prefix := base, prefix;
      sections, symbols := [], [];
      tlvBootstrap, threadVars, descriptors, generic := None, None, [], true;
    }

    /** `add_section`; a section that is the standard one for thread variables is remembered. */
    method AddSection(segment: seq<byte>, name: seq<byte>, kind: SectionKind) returns (id: nat)
      requires Valid()
      modifies this
      ensures Valid() && id == |old(sections)|
      ensures sections == old(sections) + [Section(segment, name, kind, 0, 1, [], [], NoSectionFlags)]
      ensures symbols == old(symbols) && tlvBootstrap == old(tlvBootstrap) && descriptors == old(descriptors)
      ensures generic == old(generic)
      ensures threadVars ==
        if old(threadVars).None? && sections[id] == THREAD_VARS_SECTION then Some(id) else old(threadVars)
    {
      hide Consistent, AllNarrow;
      var s := Section(segment, name, kind, 0, 1, [], [], NoSectionFlags);
      id := |sections|;
      FreshSection(Contents(), s);
      NarrowAppended(sections, s);
      ghost var before := Contents();
      ghost var v := threadVars;
      sections := sections + [s];
      if threadVars.None? && segment == DATA_SEGMENT && name == THREAD_VARS && kind.TlsVariables? {
        threadVars := Some(id);
      }
      ConsistentNewSection(before, tlvBootstrap, v, threadVars, descriptors, s);
      assert Contents() == before.(sections := before.sections + [s]);
    }

    /** `section_id` for the thread variables. */
    method ThreadVarsSection() returns (id: nat)
      requires Valid()
      modifies this
      ensures Valid() && threadVars == Some(id)
      ensures if old(threadVars).Some? then id == old(threadVars).value && sections == old(sections)
              else id == |old(sections)| && sections == old(sections) + [THREAD_VARS_SECTION]
      ensures symbols == old(symbols) && tlvBootstrap == old(tlvBootstrap) && descriptors == old(descriptors)
      ensures generic == old(generic)
    {
      if threadVars.Some? {
        return threadVars.value;
      }
      id := AddSection(DATA_SEGMENT, THREAD_VARS, TlsVariables);
    }

    /** `append_section_data`: zeros up to the alignment, and then the data. */
    method AppendSectionData(section: nat, data: seq<byte>, align: nat) returns (offset: nat)
      requires Valid() && section < |sections| && !sections[section].IsBss()
      requires align > 0 && IsPowerOfTwo(align) && |sections[section].data| + align + |data| <= U64_MAX
      modifies this`sections
      ensures Valid()
      ensures offset == Align(|old(sections)[section].data|, align)
      ensures var s := old(sections)[section];
        var data' := s.data + Zeros(offset - |s.data|) + data;
        sections == old(sections)[section := s.(data := data', size := |data'|,
                                                align := if s.align < align then align else s.align)]
    {
      hide Consistent, IsPowerOfTwo, AllNarrow;
      var s := sections[section];
      SectionOf(Contents(), section, tlvBootstrap, threadVars, descriptors);
      if s.align < align {
        s := s.(align := align);
      }
      offset := |s.data|;
      PadToAlign(offset, align);
      if offset % align != 0 {
        offset := offset + (align - offset % align);
        s := s.(data := s.data + Zeros(offset - |s.data|));
      }
      assert s.data + Zeros(0) == s.data;
      s := s.(data := s.data + data);
      s := s.(size := |s.data|);
      NarrowReplaced(sections, section, s);
      AppendedSection(Contents(), section, s, tlvBootstrap, threadVars, descriptors);
      ghost var before := Contents();
      sections := sections[section := s];
      assert Contents() == before.(sections := sections);
    }
  
    /** `add_raw_symbol` */
    method AddRawSymbol(symbol: Symbol) returns (id: nat)
      requires Valid() && Contents().ValidSymbol(symbol)
      modifies this`symbols
      ensures Valid()
      ensures id == |old(symbols)| && symbols == old(symbols) + [symbol]
    {
      hide Consistent;
      id := |symbols|;
      ghost var before := Contents();
      ConsistentSymbols(before, tlvBootstrap, threadVars, tlvBootstrap, descriptors, symbols + [symbol]);
      symbols := symbols + [symbol];
      assert Contents() == before.(symbols := symbols);
    }

    /** `macho_tlv_bootstrap`: created by the first call, and the same ever after. */
    method TlvBootstrap() returns (id: nat)
      requires Valid()
      modifies this`symbols, this`tlvBootstrap
      ensures Valid() && tlvBootstrap == Some(id) && id < |symbols|
      ensures if old(tlvBootstrap).Some? then id == old(tlvBootstrap).value && symbols == old(symbols)
              else id == |old(symbols)| && symbols == old(symbols) + [BootstrapSymbol(prefix)]
    {
      hide Consistent;
      BootstrapIn(Contents(), tlvBootstrap, threadVars, descriptors);
      if tlvBootstrap.Some? {
        return tlvBootstrap.value;
      }
      var symbol := BootstrapSymbol(prefix);
      id := |symbols|;
      ghost var before := Contents();
      ConsistentSymbols(before, tlvBootstrap, threadVars, Some(id), descriptors, symbols + [symbol]);
      symbols := symbols + [symbol];
      tlvBootstrap := Some(id);
      assert Contents() == before.(symbols := symbols);
    }

    /**
     `add_relocation`: the addend goes into the section data unless the relocation type keeps it
     explicit. Nothing changes on an error.
     */
    method AddRelocation(section: nat, offset: u64, symbol: nat, addend: int, request: Request) returns (ok: bool)
      requires Valid() && section < |sections| && symbol < |symbols| && |sections[section].data| <= U64_MAX
      modifies this`sections, this`generic
      ensures Valid() && generic == (old(generic) && (ok ==> request.GenericRequest?))
      ensures var s' := Requested(base, old(sections)[section], offset, symbol, addend, request);
        if s'.Some? then ok && sections == old(sections)[section := s'.value] else !ok && sections == old(sections)
    {
      hide Consistent, Put, Overwrite, PcOffset, IsImplicit, Unsigned, Translate, AllNarrow;
      var translated := Translate(base.arch, request);
      if translated.Err? {
        return false;
      }
      var flags := translated.value;
      if !flags.MachORelocation? {
        return false;
      }
      var adjusted, s := addend + PcOffset(base.arch, flags), sections[section];
      if IsImplicit(base.arch, flags) && adjusted != 0 {
        var size := AddendSize(flags);
        if size.None? || offset + size.value > |s.data| {
          return false;
        }
        s := s.(data := Overwrite(s.data, offset, Put(base.endian, Unsigned(adjusted, size.value), size.value)));
        adjusted := 0;
      }
      s := s.(relocations := s.relocations + [Relocation(offset, symbol, adjusted, flags)]);
      ghost var before := Contents();
      RelocatedSection(before, section, s, tlvBootstrap, threadVars, descriptors);
      NarrowRequested(base.arch, request, sections, section, s);
      sections := sections[section := s];
      generic := generic && request.GenericRequest?;
      assert Contents() == before.(sections := sections);
      ok := true;
    }

    /** A relocation of a pointer with no addend, which fails exactly where thread variables are not supported. */
    method RelocatePointer(section: nat, offset: nat, symbol: nat) returns (ok: bool)
      requires Valid() && section < |sections| && symbol < |symbols|
      requires |sections[section].data| <= U64_MAX && offset <= U64_MAX
      modifies this`sections, this`generic
      ensures Valid() && generic == old(generic) && (ok <==> HasThreadVars(base))
      ensures var s := old(sections)[section];
        if ok
        then sections == old(sections)[section :=
               s.(relocations := s.relocations + [Relocation(offset, symbol, 0, PointerFlags(base))])]
        else sections == old(sections)
    {
      hide Consistent, Translate, Put, Overwrite, PcOffset, IsImplicit, AllNarrow;
      if HasThreadVars(base) {
        PointerRelocation(base);
      }
      ok := AddRelocation(section, offset, symbol, 0, PointerRequest(base));
    }

    /** The relocations of a descriptor; the program panics if one fails. */
    method RelocatePointers(section: nat, offset: nat, bootstrap: nat, init: nat)
      requires Valid() && HasThreadVars(base) && section < |sections| && bootstrap < |symbols| && init < |symbols|
      requires |sections[section].data| <= U64_MAX && offset + 2 * base.AddressBytes() <= U64_MAX
      modifies this`sections, this`generic
      ensures Valid() && generic == old(generic)
      ensures var s := old(sections)[section];
        sections == old(sections)[section := s.(relocations := s.relocations + [
          Relocation(offset, bootstrap, 0, PointerFlags(base)),
          Relocation(offset + 2 * base.AddressBytes(), init, 0, PointerFlags(base))])]
    {
      hide Consistent, HasThreadVars, PointerFlags, AllNarrow;
      ghost var s := sections[section];
      var first := RelocatePointer(section, offset, bootstrap);
      assert first;
      var second := RelocatePointer(section, offset + 2 * base.AddressBytes(), init);
      assert second;
      ghost var one := Relocation(offset, bootstrap, 0, PointerFlags(base));
      ghost var two := Relocation(offset + 2 * base.AddressBytes(), init, 0, PointerFlags(base));
      assert s.relocations + [one] + [two] == s.relocations + [one, two];
    }

    /** Notes a descriptor that is at the end of its section. */
    ghost method RecordDescriptor(s: Section, d: Descriptor)
      requires Valid() && tlvBootstrap.Some? && threadVars.Some? && HasThreadVars(base) && 0 < base.AddressBytes() <= 8
      requires Below(descriptors, base.AddressBytes(), |s.data|) && |s.data| <= U64_MAX / 2
      requires d.symbol < |symbols| && d.init < |symbols| && d == NewDescriptor(base, s, d.symbol, d.init)
      requires threadVars.value < |sections|
      requires sections[threadVars.value] == WithDescriptor(base, s, d, tlvBootstrap.value)
      modifies this`descriptors
      ensures Valid() && descriptors == old(descriptors) + [d]
    {
      hide Consistent, Translate, DescriptorsIn, Align, WithDescriptor, Below;
      SameArchitecture(base, Contents(), s, d, tlvBootstrap.value);
      DescriptorSnoc(Contents(), tlvBootstrap, threadVars, descriptors, s, d);
      descriptors := descriptors + [d];
    }

    /** Appends a descriptor to its section, and relocates it. */
    method PlaceDescriptor(section: nat, id: nat, init: nat) returns (offset: nat)
      requires Valid() && threadVars == Some(section) && section < |sections| && |sections[section].data| <= U64_MAX / 2
      requires HasThreadVars(base) && 0 < base.AddressBytes() <= 8 && init < |symbols|
      modifies this`sections, this`symbols, this`tlvBootstrap, this`generic
      ensures Valid() && generic == old(generic)
      ensures tlvBootstrap == Some(if old(tlvBootstrap).Some? then old(tlvBootstrap).value else |old(symbols)|)
      ensures symbols == old(symbols) + (if old(tlvBootstrap).Some? then [] else [BootstrapSymbol(prefix)])
      ensures var d := NewDescriptor(base, old(sections)[section], id, init);
        && offset == d.offset && |old(sections)[section].data| <= offset <= U64_MAX - 2 * base.AddressBytes()
        && sections == old(sections)[section := WithDescriptor(base, old(sections)[section], d, tlvBootstrap.value)]
    {
      hide Consistent, Translate, DescriptorsIn, Align, WithDescriptor, PointerFlags, Below, IsPowerOfTwo;
      ThreadVarsKind(Contents(), tlvBootstrap, threadVars, descriptors);
      ghost var found := sections;
      var size := base.AddressBytes();
      offset := AppendSectionData(section, Zeros(3 * size), size);
      ghost var appended := sections;
      var bootstrap := TlvBootstrap();
      RelocatePointers(section, offset, bootstrap, init);
      DescriptorResult(base, found, appended, sections, section, id, init, bootstrap, offset);
    }

    /** The descriptor for a symbol and its initial value. */
    method MakeDescriptor(id: nat, init: nat) returns (offset: nat, section: nat)
      requires Valid() && Usable(base, State(), id) && HasThreadVars(base) && 0 < base.AddressBytes() <= 8
      requires init < |symbols|
      modifies this
      ensures Valid() && State() == Described(base, prefix, old(State()), id, init)
      ensures section == FoundIndex(old(State())) < |sections|
      ensures offset == descriptors[|old(descriptors)|].offset <= U64_MAX
    {
      hide Consistent, Translate, DescriptorsIn, Align, WithDescriptor, NewDescriptor, PointerFlags, Below,
           HasThreadVars;
      section := ThreadVarsSection();
      ThreadVarsKind(Contents(), tlvBootstrap, threadVars, descriptors);
      ghost var found := sections[section];
      ghost var d := NewDescriptor(base, found, id, init);
      NewDescriptorNames(base, found, id, init);
      offset := PlaceDescriptor(section, id, init);
      RecordDescriptor(found, d);
    }

    /**
     `macho_add_thread_var`: a thread-local symbol is made to point at a new descriptor, and the
     symbol for its initial value is returned. Any other symbol is returned unchanged.
     */
    method AddThreadVar(id: nat) returns (r: nat)
      requires Valid() && id < |symbols|
      requires symbols[id].kind.TlsSymbol? ==> HasThreadVars(base)
      requires threadVars.Some? ==> |sections[threadVars.value].data| <= U64_MAX / 2
      modifies this
      ensures Valid()
      ensures r == if old(symbols)[id].kind.TlsSymbol? then |old(symbols)| else id
      ensures Usable(base, old(State()), id) && State() == WithThreadVar(base, prefix, old(State()), id)
    {
      hide Consistent, HasThreadVars, WithDescriptor, NewDescriptor;
      BootstrapIn(Contents(), tlvBootstrap, threadVars, descriptors);
      SupportedSize(Contents(), id, tlvBootstrap, threadVars, descriptors);
      if !symbols[id].kind.TlsSymbol? {
        return id;
      }
      r := AddRawSymbol(InitSymbol(symbols[id].name));
      var offset, section := MakeDescriptor(id, r);
      PointSymbol(id, offset, section);
    }

    /** Makes a symbol refer to an offset in a section. */
    method PointSymbol(id: nat, offset: u64, section: nat)
      requires Valid() && id < |symbols| && section < |sections|
      modifies this`symbols
      ensures Valid()
      ensures symbols == old(symbols)[id := old(symbols)[id].(value := offset, section := InSection(section))]
    {
      hide Consistent;
      var symbol := symbols[id].(value := offset, section := InSection(section));
      ghost var before := Contents();
      PointedReadable(before, id, symbol, tlvBootstrap, threadVars, descriptors);
      symbols := symbols[id := symbol];
      assert Contents() == before.(symbols := symbols);
    }

    /** `set_symbol_data`: a thread-local symbol gets a descriptor, and its initial value the data. */
    method SetSymbolData(id: nat, section: nat, offset: u64)
      requires Valid() && id < |symbols| && section < |sections|
      requires symbols[id].kind.TlsSymbol? ==> HasThreadVars(base)
      requires threadVars.Some? ==> |sections[threadVars.value].data| <= U64_MAX / 2
      modifies this
      ensures Valid() && Usable(base, old(State()), id)
      ensures var after := WithThreadVar(base, prefix, old(State()), id);
        var target := if old(symbols)[id].kind.TlsSymbol? then |old(symbols)| else id;
        && target < |after.symbols|
        && State() == after.(symbols :=
          after.symbols[target := after.symbols[target].(value := offset, section := InSection(section))])
    {
      hide Consistent, Translate, DescriptorsIn, Align, WithThreadVar, Usable, HasThreadVars;
      BootstrapIn(Contents(), tlvBootstrap, threadVars, descriptors);
      SupportedSize(Contents(), id, tlvBootstrap, threadVars, descriptors);
      SupportedState(base, State(), id);
      Sizes(base, prefix, State(), id);
      var target := AddThreadVar(id);
      PointSymbol(target, offset, section);
    }
  }

  lemma SectionOf(o: Object, i: nat, b: Option<nat>, v: Option<nat>, ds: seq<Descriptor>)
    requires Consistent(o, b, v, ds) && i < |o.sections|
    ensures o.ValidSection(o.sections[i]) && RelocsEncodable(o, o.sections[i])
  {
  }

  lemma FreshSection(o: Object, s: Section)
    requires s.size == 0 && s.data == [] && s.align == 1 && s.relocations == []
    ensures o.ValidSection(s) && RelocsEncodable(o, s)
  {
    assert Bits.Pow2(0) == 1;
  }

  lemma AppendedSection(o: Object, i: nat, s': Section, b: Option<nat>, v: Option<nat>, ds: seq<Descriptor>)
    requires Consistent(o, b, v, ds) && i < |o.sections| && Extends(o.sections[i], s') && !s'.IsBss()
    requires s'.size == |s'.data| && s'.align > 0 && IsPowerOfTwo(s'.align)
    requires s'.relocations == o.sections[i].relocations
    ensures Consistent(o.(sections := o.sections[i := s']), b, v, ds)
  {
    assert o.ValidSection(o.sections[i]) && RelocsEncodable(o, o.sections[i]);
    ConsistentSection(o, b, v, ds, i, s');
  }

  /** An appended relocation keeps the object consistent if it is explicit only where that can be written. */
  lemma RelocatedSection(o: Object, i: nat, s': Section, b: Option<nat>, v: Option<nat>, ds: seq<Descriptor>)
    requires Consistent(o, b, v, ds) && i < |o.sections|
    requires var s := o.sections[i];
      && |s'.data| == |s.data| <= U64_MAX && s' == s.(data := s'.data, relocations := s'.relocations)
      && |s'.relocations| == |s.relocations| + 1 && s.relocations <= s'.relocations
      && var r := s'.relocations[|s.relocations|];
        r.symbol < |o.symbols| && r.flags.MachORelocation? && (r.addend != 0 ==> !IsImplicit(o.arch, r.flags))
    ensures Consistent(o.(sections := o.sections[i := s']), b, v, ds)
  {
    var s := o.sections[i];
    assert o.ValidSection(s) && RelocsEncodable(o, s);
    forall k | 0 <= k < |s'.relocations|
      ensures s'.relocations[k].symbol < |o.symbols| && Encodable(o, s'.relocations[k])
    {
      assert k < |s.relocations| ==> s'.relocations[k] == s.relocations[k];
    }
    ConsistentSection(o, b, v, ds, i, s');
  }

  /** The next descriptor of a section. */
  function NewDescriptor(o: Object, s: Section, id: nat, init: nat): Descriptor
    requires o.AddressBytes() > 0
  {
    Descriptor(id, init, Align(|s.data|, o.AddressBytes()), |s.relocations|)
  }

  lemma NewDescriptorNames(o: Object, s: Section, id: nat, init: nat)
    requires o.AddressBytes() > 0
    ensures NewDescriptor(o, s, id, init).symbol == id && NewDescriptor(o, s, id, init).init == init
  {
    hide Align;
  }

  /** The section with the zero-filled descriptor and its relocations at the end. */
  function WithDescriptor(o: Object, s: Section, d: Descriptor, bootstrap: nat): Section
    requires HasThreadVars(o) && |s.data| <= d.offset <= U64_MAX - 2 * o.AddressBytes()
  {
    var p := o.AddressBytes();
    var data := s.data + Zeros(d.offset - |s.data|) + Zeros(3 * p);
    s.(data := data, size := |data|, align := if s.align < p then p else s.align,
       relocations := s.relocations + [Relocation(d.offset, bootstrap, 0, PointerFlags(o)),
                                       Relocation(d.offset + 2 * p, d.init, 0, PointerFlags(o))])
  }

  lemma SupportedSize(o: Object, id: nat, b: Option<nat>, v: Option<nat>, ds: seq<Descriptor>)
    requires Consistent(o, b, v, ds) && id < |o.symbols|
    ensures o.ValidSymbol(o.symbols[id])
    ensures o.symbols[id].kind.TlsSymbol? ==> o.ValidSymbol(InitSymbol(o.symbols[id].name))
    ensures 0 < o.AddressBytes() <= 8
  {
    hide DescriptorsIn;
    assert o.ValidSymbol(o.symbols[id]);
  }

  lemma SupportedState(o: Object, before: State, id: nat)
    requires id < |before.symbols| && 0 < o.AddressBytes() <= 8
    requires before.symbols[id].kind.TlsSymbol? ==> HasThreadVars(o)
    requires before.threadVars.Some? ==>
      before.threadVars.value < |before.sections| && |before.sections[before.threadVars.value].data| <= U64_MAX / 2
    ensures Usable(o, before, id)
  {
  }

  lemma Sizes(o: Object, prefix: seq<byte>, before: State, id: nat)
    requires Usable(o, before, id)
    ensures |WithThreadVar(o, prefix, before, id).sections| >= |before.sections|
    ensures var after := WithThreadVar(o, prefix, before, id);
      |after.symbols| > (if before.symbols[id].kind.TlsSymbol? then |before.symbols| else id)
  {
    hide WithDescriptor, NewDescriptor;
  }

  lemma SameArchitecture(o: Object, o': Object, s: Section, d: Descriptor, b: nat)
    requires o'.arch == o.arch && o.AddressBytes() > 0 && HasThreadVars(o)
    requires |s.data| <= d.offset <= U64_MAX - 2 * o.AddressBytes()
    ensures HasThreadVars(o') && NewDescriptor(o', s, d.symbol, d.init) == NewDescriptor(o, s, d.symbol, d.init)
    ensures WithDescriptor(o', s, d, b) == WithDescriptor(o, s, d, b)
  {
    hide Align, Translate;
  }

  /** The appended data and the two relocations make up the descriptor. */
  lemma DescriptorResult(o: Object, found: seq<Section>, appended: seq<Section>, sections: seq<Section>,
                         v: nat, id: nat, init: nat, b: nat, offset: nat)
    requires HasThreadVars(o) && 0 < o.AddressBytes() <= 8 && v < |found| && |found[v].data| <= U64_MAX / 2
    requires offset == Align(|found[v].data|, o.AddressBytes())
    requires var s, p := found[v], o.AddressBytes();
      var data := s.data + Zeros(offset - |s.data|) + Zeros(3 * p);
      && appended == found[v := s.(data := data, size := |data|, align := if s.align < p then p else s.align)]
      && offset + 2 * p <= U64_MAX
      && sections == appended[v := appended[v].(relocations := appended[v].relocations + [
          Relocation(offset, b, 0, PointerFlags(o)), Relocation(offset + 2 * p, init, 0, PointerFlags(o))])]
    ensures var d := NewDescriptor(o, found[v], id, init);
      && d.offset == offset && d.symbol == id && d.init == init
      && sections == found[v := WithDescriptor(o, found[v], d, b)]
  {
    hide Align, Translate;
  }

  lemma BootstrapIn(o: Object, b: Option<nat>, v: Option<nat>, ds: seq<Descriptor>)
    requires Consistent(o, b, v, ds)
    ensures b.Some? ==> b.value < |o.symbols|
    ensures v.Some? ==> v.value < |o.sections|
  {
  }

  lemma ThreadVarsKind(o: Object, b: Option<nat>, v: Option<nat>, ds: seq<Descriptor>)
    requires Consistent(o, b, v, ds) && v.Some?
    ensures v.value < |o.sections| && !o.sections[v.value].IsBss()
    ensures o.AddressBytes() in {1, 2, 4, 8} && o.AddressBytes() > 0 && IsPowerOfTwo(o.AddressBytes())
    ensures Below(ds, o.AddressBytes(), |o.sections[v.value].data|)
  {
    assert Bits.Pow2(0) == 1 && Bits.Pow2(1) == 2 && Bits.Pow2(2) == 4 && Bits.Pow2(3) == 8;
    forall i | 0 <= i < |ds|
      ensures ds[i].offset + 3 * o.AddressBytes() <= |o.sections[v.value].data|
    {
      assert DescriptorIn(o, o.sections[v.value], b.value, ds[i]);
    }
  }

  ghost predicate Below(ds: seq<Descriptor>, p: nat, end: nat)
  {
    forall i :: 0 <= i < |ds| ==> ds[i].offset + 3 * p <= end
  }

  lemma PointerRelocation(o: Object)
    requires HasThreadVars(o)
    ensures var f := Translate(o.arch, PointerRequest(o)).value;
      f.MachORelocation? && PcOffset(o.arch, f) == 0 && IsImplicit(o.arch, f)
  {
  }

  lemma PointedReadable(o: Object, id: nat, s: Symbol, b: Option<nat>, v: Option<nat>, ds: seq<Descriptor>)
    requires Consistent(o, b, v, ds) && id < |o.symbols|
    requires s.section.InSection? && s.section.id < |o.sections|
    requires s == o.symbols[id].(value := s.value, section := s.section)
    ensures Consistent(o.(symbols := o.symbols[id := s]), b, v, ds)
  {
    hide DescriptorsIn, Buildable;
    NamedSymbol(o, id);
    ConsistentSymbols(o, b, v, b, ds, o.symbols[id := s]);
  }

  lemma NamedSymbol(o: Object, id: nat)
    requires Buildable(o) && id < |o.symbols|
    ensures o.ValidSymbol(o.symbols[id])
  {
  }

  lemma DescriptorSnoc(o: Object, b: Option<nat>, v: Option<nat>, ds: seq<Descriptor>, s: Section, d: Descriptor)
    requires Consistent(o, b, v, ds) && b.Some? && v.Some? && HasThreadVars(o) && o.AddressBytes() > 0
    requires Below(ds, o.AddressBytes(), |s.data|) && |s.data| <= U64_MAX / 2
    requires o.AddressBytes() <= 8
    requires d.symbol < |o.symbols| && d.init < |o.symbols| && d == NewDescriptor(o, s, d.symbol, d.init)
    requires o.sections[v.value] == WithDescriptor(o, s, d, b.value)
    ensures Consistent(o, b, v, ds + [d])
  {
    hide Buildable, Translate;
    var s' := o.sections[v.value];
    assert DescriptorIn(o, s', b.value, d);
    var ds' := ds + [d];
    forall i | 0 <= i < |ds'|
      ensures DescriptorIn(o, s', b.value, ds'[i])
    {
      if i < |ds| {
        assert DescriptorIn(o, s', b.value, ds[i]);
      }
    }
  }

  /** What becomes of the addend: kept in the entry, or readable in the section data, the rest of which is unchanged. */
  lemma AddendKept(endian: Endian, arch: Architecture, s: Section, offset: u64, symbol: nat, addend: int,
                   flags: RelocationFlags)
    requires flags.MachORelocation? && Relocated(endian, arch, s, offset, symbol, addend, flags).Some?
    ensures var s', adjusted := Relocated(endian, arch, s, offset, symbol, addend, flags).value,
                                addend + PcOffset(arch, flags);
      && |s'.relocations| == |s.relocations| + 1 && s'.relocations[..|s.relocations|] == s.relocations
      && s'.relocations[|s.relocations|].addend == (if IsImplicit(arch, flags) then 0 else adjusted)
      && if IsImplicit(arch, flags) && adjusted != 0
         then AddendSize(flags).Some? && var n := AddendSize(flags).value;
           && |s'.data| == |s.data| && offset + n <= |s.data|
           && Get(endian, s'.data[offset..offset + n]) == adjusted % Capacity(n)
           && s'.data[..offset] == s.data[..offset] && s'.data[offset + n..] == s.data[offset + n..]
         else s'.data == s.data
  {
    hide Put, Get, Capacity, PcOffset, IsImplicit;
    var adjusted := addend + PcOffset(arch, flags);
    if IsImplicit(arch, flags) && adjusted != 0 && AddendSize(flags).Some? {
      var n := AddendSize(flags).value;
      UnsignedBound(adjusted, n);
      GetPutFits(endian, Unsigned(adjusted, n), n);
    }
  }

  lemma UnsignedBound(x: int, n: nat)
    ensures Unsigned(x, n) < Capacity(n)
  {
  }

  // ---------------------------------------------------------------------------------------------
  // From a request to the reader.

  /**
   The reader takes from the addend of a relative relocation what the builder has added to it exactly
   when the relocation is four bytes long, or on an architecture without this adjustment.
   */
  lemma AdjustmentsCancel(o: Object, flags: RelocationFlags, cpu: bv32)
    requires flags.MachORelocation? && flags.r_length < 4 && MachORelocReader.CpuMatches(o, cpu)
    ensures PcOffset(o.arch, flags) == MachORelocReader.PcAdjust(cpu, flags.r_pcrel, flags.r_length, flags.r_type) <==>
            !flags.r_pcrel || !(o.arch.I386? || o.arch.X86_64?) || flags.r_length == 2
  {
  }

  /** The sizes of an object fit the fields of relocation entries. */
  predicate Numerable(o: Object)
  {
    |MachOSymbols.Order(o.symbols)| <= 0x100_0000 && |o.sections| < 0x100_0000
  }

  /**
   An object that was built from requests by kind, encoding and size: in a little-endian file, the
   reader reports every relocation of every section, in order, if the addresses are below 2^31.
   */
  lemma BuiltReadsBack(o: Object, t: MachOWrite.Strtab, file: seq<byte>, i: nat)
    requires Buildable(o) && AllNarrow(o.sections) && Numerable(o) && o.endian.Little?
    requires MachOWrite.Wrote(o, t, file) && MachOReadBack.Fits(o, t) && i < |o.sections|
    requires forall k :: 0 <= k < |o.sections[i].relocations| ==> o.sections[i].relocations[k].offset < 0x8000_0000
    ensures var rs, cpu := o.sections[i].relocations, MachOReadBack.HeaderCpu(o.endian, file);
      && AllEncodable(o, rs) && MachORelocReader.AllReadable(o, Emitted(rs))
      && MachORelocReader.Items(MachORelocReader.BlockOf(o, file, i), true, cpu, 0)
         == MachORelocReader.ItemsOf(o, Emitted(rs), cpu)
      && |MachORelocReader.ItemsOf(o, Emitted(rs), cpu)| == |rs|
  {
    hide MachOWrite.Wrote, MachOReadBack.Fits, MachORelocReader.Items, MachORelocReader.ItemsOf,
         MachORelocReader.BlockOf, Emitted, MachORelocReader.AllReadable, Encodable, MachOSymbols.Order, Buildable;
    var rs := o.sections[i].relocations;
    BuiltEncodable(o, i);
    forall k | 0 <= k < |rs|
      ensures MachORelocReader.Readable(o, rs[k])
    {
      assert Narrow(o.sections[i].relocations[k].flags);
    }
    MachORelocReader.SectionRelocationsReadBack(o, t, file, i);
    forall k | 0 <= k < |rs|
      ensures Emitted(rs)[k].offset < 0x8000_0000
    {
      MachOWrite.EmittedSource(rs, k);
    }
    AllVisible(o, Emitted(rs), MachOReadBack.HeaderCpu(o.endian, file));
  }

  lemma BuiltEncodable(o: Object, i: nat)
    requires Buildable(o) && i < |o.sections|
    ensures AllEncodable(o, o.sections[i].relocations)
  {
    assert o.ValidSection(o.sections[i]) && RelocsEncodable(o, o.sections[i]);
  }

  lemma {:induction false} AllVisible(o: Object, rs: seq<Relocation>, cpu: bv32)
    requires MachORelocReader.AllReadable(o, rs) && forall k :: 0 <= k < |rs| ==> rs[k].offset < 0x8000_0000
    ensures |MachORelocReader.ItemsOf(o, rs, cpu)| == |rs|
  {
    hide MachORelocReader.ItemOf, MainEntry, MachORelocReader.Readable, Encodable;
    if rs != [] {
      AllVisible(o, rs[..|rs| - 1], cpu);
    }
  }
}
