/** The object model that the Mach-O writer reads, and the on-disk structures that it emits. */
module MachO {
  import opened Prelude
  import opened Endian
  import Bits

  datatype Architecture =
    | Aarch64 | Aarch64_Ilp32 | Arm | I386 | X86_64 | PowerPc | PowerPc64
    | OtherArchitecture(addressBytes: nat)

  datatype SubArchitecture = NoSub | Arm64E | OtherSub

  datatype SectionKind =
    | UnknownSection | Text | Data | ReadOnlyData | ReadOnlyDataWithRel | ReadOnlyString
    | UninitializedData | Common | Tls | UninitializedTls | TlsVariables | OtherString
    | Other | Debug | DebugString | Linker | Note | Metadata | Elf

  datatype SectionFlags = NoSectionFlags | MachOSection(flags: nat) | OtherSection

  datatype RelocationFlags = MachORelocation(r_type: byte, r_pcrel: bool, r_length: byte) | OtherRelocation

  /** `addend` is an `i64`. */
  datatype Relocation = Relocation(offset: u64, symbol: nat, addend: int, flags: RelocationFlags)

  datatype Section = Section(
    segment: seq<byte>, name: seq<byte>, kind: SectionKind, size: nat, align: nat,
    data: seq<byte>, relocations: seq<Relocation>, flags: SectionFlags)
  {
    predicate IsBss()
    {
      kind.UninitializedData? || kind.UninitializedTls? || kind.Common?
    }
  }

  datatype SymbolKind = UnknownSymbol | TextSymbol | DataSymbol | SectionSymbol | FileSymbol | LabelSymbol | TlsSymbol

  datatype SymbolScope = UnknownScope | Compilation | Linkage | Dynamic

  datatype SymbolSection = NoSection | Undefined | Absolute | CommonSection | InSection(id: nat)

  datatype SymbolFlags = NoSymbolFlags | MachOSymbol(n_desc: nat) | OtherSymbol

  datatype Symbol = Symbol(
    name: seq<byte>, value: u64, kind: SymbolKind, scope: SymbolScope, weak: bool,
    section: SymbolSection, flags: SymbolFlags)
  {
    /** Symbols that get an entry in the symbol table. */
    predicate IsEmitted()
    {
      kind.TextSymbol? || kind.DataSymbol? || kind.TlsSymbol? || kind.UnknownSymbol?
    }

    predicate IsUndefined()
    {
      section.Undefined?
    }

    predicate IsLocal()
    {
      scope.Compilation?
    }
  }

  datatype BuildVersion = BuildVersion(platform: nat, minos: nat, sdk: nat)

  /** Alignments are powers of two that a `u64` can hold. */
  ghost predicate IsPowerOfTwo(n: nat)
  {
    exists k: nat :: k < 64 && n == Bits.Pow2(k)
  }

  datatype Object = Object(
    arch: Architecture, sub: SubArchitecture, endian: Endian,
    sections: seq<Section>, symbols: seq<Symbol>,
    fileFlags: Option<nat>, subsectionsViaSymbols: bool,
    cpuSubtype: Option<nat>, buildVersion: Option<BuildVersion>)
  {
    /** `address_size` in bytes. */
    function AddressBytes(): nat
    {
      match arch
      case Aarch64 | X86_64 | PowerPc64 => 8
      case Aarch64_Ilp32 | Arm | I386 | PowerPc => 4
      case OtherArchitecture(n) => n
    }

    predicate Is64()
    {
      AddressBytes() == 8
    }

    /** The width of address fields. */
    function Word(): (w: nat)
      ensures w == 4 || w == 8
    {
      if Is64() then 8 else 4
    }

    /** What the builder of an object guarantees: its identifiers refer to what it created. */
    ghost predicate Valid()
    {
      && AddressBytes() in {1, 2, 4, 8}
      && (forall i :: 0 <= i < |sections| ==> ValidSection(sections[i]))
      && (forall i :: 0 <= i < |symbols| ==> ValidSymbol(symbols[i]))
    }

    ghost predicate ValidSection(s: Section)
    {
      && s.align > 0 && IsPowerOfTwo(s.align)
      && (if s.IsBss() then s.data == [] else |s.data| == s.size)
      && forall k :: 0 <= k < |s.relocations| ==> s.relocations[k].symbol < |symbols|
    }

    ghost predicate ValidSymbol(s: Symbol)
    {
      && (s.IsEmitted() ==> 0 !in s.name)
      && (s.section.InSection? ==> s.section.id < |sections|)
      && (s.kind.SectionSymbol? ==> s.section.InSection?)
    }
  }

  // ---------------------------------------------------------------------------------------------
  // Tables.

  /** The CPU type and subtype, when the architecture is supported. */
  function CpuType(arch: Architecture, sub: SubArchitecture): Option<(nat, nat)>
  {
    match (arch, sub)
    case (Arm, NoSub) => Some((12, 0))
    case (Aarch64, NoSub) => Some((0x100_000c, 0))
    case (Aarch64, Arm64E) => Some((0x100_000c, 2))
    case (Aarch64_Ilp32, NoSub) => Some((0x200_000c, 1))
    case (I386, NoSub) => Some((7, 3))
    case (X86_64, NoSub) => Some((0x100_0007, 3))
    case (PowerPc, NoSub) => Some((18, 0))
    case (PowerPc64, NoSub) => Some((0x100_0012, 0))
    case _ => None
  }

  /** `macho_section_flags` */
  function DefaultSectionFlags(kind: SectionKind): Option<nat>
  {
    match kind
    case Text => Some(0x8000_0400)
    case Data | ReadOnlyData | ReadOnlyDataWithRel => Some(0)
    case ReadOnlyString | OtherString => Some(0x2)
    case UninitializedData | Common => Some(0x1)
    case Tls => Some(0x11)
    case UninitializedTls => Some(0x12)
    case TlsVariables => Some(0x13)
    case Debug | DebugString => Some(0x200_0000)
    case Other | Linker | Metadata => Some(0)
    case Note | UnknownSection | Elf => None
  }

  /** `section_flags` */
  function FlagsOfSection(s: Section): Option<nat>
  {
    match s.flags
    case NoSectionFlags => DefaultSectionFlags(s.kind)
    case MachOSection(flags) => Some(flags)
    case OtherSection => None
  }

  const N_EXT: nat := 0x01
  const N_PEXT: nat := 0x10
  const N_UNDF: nat := 0x0
  const N_ABS: nat := 0x2
  const N_SECT: nat := 0xe

  /** `n_type` and `n_sect`: the type bits of the section, and the external bits of the scope. */
  function NlistType(s: Symbol): Option<(byte, nat)>
  {
    var ext :=
      match s.scope
      case UnknownScope | Compilation => 0
      case Linkage => N_EXT + N_PEXT
      case Dynamic => N_EXT;
    match s.section
    case Undefined => Some((N_UNDF + (if ext == 0 then N_EXT else ext), 0))
    case Absolute => Some((N_ABS + ext, 0))
    case InSection(id) => Some((N_SECT + ext, id + 1))
    case NoSection | CommonSection => None
  }

  /** `symbol_flags` */
  function NlistDesc(s: Symbol): Option<nat>
  {
    match s.flags
    case NoSymbolFlags => Some(if !s.weak then 0 else if s.IsUndefined() then 0x40 else 0x80)
    case MachOSymbol(n_desc) => Some(n_desc)
    case OtherSymbol => None
  }

  // ---------------------------------------------------------------------------------------------
  // Structures.

  function Zeros(n: nat): (s: seq<byte>)
    ensures |s| == n && forall i :: 0 <= i < n ==> s[i] == 0
  {
    seq(n, _ => 0)
  }

  /** A fixed-size name field. */
  function Name16(s: seq<byte>): (r: seq<byte>)
    requires |s| <= 16
    ensures |r| == 16
  {
    s + Zeros(16 - |s|)
  }

  function HeaderSize(o: Object): nat
  {
    if o.Is64() then 32 else 28
  }

  function SegmentSize(o: Object): nat
  {
    40 + 4 * o.Word()
  }

  function SectionSize(o: Object): nat
  {
    if o.Is64() then 80 else 68
  }

  function NlistSize(o: Object): nat
  {
    8 + o.Word()
  }

  const BUILD_VERSION_SIZE: nat := 24
  const SYMTAB_SIZE: nat := 24
  const DYSYMTAB_SIZE: nat := 80
  const RELOCATION_SIZE: nat := 8

  function Magic(o: Object): nat
  {
    match o.endian
    case Big => if o.Is64() then 0xfeed_facf else 0xfeed_face
    case Little => if o.Is64() then 0xcffa_edfe else 0xcefa_edfe
  }

  const MH_OBJECT: nat := 1

  function HeaderBytes(o: Object, cpu: (nat, nat), ncmds: nat, sizeofcmds: nat, flags: nat): (s: seq<byte>)
    ensures |s| == HeaderSize(o)
  {
    Put(Big, Magic(o), 4) +
    PutWords(o.endian, [cpu.0, cpu.1, MH_OBJECT, ncmds, sizeofcmds, flags] + (if o.Is64() then [0] else []), 4)
  }

  const LC_SEGMENT: nat := 0x1
  const LC_SEGMENT_64: nat := 0x19
  const LC_SYMTAB: nat := 0x2
  const LC_DYSYMTAB: nat := 0xb
  const LC_BUILD_VERSION: nat := 0x32

  function SegmentBytes(o: Object, cmdsize: nat, vmsize: nat, fileoff: nat, filesize: nat, nsects: nat): (s: seq<byte>)
    ensures |s| == SegmentSize(o)
  {
    PutWords(o.endian, [if o.Is64() then LC_SEGMENT_64 else LC_SEGMENT, cmdsize], 4) +
    (Zeros(16) +
     (PutWords(o.endian, [0, vmsize, fileoff, filesize], o.Word()) + PutWords(o.endian, [7, 7, nsects, 0], 4)))
  }

  function SectionBytes(o: Object, name: seq<byte>, segment: seq<byte>, addr: nat, size: nat, offset: nat, align: nat,
                        reloff: nat, nreloc: nat, flags: nat): (s: seq<byte>)
    requires |name| <= 16 && |segment| <= 16
    ensures |s| == SectionSize(o)
  {
    Name16(name) +
    (Name16(segment) +
     (PutWords(o.endian, [addr, size], o.Word()) +
      PutWords(o.endian, [offset, align, reloff, nreloc, flags, 0, 0] + (if o.Is64() then [0] else []), 4)))
  }

  function BuildVersionBytes(o: Object, v: BuildVersion): (s: seq<byte>)
    ensures |s| == BUILD_VERSION_SIZE
  {
    PutWords(o.endian, [LC_BUILD_VERSION, BUILD_VERSION_SIZE, v.platform, v.minos, v.sdk, 0], 4)
  }

  function SymtabBytes(o: Object, symoff: nat, nsyms: nat, stroff: nat, strsize: nat): (s: seq<byte>)
    ensures |s| == SYMTAB_SIZE
  {
    PutWords(o.endian, [LC_SYMTAB, SYMTAB_SIZE, symoff, nsyms, stroff, strsize], 4)
  }

  function DysymtabBytes(o: Object, nlocal: nat, nextdef: nat, nundef: nat): (s: seq<byte>)
    ensures |s| == DYSYMTAB_SIZE
  {
    PutWords(o.endian, [LC_DYSYMTAB, DYSYMTAB_SIZE, 0, nlocal, nlocal, nextdef, nlocal + nextdef, nundef], 4)
    + Zeros(48)
  }

  function NlistBytes(o: Object, strx: nat, typ: byte, sect: nat, desc: nat, value: nat): (s: seq<byte>)
    ensures |s| == NlistSize(o)
  {
    Put(o.endian, strx, 4) + ([typ] + (Put(o.endian, sect, 1) + (Put(o.endian, desc, 2) +
    Put(o.endian, value, o.Word()))))
  }

  /** Where a record says that a field is. */
  ghost predicate HasWord(e: Endian, s: seq<byte>, at: nat, w: nat, v: nat)
  {
    at + w <= |s| && s[at..at + w] == Put(e, v, w)
  }

  lemma {:induction false} WordAt(e: Endian, v: seq<nat>, w: nat, k: nat)
    requires k < |v|
    ensures k * w + w <= |v| * w
    ensures PutWords(e, v, w)[k * w..k * w + w] == Put(e, v[k], w)
  {
    hide Put;
    WordBounds(k, |v|, w);
    var t := PutWords(e, v[1..], w);
    if k > 0 {
      WordAt(e, v[1..], w, k - 1);
      var a := (k - 1) * w;
      assert k * w == w + a;
      SliceOfConcat(Put(e, v[0], w), t, a, a + w);
    }
  }

  lemma WordBounds(k: nat, n: nat, w: nat)
    requires k < n
    ensures k * w + w <= n * w
  {
    assert (n - k - 1) * w >= 0;
    assert n * w == k * w + w + (n - k - 1) * w;
  }

  lemma SliceOfConcat(s: seq<byte>, t: seq<byte>, a: nat, b: nat)
    requires a <= b <= |t|
    ensures (s + t)[|s| + a..|s| + b] == t[a..b]
  {
  }
}
