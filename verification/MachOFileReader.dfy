/**
 What the Mach-O reader reports about a file that the writer has made: its architecture, the data of
 its sections, and its symbols. The reader decides by the bits of the fields that it finds.
 */
module MachOFileReader {
  import opened Prelude
  import opened Endian
  import opened MachO
  import opened MachOLayout
  import opened MachOWrite
  import opened MachOReadBack
  import opened ReadRef
  import Bits
  import MachORelocs
  import MachOSymbols
  import StringTable

  // ---------------------------------------------------------------------------------------------
  // Symbols.

  datatype ReadSection = UnknownPlace | UndefinedPlace | AbsolutePlace | Ordinal(index: nat)

  /** A symbol as the reader reports it. */
  datatype ReadSymbol = ReadSymbol(
    index: nat, name: Result<seq<byte>>, address: nat, section: ReadSection, scope: SymbolScope,
    weak: bool, undefined: bool, definition: bool)

  /** What the symbol table command says, with the byte order and the word size of the file. */
  datatype SymbolTable = SymbolTable(endian: Endian, word: nat, symoff: nat, nsyms: nat, stroff: nat, strsize: nat)

  function TableAt(e: Endian, word: nat, file: seq<byte>, command: nat): SymbolTable
  {
    SymbolTable(e, word, Field(e, file, command + 8, 4), Field(e, file, command + 12, 4),
                Field(e, file, command + 16, 4), Field(e, file, command + 20, 4))
  }

  const N_STAB_BITS: nat := 0xe0
  const N_PEXT_BIT: nat := 0x10
  const N_TYPE_BITS: nat := 0x0e
  const N_EXT_BIT: nat := 0x01
  const WEAK_BITS: nat := 0xc0

  function SectionOf(n_type: nat, n_sect: nat): ReadSection
  {
    match Bits.And(n_type, N_TYPE_BITS)
    case 0 => UndefinedPlace
    case 2 => AbsolutePlace
    case 14 => if n_sect != 0 then Ordinal(n_sect) else UnknownPlace
    case _ => UnknownPlace
  }

  function ScopeOf(n_type: nat): SymbolScope
  {
    if Bits.And(n_type, N_TYPE_BITS) == 0 then UnknownScope
    else if Bits.And(n_type, N_EXT_BIT) == 0 then Compilation
    else if Bits.And(n_type, N_PEXT_BIT) != 0 then Linkage
    else Dynamic
  }

  /** Entry `k` of the table, unless it is a debugging entry. */
  function SymbolAt(file: seq<byte>, table: SymbolTable, k: nat): Option<ReadSymbol>
  {
    var e, at := table.endian, table.symoff + TableSize(k, 8 + table.word);
    var strx, n_type, n_sect := Field(e, file, at, 4), Field(e, file, at + 4, 1), Field(e, file, at + 5, 1);
    if Bits.And(n_type, N_STAB_BITS) != 0 then None
    else
      Some(ReadSymbol(k, BytesUntil(file, table.stroff + strx, table.stroff + table.strsize, 0),
                      Field(e, file, at + 8, table.word), SectionOf(n_type, n_sect), ScopeOf(n_type),
                      Bits.And(Field(e, file, at + 6, 2), WEAK_BITS) != 0,
                      Bits.And(n_type, N_TYPE_BITS) == 0, Bits.And(n_type, N_TYPE_BITS) == 0xe))
  }

  /** The symbols from entry `k` on. */
  function SymbolsFrom(file: seq<byte>, table: SymbolTable, k: nat): seq<ReadSymbol>
    decreases table.nsyms - k
  {
    if k >= table.nsyms then []
    else
      var s := SymbolAt(file, table, k);
      (if s.Some? then [s.value] else []) + SymbolsFrom(file, table, k + 1)
  }

  /** `MachOSymbolIterator` */
  class MachOSymbolIterator {
    const file: seq<byte>
    const table: SymbolTable
    var index: nat

    constructor (file: seq<byte>, table: SymbolTable)
      ensures this.file == file && this.table == table && index == 0
    {
      this.file, this.table, index := file, table, 0;
    }

    /** The next symbol that is not a debugging entry. */
    method Next() returns (symbol: Option<ReadSymbol>)
      modifies this
      ensures SymbolsFrom(file, table, old(index)) ==
              if symbol.None? then [] else [symbol.value] + SymbolsFrom(file, table, index)
      ensures old(index) <= index && (symbol.Some? ==> old(index) < index <= table.nsyms)
    {
      hide SymbolAt;
      while index < table.nsyms
        invariant old(index) <= index
        invariant SymbolsFrom(file, table, index) == SymbolsFrom(file, table, old(index))
      {
        symbol := SymbolAt(file, table, index);
        index := index + 1;
        if symbol.Some? {
          return;
        }
      }
      symbol := None;
    }

    /** Draining the iterator. */
    method Collect() returns (symbols: seq<ReadSymbol>)
      modifies this
      ensures symbols == SymbolsFrom(file, table, old(index))
    {
      hide SymbolsFrom;
      symbols := [];
      var symbol := Next();
      while symbol.Some?
        invariant symbols + (if symbol.Some? then [symbol.value] + SymbolsFrom(file, table, index) else [])
                  == SymbolsFrom(file, table, old(index))
        invariant symbol.Some? ==> index <= table.nsyms
        decreases symbol.Some?, table.nsyms - index
      {
        symbols := symbols + [symbol.value];
        symbol := Next();
      }
    }
  }

  /** The bits of the type byte of a symbol. */
  lemma TypeBits(s: Symbol)
    requires NlistType(s).Some?
    ensures var n_type := NlistType(s).value.0;
      && Bits.And(n_type, 0xe0) == 0
      && (Bits.And(n_type, 0x0e) == 0 <==> s.section.Undefined?)
      && (Bits.And(n_type, 0x0e) == 2 <==> s.section.Absolute?)
      && (Bits.And(n_type, 0x0e) == 0xe <==> s.section.InSection?)
      && (Bits.And(n_type, 0x01) != 0 <==> s.section.Undefined? || s.scope.Linkage? || s.scope.Dynamic?)
      && (Bits.And(n_type, 0x10) != 0 <==> s.scope.Linkage?)
    ensures NlistType(s).value.1 == if s.section.InSection? then s.section.id + 1 else 0
  {
    hide Bits.And;
    TypeMasks(NlistType(s).value.0);
  }

  /** The masks of a type byte without debugging bits, as arithmetic. */
  lemma TypeMasks(n: nat)
    requires n < 0x20
    ensures Bits.And(n, 0xe0) == 0 && Bits.And(n, 0x0e) == n / 2 % 8 * 2
    ensures Bits.And(n, 0x01) == n % 2 && Bits.And(n, 0x10) == n / 0x10 % 2 * 0x10
  {
    hide Bits.And;
    Bits.Pow2Small();
    Bits.AndBit(n, 0);
    Bits.AndBit(n, 4);
    assert Bits.Pow2(3) == 8;
    Bits.AndMask(n / 2, 3);
    Bits.AndEven(n, 0x0e);
    HighMask(n);
  }

  lemma HighMask(n: nat)
    requires n < 0x20
    ensures Bits.And(n, 0xe0) == 0
  {
    hide Bits.And;
    Bits.AndEven(n, 0xe0);
    Bits.AndEven(n / 2, 0x70);
    Bits.AndEven(n / 4, 0x38);
    Bits.AndEven(n / 8, 0x1c);
    Bits.AndEven(n / 0x10, 0x0e);
    AndZero(7);
  }

  lemma AndZero(b: nat)
    ensures Bits.And(0, b) == 0
  {
  }

  /** The bits of the description of a symbol that has no flags of its own. */
  lemma DescBits(s: Symbol)
    requires s.flags.NoSymbolFlags?
    ensures NlistDesc(s).Some? && NlistDesc(s).value < 0x1_0000
    ensures Bits.And(NlistDesc(s).value, 0x40) != 0 <==> s.weak && s.section.Undefined?
    ensures Bits.And(NlistDesc(s).value, 0x80) != 0 <==> s.weak && !s.section.Undefined?
    ensures Bits.And(NlistDesc(s).value, 0xc0) != 0 <==> s.weak
  {
    hide Bits.And;
    WeakBits();
  }

  lemma WeakBits()
    ensures Bits.And(0, 0x40) == 0 && Bits.And(0, 0x80) == 0 && Bits.And(0, 0xc0) == 0
    ensures Bits.And(0x40, 0x40) == 0x40 && Bits.And(0x40, 0x80) == 0 && Bits.And(0x40, 0xc0) == 0x40
    ensures Bits.And(0x80, 0x40) == 0 && Bits.And(0x80, 0x80) == 0x80 && Bits.And(0x80, 0xc0) == 0x80
  {
    hide Bits.And;
    Bits.Pow2Small();
    assert Bits.Pow2(2) == 4;
    Bits.AndBit(0, 6);
    Bits.AndBit(0x40, 6);
    Bits.AndBit(0x80, 6);
    Bits.AndBit(0, 7);
    Bits.AndBit(0x40, 7);
    Bits.AndBit(0x80, 7);
    WeakMask(0);
    WeakMask(1);
    WeakMask(2);
  }

  /** Two bits from bit 6 up. */
  lemma WeakMask(n: nat)
    requires n < 4
    ensures Bits.And(n * 0x40, 0xc0) == n * 0x40
  {
    hide Bits.And, Bits.Pow2;
    Bits.Pow2Small();
    Pow2Two();
    Bits.AndMask(n, 2);
    Bits.AndHigh(n * 0x40, n, 0, 0xc0, 3, n, 6, 0x40);
  }

  lemma Pow2Two()
    ensures Bits.Pow2(2) == 4
  {
  }

  /** `s` has what its fields can hold: flags of its own are 16 bits wide. */
  predicate DescFits(s: Symbol)
  {
    s.flags.MachOSymbol? ==> s.flags.n_desc < 0x1_0000
  }

  /** The symbol that the reader makes of an entry. */
  lemma EntryMeaning(o: Object, file: seq<byte>, table: SymbolTable, k: nat, s: Symbol)
    requires Sound(o) && table.word == o.Word() && table.endian == o.endian && DescFits(s)
    requires EntryOf(o, file, table.symoff + TableSize(k, NlistSize(o)), s)
    ensures var r := SymbolAt(file, table, k);
      && r.Some? && r.value.index == k
      && (r.value.section.UndefinedPlace? <==> s.section.Undefined?)
      && (r.value.section.AbsolutePlace? <==> s.section.Absolute?)
      && (s.section.InSection? ==>
           var n := (s.section.id + 1) % 0x100;
           r.value.section == if n == 0 then UnknownPlace else Ordinal(n))
      && r.value.undefined == s.section.Undefined? && r.value.definition == s.section.InSection?
      && r.value.scope == (
        if s.section.Undefined? then UnknownScope else if s.scope.UnknownScope? then Compilation else s.scope)
      && (s.flags.NoSymbolFlags? ==> r.value.weak == s.weak)
      && (s.flags.MachOSymbol? ==> r.value.weak == (Bits.And(s.flags.n_desc, 0xc0) != 0))
      && r.value.address == NlistValue(o, s) % Capacity(o.Word())
  {
    hide Bits.And, NlistType, NlistDesc, Field, BytesUntil, NlistValue, Capacity, TableSize;
    var at := table.symoff + TableSize(k, NlistSize(o));
    TypeBits(s);
    ByteField(o.endian, file, at + 4);
    DescValue(s);
    if s.flags.NoSymbolFlags? {
      DescBits(s);
    }
  }

  lemma ByteField(e: Endian, file: seq<byte>, at: nat)
    requires at < |file|
    ensures Field(e, file, at, 1) == file[at]
  {
    var s := file[at..at + 1];
    assert s == [file[at]] && s[1..] == [] && s[..0] == [];
    assert Get(e, []) == 0;
  }

  lemma DescValue(s: Symbol)
    requires NlistDesc(s).Some? && DescFits(s)
    ensures NlistDesc(s).value < 0x1_0000
    ensures s.flags.MachOSymbol? ==> NlistDesc(s).value == s.flags.n_desc
    ensures s.flags.MachOSymbol? || s.flags.NoSymbolFlags?
  {
  }

  /**
   From the symbol table command of a finished file, the reader makes of entry `k` the symbol that is
   numbered `k`: its name, its section by ordinal, which has one byte, its address behind that of its
   section, its scope, and whether it is weak, undefined or a definition.
   */
  lemma SymbolReported(o: Object, t: Strtab, file: seq<byte>, k: nat)
    requires Wrote(o, t, file) && Fits(o, t) && k < SymbolCount(o)
    requires forall i :: 0 <= i < |o.symbols| ==> DescFits(o.symbols[i])
    ensures MachOSymbols.Order(o.symbols)[k] < |o.symbols|
    ensures var table, s := TableAt(o.endian, o.Word(), file, SymtabAt(o)), o.symbols[MachOSymbols.Order(o.symbols)[k]];
      var r := SymbolAt(file, table, k);
      && table.nsyms == SymbolCount(o)
      && r.Some? && r.value.index == k && r.value.name == Ok(s.name)
      && (r.value.section.UndefinedPlace? <==> s.section.Undefined?)
      && (r.value.section.AbsolutePlace? <==> s.section.Absolute?)
      && (s.section.InSection? ==> s.section.id < |o.sections|)
      && (s.section.InSection? ==> (r.value.section == Ordinal(s.section.id + 1) <==> s.section.id < 0xff))
      && (s.section == InSection(0xff) ==> r.value.section == UnknownPlace)
      && r.value.undefined == s.section.Undefined? && r.value.definition == s.section.InSection?
      && (r.value.scope.UnknownScope? <==> s.section.Undefined?)
      && (!s.section.Undefined? ==> (r.value.scope.Compilation? <==> s.scope.UnknownScope? || s.scope.Compilation?))
      && (!s.section.Undefined? ==> (r.value.scope.Linkage? <==> s.scope.Linkage?))
      && (!s.section.Undefined? ==> (r.value.scope.Dynamic? <==> s.scope.Dynamic?))
      && (s.flags.NoSymbolFlags? ==> r.value.weak == s.weak)
      && (s.flags.MachOSymbol? ==> r.value.weak == (Bits.And(s.flags.n_desc, 0xc0) != 0))
      && r.value.address == (s.value +
        if s.section.InSection? then Field(o.endian, file, SectionAt(o, s.section.id) + 32, o.Word()) else 0)
        % Capacity(o.Word())
  {
    hide *;
    NumberedSymbol(o, t, file, k);
    SoundFile(o, t, file);
    SymbolReadBack(o, t, file, k);
    SymtabReadBack(o, t, file);
    var i := MachOSymbols.Order(o.symbols)[k];
    var e, c, s := o.endian, SymtabAt(o), o.symbols[i];
    NamedInSection(o, i);
    TableFields(o, file);
    var table := TableAt(e, o.Word(), file, c);
    EntryMeaning(o, file, table, k, s);
    Ordinals(s.section);
    var at := Field(e, file, c + 8, 4) + TableSize(k, NlistSize(o));
    TableEnd(o, t, file);
    NameRead(file, table.stroff + Field(e, file, at, 4), s.name);
    NameOfEntry(file, table, k, at);
    ValueRead(o, t, file, s);
  }

  lemma TableFields(o: Object, file: seq<byte>)
    ensures var table, e, c := TableAt(o.endian, o.Word(), file, SymtabAt(o)), o.endian, SymtabAt(o);
      && table.endian == e && table.word == o.Word()
      && table.symoff == Field(e, file, c + 8, 4) && table.nsyms == Field(e, file, c + 12, 4)
      && table.stroff == Field(e, file, c + 16, 4) && table.strsize == Field(e, file, c + 20, 4)
    ensures NlistSize(o) == 8 + o.Word()
    ensures SymbolCount(o) == |MachOSymbols.Order(o.symbols)|
  {
    hide Field, SymtabAt, MachOSymbols.Order;
  }

  /** An ordinal in one byte. */
  lemma Ordinals(s: SymbolSection)
    ensures s.InSection? ==> ((s.id + 1) % 0x100 != 0 && (s.id + 1) % 0x100 == s.id + 1 <==> s.id < 0xff)
    ensures s.InSection? && s.id == 0xff ==> (s.id + 1) % 0x100 == 0
  {
  }

  lemma TableEnd(o: Object, t: Strtab, file: seq<byte>)
    requires Wrote(o, t, file) && Fits(o, t)
    ensures Sound(o) && o.AddressBytes() > 0
    ensures Field(o.endian, file, SymtabAt(o) + 16, 4) + Field(o.endian, file, SymtabAt(o) + 20, 4) == |file|
  {
    hide *;
    SymtabReadBack(o, t, file);
    FileParts(o, t, file);
  }

  lemma NamedInSection(o: Object, i: nat)
    requires Sound(o) && i < |o.symbols| && o.symbols[i].IsEmitted()
    ensures 0 !in o.symbols[i].name
    ensures o.symbols[i].section.InSection? ==> o.symbols[i].section.id < |o.sections|
  {
    assert o.ValidSymbol(o.symbols[i]);
  }

  lemma NameRead(file: seq<byte>, start: nat, name: seq<byte>)
    requires StringTable.HasString(file, start, name) && 0 !in name
    ensures BytesUntil(file, start, |file|, 0) == Ok(name)
  {
    UntilOfDelimited(file, start, |file|, 0, name);
  }

  lemma NameOfEntry(file: seq<byte>, table: SymbolTable, k: nat, at: nat)
    requires SymbolAt(file, table, k).Some? && at == table.symoff + TableSize(k, 8 + table.word)
    ensures SymbolAt(file, table, k).value.name ==
            BytesUntil(file, table.stroff + Field(table.endian, file, at, 4), table.stroff + table.strsize, 0)
  {
    hide BytesUntil, Field, TableSize;
  }

  /** The value of a symbol lies behind the address in the header of its section. */
  lemma ValueRead(o: Object, t: Strtab, file: seq<byte>, s: Symbol)
    requires Wrote(o, t, file) && Fits(o, t) && Sound(o) && (s.section.InSection? ==> s.section.id < |o.sections|)
    ensures NlistValue(o, s) == s.value +
      if s.section.InSection? then Field(o.endian, file, SectionAt(o, s.section.id) + 32, o.Word()) else 0
  {
    hide Wrote, Fits, Field, SectionAt, Address, Sound;
    if s.section.InSection? {
      SectionReadBack(o, t, file, s.section.id);
    }
  }

  /** The symbols of a finished file: one for each entry, in order. */
  lemma SymbolsReported(o: Object, t: Strtab, file: seq<byte>)
    requires Wrote(o, t, file) && Fits(o, t)
    requires forall i :: 0 <= i < |o.symbols| ==> DescFits(o.symbols[i])
    ensures var table := TableAt(o.endian, o.Word(), file, SymtabAt(o));
      var symbols := SymbolsFrom(file, table, 0);
      && |symbols| == SymbolCount(o)
      && forall k :: 0 <= k < |symbols| ==> SymbolAt(file, table, k) == Some(symbols[k])
  {
    hide *;
    var table := TableAt(o.endian, o.Word(), file, SymtabAt(o));
    forall k | 0 <= k < SymbolCount(o)
      ensures SymbolAt(file, table, k).Some?
    {
      SymbolReported(o, t, file, k);
    }
    SymtabReadBack(o, t, file);
    TableFields(o, file);
    AllFrom(file, table, 0);
  }

  lemma {:induction false} AllFrom(file: seq<byte>, table: SymbolTable, k: nat)
    requires k <= table.nsyms && forall m :: k <= m < table.nsyms ==> SymbolAt(file, table, m).Some?
    ensures |SymbolsFrom(file, table, k)| == table.nsyms - k
    ensures forall m :: 0 <= m < table.nsyms - k ==>
      SymbolAt(file, table, k + m) == Some(SymbolsFrom(file, table, k)[m])
    decreases table.nsyms - k
  {
    hide SymbolAt;
    if k < table.nsyms {
      AllFrom(file, table, k + 1);
      var rest := SymbolsFrom(file, table, k + 1);
      forall m | 0 <= m < table.nsyms - k
        ensures SymbolAt(file, table, k + m) == Some(SymbolsFrom(file, table, k)[m])
      {
        if m > 0 {
          assert SymbolAt(file, table, k + 1 + (m - 1)) == Some(rest[m - 1]);
        }
      }
    }
  }

  // ---------------------------------------------------------------------------------------------
  // Sections.

  /** The numbers of a section header that lead to the data of the section. */
  datatype ReadHeader = ReadHeader(offset: nat, size: nat, flags: nat)

  function HeaderAt(e: Endian, word: nat, file: seq<byte>, at: nat): ReadHeader
  {
    ReadHeader(Field(e, file, at + 32 + 2 * word, 4), Field(e, file, at + 32 + word, word),
               Field(e, file, at + 48 + 2 * word, 4))
  }

  const SECTION_TYPE: nat := 0xff
  const S_ZEROFILL: nat := 0x1
  const S_GB_ZEROFILL: nat := 0xc
  const S_THREAD_LOCAL_ZEROFILL: nat := 0x12

  /** `file_range`: zero-fill sections have no data in the file. */
  function FileRange(h: ReadHeader): Option<(nat, nat)>
  {
    if Bits.And(h.flags, SECTION_TYPE) in {S_ZEROFILL, S_GB_ZEROFILL, S_THREAD_LOCAL_ZEROFILL} then None
    else Some((h.offset, h.size))
  }

  /** `data` */
  function SectionData(file: seq<byte>, h: ReadHeader): Result<seq<byte>>
  {
    match FileRange(h)
    case None => Ok([])
    case Some(r) => BytesAt(file, r.0, r.1)
  }

  /** The masks of section flags, as arithmetic. */
  lemma FlagMasks(n: nat)
    ensures Bits.And(n, 0xff) == n % 0x100
    ensures Bits.And(n, 0x400) == n / 0x400 % 2 * 0x400
    ensures Bits.And(n, 0x0200_0000) == n / 0x0200_0000 % 2 * 0x0200_0000
    ensures Bits.And(n, 0x8000_0000) == n / 0x8000_0000 % 2 * 0x8000_0000
  {
    hide Bits.And, Bits.Pow2;
    FlagBits();
    Bits.AndMask(n, 8);
    Bits.AndBit(n, 10);
    Bits.AndBit(n, 25);
    Bits.AndBit(n, 31);
  }

  lemma FlagBits()
    ensures Bits.Pow2(8) == 0x100 && Bits.Pow2(10) == 0x400
    ensures Bits.Pow2(25) == 0x0200_0000 && Bits.Pow2(31) == 0x8000_0000
  {
    Bits.Pow2Small();
    assert Bits.Pow2(10) == 0x400;
    Bits.Pow2Add(8, 8);
    Bits.Pow2Add(16, 8);
    Bits.Pow2Add(24, 1);
    Bits.Pow2Add(24, 7);
    assert Bits.Pow2(1) == 2;
  }

  /**
   The flags of a section that has none of its own, in a finished file, bit by bit: the type byte and
   the attributes for instructions and debugging information follow from the kind of the section.
   */
  lemma SectionTypeReadBack(o: Object, t: Strtab, file: seq<byte>, i: nat)
    requires Wrote(o, t, file) && i < |o.sections| && o.sections[i].flags.NoSectionFlags?
    ensures var kind, flags := o.sections[i].kind, Field(o.endian, file, SectionAt(o, i) + 48 + 2 * o.Word(), 4);
      && (Bits.And(flags, 0xff) == 0x01 <==> kind in {UninitializedData, Common})
      && (Bits.And(flags, 0xff) == 0x02 <==> kind in {ReadOnlyString, OtherString})
      && (Bits.And(flags, 0xff) == 0x11 <==> kind == Tls)
      && (Bits.And(flags, 0xff) == 0x12 <==> kind == UninitializedTls)
      && (Bits.And(flags, 0xff) == 0x13 <==> kind == TlsVariables)
      && Bits.And(flags, 0xff) in {0, 0x01, 0x02, 0x11, 0x12, 0x13}
      && (Bits.And(flags, 0x8000_0000) != 0 <==> kind == Text)
      && (Bits.And(flags, 0x400) != 0 <==> kind == Text)
      && (Bits.And(flags, 0x0200_0000) != 0 <==> kind in {Debug, DebugString})
      && kind !in {Note, UnknownSection, Elf}
  {
    hide *;
    SectionFlagsReadBack(o, t, file, i);
    DefaultFlags(o.sections[i]);
    FlagMasks(FlagsOfSection(o.sections[i]).value);
  }

  lemma DefaultFlags(s: Section)
    requires s.flags.NoSectionFlags? && FlagsOfSection(s).Some?
    ensures var n, kind := FlagsOfSection(s).value, s.kind;
      && n <= U32_MAX
      && (n % 0x100 == 0x01 <==> kind in {UninitializedData, Common})
      && (n % 0x100 == 0x02 <==> kind in {ReadOnlyString, OtherString})
      && (n % 0x100 == 0x11 <==> kind == Tls)
      && (n % 0x100 == 0x12 <==> kind == UninitializedTls)
      && (n % 0x100 == 0x13 <==> kind == TlsVariables)
      && n % 0x100 in {0, 0x01, 0x02, 0x11, 0x12, 0x13}
      && (n / 0x8000_0000 % 2 != 0 <==> kind == Text)
      && (n / 0x400 % 2 != 0 <==> kind == Text)
      && (n / 0x0200_0000 % 2 != 0 <==> kind in {Debug, DebugString})
      && kind !in {Note, UnknownSection, Elf}
  {
  }

  /**
   The reader finds the data of a section if and only if the section is empty, or its type byte says
   zero-fill exactly when it is a section without data.
   */
  lemma SectionDataReadBack(o: Object, t: Strtab, file: seq<byte>, i: nat)
    requires Wrote(o, t, file) && Fits(o, t) && i < |o.sections|
    requires o.sections[i].flags.MachOSection? ==> o.sections[i].flags.flags <= U32_MAX
    ensures var s, h := o.sections[i], HeaderAt(o.endian, o.Word(), file, SectionAt(o, i));
      && (SectionData(file, h) == Ok(s.data) <==>
           s.size == 0 || (Bits.And(h.flags, 0xff) in {0x01, 0x0c, 0x12} <==> s.IsBss()))
      && (s.flags.NoSectionFlags? ==> SectionData(file, h) == Ok(s.data))
      && (s.flags.MachOSection? ==> h.flags == s.flags.flags)
  {
    hide *;
    var s, h := o.sections[i], HeaderAt(o.endian, o.Word(), file, SectionAt(o, i));
    SectionReadBack(o, t, file, i);
    SectionFlagsReadBack(o, t, file, i);
    HeaderNumbersAt(o, file, i);
    SizeOfData(o, i);
    OwnFlags(s);
    DataOfHeader(file, h, s);
    if s.flags.NoSectionFlags? {
      SectionTypeReadBack(o, t, file, i);
      BssKinds(s);
    }
  }

  lemma HeaderNumbersAt(o: Object, file: seq<byte>, i: nat)
    ensures var h, e, w, at := HeaderAt(o.endian, o.Word(), file, SectionAt(o, i)), o.endian, o.Word(), SectionAt(o, i);
      && h.offset == Field(e, file, at + 32 + 2 * w, 4) && h.size == Field(e, file, at + 32 + w, w)
      && h.flags == Field(e, file, at + 48 + 2 * w, 4)
  {
    hide Field, SectionAt;
  }

  lemma SizeOfData(o: Object, i: nat)
    requires Sound(o) && i < |o.sections|
    ensures var s := o.sections[i]; if s.IsBss() then s.data == [] else |s.data| == s.size
  {
    assert o.ValidSection(o.sections[i]);
  }

  lemma OwnFlags(s: Section)
    requires FlagsOfSection(s).Some? && (s.flags.MachOSection? ==> s.flags.flags <= U32_MAX)
    ensures FlagsOfSection(s).value <= U32_MAX && !s.flags.OtherSection?
    ensures s.flags.MachOSection? ==> FlagsOfSection(s).value == s.flags.flags
  {
  }

  lemma BssKinds(s: Section)
    ensures s.IsBss() <==> s.kind in {UninitializedData, Common, UninitializedTls}
  {
  }

  lemma DataOfHeader(file: seq<byte>, h: ReadHeader, s: Section)
    requires h.size == s.size && if s.IsBss() then h.offset == 0 && s.data == []
             else |s.data| == s.size && h.offset + s.size <= |file| && file[h.offset..h.offset + s.size] == s.data
    ensures SectionData(file, h) == Ok(s.data) <==>
      s.size == 0 || (Bits.And(h.flags, 0xff) in {0x01, 0x0c, 0x12} <==> s.IsBss())
  {
    hide Bits.And;
  }

  /** A section with data that is flagged as zero-fill reads back empty. */
  lemma ZeroFillCounterexample()
    ensures SectionData([1], ReadHeader(0, 1, 0x1)) == Ok([])
  {
    FlagMasks(1);
  }

  // ---------------------------------------------------------------------------------------------
  // The architecture.

  /** `architecture` */
  function ArchitectureOf(cputype: nat): Option<Architecture>
  {
    match cputype
    case 7 => Some(I386)
    case 12 => Some(Arm)
    case 18 => Some(PowerPc)
    case 0x100_0007 => Some(X86_64)
    case 0x100_000c => Some(Aarch64)
    case 0x100_0012 => Some(PowerPc64)
    case 0x200_000c => Some(Aarch64_Ilp32)
    case _ => None
  }

  /** `sub_architecture` */
  function SubArchitectureOf(cputype: nat, cpusubtype: nat): SubArchitecture
  {
    if cputype == 0x100_000c && cpusubtype == 2 then Arm64E else NoSub
  }

  /**
   The reader finds the architecture that the file was written for, and an object file. It finds the
   sub-architecture if and only if a subtype that was requested agrees with it. The flags are those
   requested, and the flag for subsections.
   */
  lemma HeaderReadBack(o: Object, t: Strtab, file: seq<byte>)
    requires Wrote(o, t, file) && (o.cpuSubtype.Some? ==> o.cpuSubtype.value <= U32_MAX)
    requires o.fileFlags.Some? ==> o.fileFlags.value <= U32_MAX
    ensures Field(o.endian, file, 0, 4) == 0xfeed_facf <==> o.arch in {Aarch64, X86_64, PowerPc64}
    ensures var cputype, cpusubtype := Field(o.endian, file, 4, 4), Field(o.endian, file, 8, 4);
      && ArchitectureOf(cputype) == Some(o.arch)
      && (SubArchitectureOf(cputype, cpusubtype) == o.sub <==>
           o.cpuSubtype.None? || !o.arch.Aarch64? || (o.cpuSubtype.value == 2 <==> o.sub.Arm64E?))
    ensures Field(o.endian, file, 12, 4) == 1
    ensures var flags, own := Field(o.endian, file, 24, 4), if o.fileFlags.Some? then o.fileFlags.value else 0;
      && (Bits.And(flags, 0x2000) != 0 <==> o.subsectionsViaSymbols || Bits.And(own, 0x2000) != 0)
      && flags - Bits.And(flags, 0x2000) == own - Bits.And(own, 0x2000)
  {
    hide Wrote, Field, FileFlags, CommandsSize, CommandCount, Bits.And;
    MagicReadBack(o, t, file);
    HeaderField(o, t, file, 0);
    HeaderField(o, t, file, 1);
    HeaderField(o, t, file, 2);
    HeaderField(o, t, file, 5);
    FlagsOfFile(o);
    FileMask(FileFlags(o));
    FileMask(if o.fileFlags.Some? then o.fileFlags.value else 0);
  }

  lemma FlagsOfFile(o: Object)
    requires o.fileFlags.Some? ==> o.fileFlags.value <= U32_MAX
    ensures var flags, own := FileFlags(o), if o.fileFlags.Some? then o.fileFlags.value else 0;
      && flags <= U32_MAX
      && (flags / 0x2000 % 2 == 1 <==> o.subsectionsViaSymbols || own / 0x2000 % 2 == 1)
      && flags - flags / 0x2000 % 2 * 0x2000 == own - own / 0x2000 % 2 * 0x2000
  {
  }

  lemma FileMask(n: nat)
    ensures Bits.And(n, 0x2000) == n / 0x2000 % 2 * 0x2000
  {
    hide Bits.And, Bits.Pow2;
    FileBit();
    Bits.AndBit(n, 13);
  }

  lemma FileBit()
    ensures Bits.Pow2(13) == 0x2000
  {
    Bits.Pow2Small();
    Bits.Pow2Add(7, 6);
  }

  /** Exactly the objects that can be written, in terms of their parts. */
  lemma WritableMeaning(o: Object)
    ensures Writable(o) <==>
      && (o.arch, o.sub) in {(Arm, NoSub), (Aarch64, NoSub), (Aarch64, Arm64E), (Aarch64_Ilp32, NoSub), (I386, NoSub),
                             (X86_64, NoSub), (PowerPc, NoSub), (PowerPc64, NoSub)}
      && (forall i :: 0 <= i < |o.sections| ==> SectionAccepted(o, o.sections[i]))
      && (forall i :: 0 <= i < |o.symbols| ==> SymbolAccepted(o.symbols[i]))
  {
    hide CpuType, HeaderWritable, NlistWritable;
    forall i | 0 <= i < |o.sections|
      ensures SectionAccepted(o, o.sections[i]) <==>
              HeaderWritable(o.sections[i]) && MachORelocs.AllEncodable(o, o.sections[i].relocations)
    {
      SectionAcceptance(o, o.sections[i]);
    }
    forall i | 0 <= i < |o.symbols|
      ensures SymbolAccepted(o.symbols[i]) <==>
        !o.symbols[i].kind.LabelSymbol? && (o.symbols[i].IsEmitted() ==> NlistWritable(o.symbols[i]))
    {
      SymbolAcceptance(o.symbols[i]);
    }
    CpuAcceptance(o);
  }

  /** Names that fit, flags or a kind with flags, and relocations with flags of this format. */
  ghost predicate SectionAccepted(o: Object, s: Section)
  {
    && |s.name| <= 16 && |s.segment| <= 16
    && !s.flags.OtherSection? && (s.flags.NoSectionFlags? ==> s.kind !in {Note, UnknownSection, Elf})
    && forall k :: 0 <= k < |s.relocations| ==>
         var r := s.relocations[k];
         && r.flags.MachORelocation? && r.symbol < |o.symbols|
         && (r.addend == 0 || o.arch.Aarch64? || o.arch.Aarch64_Ilp32?)
  }

  /** No label; and a place and flags of this format, unless it is a file or section symbol. */
  predicate SymbolAccepted(s: Symbol)
  {
    && !s.kind.LabelSymbol?
    && (!s.kind.FileSymbol? && !s.kind.SectionSymbol? ==>
         !s.flags.OtherSymbol? && !s.section.NoSection? && !s.section.CommonSection?)
  }

  lemma CpuAcceptance(o: Object)
    ensures CpuType(o.arch, o.sub).Some? <==>
      (o.arch, o.sub) in {(Arm, NoSub), (Aarch64, NoSub), (Aarch64, Arm64E), (Aarch64_Ilp32, NoSub), (I386, NoSub),
                          (X86_64, NoSub), (PowerPc, NoSub), (PowerPc64, NoSub)}
  {
  }

  lemma SectionAcceptance(o: Object, s: Section)
    ensures SectionAccepted(o, s) <==> HeaderWritable(s) && MachORelocs.AllEncodable(o, s.relocations)
  {
  }

  lemma SymbolAcceptance(s: Symbol)
    ensures SymbolAccepted(s) <==> !s.kind.LabelSymbol? && (s.IsEmitted() ==> NlistWritable(s))
  {
  }

  /** The command for the build version holds its three numbers. */
  lemma BuildVersionReadBack(o: Object, t: Strtab, file: seq<byte>)
    requires Wrote(o, t, file) && o.buildVersion.Some?
    requires var v := o.buildVersion.value; v.platform <= U32_MAX && v.minos <= U32_MAX && v.sdk <= U32_MAX
    ensures Field(o.endian, file, BuildAt(o), 4) == 0x32
    ensures Field(o.endian, file, BuildAt(o) + 8, 4) == o.buildVersion.value.platform
    ensures Field(o.endian, file, BuildAt(o) + 12, 4) == o.buildVersion.value.minos
    ensures Field(o.endian, file, BuildAt(o) + 16, 4) == o.buildVersion.value.sdk
  {
    hide Wrote, Field, HasWord, SegmentPart, SectionHeaders, HeaderPart, SymtabPart, DysymtabPart, CpuType,
         HeadersWritable, Sound, Put, PutWords, SectionHeadersAt;
    CommandParts(o, t, file);
    var e, v, at, part := o.endian, o.buildVersion.value, BuildAt(o), BuildPart(o);
    var words := [LC_BUILD_VERSION, BUILD_VERSION_SIZE, v.platform, v.minos, v.sdk, 0];
    NothingBefore(part + []);
    NothingAfter(part);
    WordBetween(e, [], words, 4, [], 0);
    WordBetween(e, [], words, 4, [], 2);
    WordBetween(e, [], words, 4, [], 3);
    WordBetween(e, [], words, 4, [], 4);
    PartField(e, file, at, part, 0, LC_BUILD_VERSION);
    PartField(e, file, at, part, 8, v.platform);
    PartField(e, file, at, part, 12, v.minos);
    PartField(e, file, at, part, 16, v.sdk);
  }

  /** The commands that a reader finds, by their identifiers. */
  lemma CommandIdentifiers(o: Object)
    ensures var c := CommandList(o);
      && |c| == (if o.buildVersion.Some? then 4 else 3)
      && c[0].cmd == (if o.arch in {Aarch64, X86_64, PowerPc64} || o.arch == OtherArchitecture(8) then 0x19 else 0x1)
      && (o.buildVersion.Some? ==> c[1].cmd == 0x32)
      && c[|c| - 2].cmd == 0x2 && c[|c| - 1].cmd == 0xb
      && c[|c| - 2].offset == SymtabAt(o) && c[|c| - 1].offset == DysymtabAt(o)
  {
    hide SymtabAt, DysymtabAt, BuildAt, HeaderSize, SegmentCommandSize;
  }

  /**
   The ranges of the dynamic symbol table and the reader's scopes: the symbols in the local range are
   those with local scope, except that a defined symbol of unknown scope is among the external ones
   and reads as local.
   */
  lemma RangesReported(o: Object, t: Strtab, file: seq<byte>, k: nat)
    requires Wrote(o, t, file) && Fits(o, t) && k < SymbolCount(o)
    requires forall i :: 0 <= i < |o.symbols| ==> DescFits(o.symbols[i])
    ensures MachOSymbols.Order(o.symbols)[k] < |o.symbols|
    ensures var s, at := o.symbols[MachOSymbols.Order(o.symbols)[k]], DysymtabAt(o);
      var nlocal, nextdef := Field(o.endian, file, at + 12, 4), Field(o.endian, file, at + 20, 4);
      var r := SymbolAt(file, TableAt(o.endian, o.Word(), file, SymtabAt(o)), k);
      && r.Some?
      && (k < nlocal <==> !s.section.Undefined? && s.scope.Compilation?)
      && (nlocal <= k < nlocal + nextdef <==> !s.section.Undefined? && !s.scope.Compilation?)
      && (nlocal + nextdef <= k <==> s.section.Undefined?)
      && ((k < nlocal <==> r.value.scope.Compilation?) <==> s.section.Undefined? || !s.scope.UnknownScope?)
  {
    hide *;
    SymbolReported(o, t, file, k);
    TableFields(o, file);
    NumberedSymbol(o, t, file, k);
    var s := o.symbols[MachOSymbols.Order(o.symbols)[k]];
    DysymtabReadBack(o, t, file, k, MachOSymbols.Local);
    DysymtabReadBack(o, t, file, k, MachOSymbols.External);
    DysymtabReadBack(o, t, file, k, MachOSymbols.UndefinedClass);
    RangesAre(RangesAt(o.endian, file, DysymtabAt(o)), SymbolCount(o), k);
    RangeFields(o, file);
    SymtabReadBack(o, t, file);
    Classes(s);
  }

  lemma RangeFields(o: Object, file: seq<byte>)
    ensures var e, at, r := o.endian, DysymtabAt(o), RangesAt(o.endian, file, DysymtabAt(o));
      r.nlocal == Field(e, file, at + 12, 4) && r.nextdef == Field(e, file, at + 20, 4)
  {
    hide Field, DysymtabAt;
  }

  lemma RangesAre(r: Ranges, n: nat, k: nat)
    requires r.Partition(n) && k < n
    ensures r.Contains(MachOSymbols.Local, k) <==> k < r.nlocal
    ensures r.Contains(MachOSymbols.External, k) <==> r.nlocal <= k < r.nlocal + r.nextdef
    ensures r.Contains(MachOSymbols.UndefinedClass, k) <==> r.nlocal + r.nextdef <= k
  {
  }

  lemma Classes(s: Symbol)
    requires s.IsEmitted()
    ensures MachOSymbols.ClassOf(s) == MachOSymbols.UndefinedClass <==> s.section.Undefined?
    ensures MachOSymbols.ClassOf(s) == MachOSymbols.Local <==> !s.section.Undefined? && s.scope.Compilation?
    ensures MachOSymbols.ClassOf(s) == MachOSymbols.External <==> !s.section.Undefined? && !s.scope.Compilation?
  {
  }

  predicate IsMultiple(x: nat, size: nat)
  {
    size > 0 && x % size == 0
  }

  /**
   The relocation blocks of a finished file are aligned, in the order of their sections, behind the
   section data and in front of the symbol table.
   */
  lemma BlocksInOrder(o: Object, t: Strtab, file: seq<byte>, i: nat, j: nat)
    requires Wrote(o, t, file) && Fits(o, t) && i <= j < |o.sections|
    ensures var e, w, at, a := o.endian, o.Word(), SectionAt(o, i), o.AddressBytes();
      var reloff, nreloc := Field(e, file, at + 40 + 2 * w, 4), Field(e, file, at + 44 + 2 * w, 4);
      var next := Field(e, file, SectionAt(o, j) + 40 + 2 * w, 4);
      && (nreloc == 0 <==> o.sections[i].relocations == [])
      && (nreloc == 0 ==> reloff == 0)
      && (nreloc > 0 ==> IsMultiple(reloff, a) && reloff + nreloc * 8 <= Field(e, file, SymtabAt(o) + 8, 4))
      && (nreloc > 0 && !o.sections[i].IsBss() ==>
           Field(e, file, at + 32 + 2 * w, 4) + o.sections[i].size <= reloff)
      && (i < j && nreloc > 0 && next > 0 ==> reloff + nreloc * 8 <= next)
  {
    hide *;
    SectionReadBack(o, t, file, i);
    SectionReadBack(o, t, file, j);
    SymtabReadBack(o, t, file);
    RelocBlocks(o.sections, i, j, RelocStart(o), o.AddressBytes());
    Offsets(o, t, file, i);
    NextBlock(o, j);
    Multiples();
  }

  /**
   The symbol table of a finished file is aligned; the string table follows directly, and ends the
   file at a multiple of the address size behind its start.
   */
  lemma TablesAtEnd(o: Object, t: Strtab, file: seq<byte>)
    requires Wrote(o, t, file) && Fits(o, t)
    ensures var e, c, a := o.endian, SymtabAt(o), o.AddressBytes();
      var symoff, nsyms := Field(e, file, c + 8, 4), Field(e, file, c + 12, 4);
      var stroff, strsize := Field(e, file, c + 16, 4), Field(e, file, c + 20, 4);
      && IsMultiple(symoff, a) && stroff == symoff + nsyms * (8 + o.Word())
      && stroff + strsize == |file| && IsMultiple(strsize, a)
  {
    hide *;
    SymtabReadBack(o, t, file);
    TableEnd(o, t, file);
    TableOffsets(o, t, file);
    Multiples();
  }

  lemma Multiples()
    ensures forall x: nat, size: nat :: IsMultiple(x, size) <==> size > 0 && x % size == 0
  {
  }

  lemma TableOffsets(o: Object, t: Strtab, file: seq<byte>)
    requires Wrote(o, t, file) && Fits(o, t)
    ensures Sound(o) && o.AddressBytes() > 0
    ensures SymtabOffset(o) % o.AddressBytes() == 0 && |t.data| % o.AddressBytes() == 0
    ensures RelocEnd(o.sections, |o.sections|, RelocStart(o), o.AddressBytes()) <= SymtabOffset(o)
    ensures StrtabOffset(o) == SymtabOffset(o) + SymbolCount(o) * (8 + o.Word())
  {
    hide Wrote, Fits, RelocEnd, RelocStart, Align, SymbolCount, Sound;
    SoundFile(o, t, file);
  }

  lemma SoundAligned(o: Object)
    requires Sound(o)
    ensures Aligned(o.sections)
  {
  }

  lemma NextBlock(o: Object, j: nat)
    requires Sound(o) && o.AddressBytes() > 0 && j < |o.sections|
    ensures RelocOffset(o.sections, j, RelocStart(o), o.AddressBytes()) > 0 ==> o.sections[j].relocations != []
  {
    hide RelocStart;
  }

  lemma Offsets(o: Object, t: Strtab, file: seq<byte>, i: nat)
    requires Wrote(o, t, file) && Fits(o, t) && i < |o.sections|
    ensures Sound(o) && o.AddressBytes() > 0
    ensures RelocEnd(o.sections, |o.sections|, RelocStart(o), o.AddressBytes()) <= SymtabOffset(o)
    ensures RELOCATION_SIZE == 8
    ensures var at := Field(o.endian, file, SectionAt(o, i) + 32 + 2 * o.Word(), 4);
      !o.sections[i].IsBss() ==> at + o.sections[i].size <= RelocStart(o)
  {
    hide Wrote, Fits, Field, SectionAt, Address, DataEnd, BssEnd, RelocEnd, Align, SymbolCount, DataOffset, Sound;
    SoundFile(o, t, file);
    SoundAligned(o);
    SectionsInSegment(o.sections, i);
    SectionReadBack(o, t, file, i);
    TableOffsets(o, t, file);
  }
}
