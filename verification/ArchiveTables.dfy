/**
 Symbol tables in place: the members that hold them as they are laid out in a file, where a parsed
 archive finds its table, and reading the symbols from there.
 */
module ArchiveTables {
  import opened Prelude
  import opened ReadRef
  import opened ArchiveFields
  import opened Archive
  import Endian
  import ArchiveSymbols

  // ---------------------------------------------------------------------------------------------
  // Members as they are laid out.

  /** A header with the name field `field` and a size; the fields in between are not looked at. */
  ghost predicate HasHeader(data: seq<byte>, offset: nat, field: seq<byte>, size: nat)
  {
    && |field| <= 16 && |Print(size, 10)| <= 10 && size <= U64_MAX && offset + 60 <= |data|
    && data[offset..offset + 16] == field + Spaces(16 - |field|)
    && data[offset + 48..offset + 58] == Print(size, 10) + Spaces(10 - |Print(size, 10)|)
    && data[offset + 58..offset + 60] == Ascii("`\n")
  }

  /** A header and its data. */
  ghost predicate HasMember(data: seq<byte>, offset: nat, field: seq<byte>, content: seq<byte>)
  {
    && HasHeader(data, offset, field, |content|)
    && offset + 60 + |content| <= |data| && data[offset + 60..offset + 60 + |content|] == content
  }

  /** Where the header behind `size` bytes of data is: at an even offset. */
  function Behind(offset: nat, size: nat): nat
  {
    offset + 60 + size + size % 2
  }

  lemma HeaderFields(data: seq<byte>, offset: nat, field: seq<byte>, size: nat)
    requires HasHeader(data, offset, field, size)
    ensures HeaderAt(data, offset).name == field + Spaces(16 - |field|)
    ensures HeaderAt(data, offset).terminator == Ascii("`\n")
    ensures DigitsValue(HeaderAt(data, offset).size, 10) == Some(size)
  {
    hide DigitsValue, Ascii;
    DigitsRoundTrip(size, 10, 10 - |Print(size, 10)|);
  }

  lemma NextHeader(data: seq<byte>, offset: nat, size: nat)
    requires InMemory(data) && offset + 60 + size <= |data|
    ensures Skip(offset + 60, size) == Some(Behind(offset, size))
  {
  }

  /** The name of a table or linker member is read up to the first space. */
  lemma SlashMember(data: seq<byte>, offset: nat, name: seq<byte>, size: nat, names: seq<byte>, thin: bool)
    requires InMemory(data) && HasHeader(data, offset, name, size) && offset + 60 + size <= |data|
    requires 0 < |name| < 16 && name[0] == SLASH && SPACE !in name && (|name| > 1 ==> !IsDigit(name[1], 10))
    requires thin ==> HasDataWhenThin(name)
    ensures MemberAt(data, offset, names, thin) ==
            Ok(Parsed(Member(name, offset + 60, size), Behind(offset, size)))
  {
    hide DigitsValue, Until, ShortName, Skip, Ascii, BsdName, SysvName;
    HeaderFields(data, offset, name, size);
    NextHeader(data, offset, size);
    SpaceEnds(name, 16 - |name|);
    NotBsd(name + Spaces(16 - |name|));
  }

  lemma SpaceEnds(name: seq<byte>, pad: nat)
    requires SPACE !in name && pad > 0
    ensures Until(name + Spaces(pad), SPACE) == name
  {
    FirstIndexUnique(name + Spaces(pad), SPACE, |name|);
  }

  lemma NotBsd(field: seq<byte>)
    requires |field| == 16 && field[0] != 0x23
    ensures !IsBsdName(field)
  {
    assert Ascii("#1/")[0] == 0x23 && field[..3][0] == field[0];
  }

  /** An ordinary name ends at the first space, or at a slash. */
  lemma ShortMember(data: seq<byte>, offset: nat, name: seq<byte>, slash: bool, size: nat, names: seq<byte>)
    requires InMemory(data) && offset + 60 + size <= |data|
    requires HasHeader(data, offset, if slash then name + [SLASH] else name, size)
    requires 0 < |name| < 16 && SLASH !in name && name[0] != 0x23 && (!slash ==> SPACE !in name)
    ensures MemberAt(data, offset, names, false) ==
            Ok(Parsed(Member(name, offset + 60, size), Behind(offset, size)))
  {
    hide DigitsValue, Until, ShortName, Skip, Ascii, BsdName, SysvName;
    var field := if slash then name + [SLASH] else name;
    HeaderFields(data, offset, field, size);
    NextHeader(data, offset, size);
    NotBsd(field + Spaces(16 - |field|));
    ShortNameOf(name, slash);
  }

  lemma ShortNameOf(name: seq<byte>, slash: bool)
    requires |name| < 16 && SLASH !in name && (!slash ==> SPACE !in name)
    ensures var field := if slash then name + [SLASH] else name;
      ShortName(field + Spaces(16 - |field|)) == name
  {
    var field := if slash then name + [SLASH] else name;
    var s := field + Spaces(16 - |field|);
    if slash {
      assert s[|name|] == SLASH;
      FirstIndexUnique(s, SLASH, |name|);
      assert s[..|name|] == name;
    } else {
      SpaceEnds(name, 16 - |field|);
    }
  }

  /** A name of any length in front of the data, padded with null bytes. */
  lemma ExtendedMember(data: seq<byte>, offset: nat, name: seq<byte>, pad: nat, content: seq<byte>, names: seq<byte>)
    requires InMemory(data) && NUL !in name && |Print(|name| + pad, 10)| <= 13
    requires HasMember(data, offset, Ascii("#1/") + Print(|name| + pad, 10), name + seq(pad, _ => NUL) + content)
    ensures MemberAt(data, offset, names, false) ==
            Ok(Parsed(Member(name, offset + 60 + |name| + pad, |content|), Behind(offset, |name| + pad + |content|)))
    ensures data[offset + 60 + |name| + pad..offset + 60 + |name| + pad + |content|] == content
  {
    hide DigitsValue, Until, ShortName, Skip, Ascii, SysvName;
    var len, size := |name| + pad, |name| + pad + |content|;
    var field := Ascii("#1/") + Print(len, 10);
    var stored := name + seq(pad, _ => NUL);
    HeaderFields(data, offset, field, size);
    NextHeader(data, offset, size);
    ExtendedField(len);
    SliceOfSlice(data, offset + 60, offset + 60 + size, 0, len);
    SliceOfSlice(data, offset + 60, offset + 60 + size, len, size);
    assert (stored + content)[0..len] == stored && (stored + content)[len..size] == content;
    NulEnds(name, pad);
  }

  lemma ExtendedField(len: nat)
    requires |Print(len, 10)| <= 13 && len <= U64_MAX
    ensures var field := Ascii("#1/") + Print(len, 10);
      var name := field + Spaces(16 - |field|);
      && |name| == 16 && IsBsdName(name) && !IsSysvName(name) && DigitsValue(name[3..], 10) == Some(len)
  {
    hide DigitsValue;
    var field := Ascii("#1/") + Print(len, 10);
    var name := field + Spaces(16 - |field|);
    assert Ascii("#1/")[0] == 0x23;
    assert name[..3] == Ascii("#1/") && name[3] == Print(len, 10)[0] && name[0] == 0x23;
    assert name[3..] == Print(len, 10) + Spaces(16 - |field|);
    DigitsRoundTrip(len, 10, 16 - |field|);
  }

  lemma NulEnds(name: seq<byte>, pad: nat)
    requires NUL !in name
    ensures Until(name + seq(pad, _ => NUL), NUL) == name
  {
    var s := name + seq(pad, _ => NUL);
    if pad > 0 {
      FirstIndexUnique(s, NUL, |name|);
      assert s[..|name|] == name;
    } else {
      assert s == name;
    }
  }

  /** A name in the extended name table, by its printed offset. */
  lemma SysvMember(data: seq<byte>, offset: nat, before: seq<byte>, name: seq<byte>, after: seq<byte>, size: nat)
    requires InMemory(data) && |before| <= U64_MAX && |Print(|before|, 10)| <= 15
    requires HasHeader(data, offset, [SLASH] + Print(|before|, 10), size) && offset + 60 + size <= |data|
    requires NEWLINE !in name && NUL !in name
    ensures MemberAt(data, offset, before + (name + [SLASH, NEWLINE] + after), false) ==
            Ok(Parsed(Member(name, offset + 60, size), Behind(offset, size)))
  {
    hide DigitsValue, Until, ShortName, Skip, Ascii, BsdName, SysvName;
    var field := [SLASH] + Print(|before|, 10);
    HeaderFields(data, offset, field, size);
    NextHeader(data, offset, size);
    var full := field + Spaces(16 - |field|);
    assert full[1..] == Print(|before|, 10) + Spaces(16 - |field|) && full[1] == Print(|before|, 10)[0];
    SysvNameRoundTrip(before, name, after, 16 - |field|);
  }

  // ---------------------------------------------------------------------------------------------
  // The table of a parsed archive.

  /** The names of the special members decide the kind. */
  lemma KindOfNames(kind: Kind, names: seq<seq<byte>>)
    requires Documented(kind, names) && names != []
    ensures names[0] == Ascii("/") <==>
      (kind.Gnu? && names[0] != Ascii("//")) || (kind.Coff? && |names| >= 2 && names[1] == Ascii("/"))
    ensures names[0] == Ascii("/SYM64/") <==> kind.Gnu64?
    ensures names[0] == Ascii("__.SYMDEF") || names[0] == Ascii("__.SYMDEF SORTED") <==> kind.Bsd?
    ensures names[0] == Ascii("__.SYMDEF_64") || names[0] == Ascii("__.SYMDEF_64 SORTED") <==> kind.Bsd64?
    ensures names[0] == Ascii("//") ==> kind.Gnu? && |names| == 1
    ensures |names| == 4 ==> kind.Coff? && names[3] == Ascii("/<ECSYMBOLS>/")
    ensures |names| == 3 || (|names| == 2 && !kind.Coff?) ==> names[|names| - 1] == Ascii("//")
  {
    NamesDiffer();
  }

  lemma NamesDiffer()
    ensures Ascii("/") != Ascii("//") && Ascii("/SYM64/")[1] != Ascii("//")[1]
    ensures Ascii("__.SYMDEF")[0] == 0x5f && Ascii("__.SYMDEF SORTED")[0] == 0x5f
    ensures Ascii("__.SYMDEF_64")[0] == 0x5f && Ascii("__.SYMDEF_64 SORTED")[0] == 0x5f
    ensures Ascii("/")[0] == 0x2f && Ascii("//")[0] == 0x2f && Ascii("/SYM64/")[0] == 0x2f
    ensures |Ascii("__.SYMDEF")| == 9 && |Ascii("__.SYMDEF SORTED")| == 16
    ensures |Ascii("__.SYMDEF_64")| == 12 && |Ascii("__.SYMDEF_64 SORTED")| == 19
    ensures |Ascii("/")| == 1 && |Ascii("//")| == 2 && |Ascii("/SYM64/")| == 7
  {
  }

  /** A first member with a special name is skipped. */
  lemma FirstSkipped(data: seq<byte>, f: ArchiveFile, skipped: seq<Member>, m: Member, next: u64)
    requires InMemory(data) && Explains(data, f, skipped) && Maximal(data, f, skipped)
    requires 8 < |data| && MemberAt(data, 8, [], f.thin) == Ok(Parsed(m, next)) && StartsArchive(m.name)
    ensures skipped != [] && skipped[0] == m && NamesOf(skipped)[0] == m.name
    ensures next >= |data| ==> skipped == [m]
    ensures |skipped| > 1 ==> MemberAt(data, next, f.names, f.thin).Ok? &&
                              MemberAt(data, next, f.names, f.thin).value.member == skipped[1]
    ensures |skipped| == 1 ==> f.membersOffset == next
  {
    hide MemberAt, NameTableOf, SymbolsOf;
    NamesIrrelevant(data, 8, f.names, f.thin);
    if skipped == [] {
      assert [] + [m] == [m] && NamesOf([m]) == [m.name];
      OneDocumented(m.name);
      assert false;
    }
    var rest := skipped[1..];
    assert Steps(data, f.names, f.thin, next, f.membersOffset, rest);
  }

  lemma OneDocumented(name: seq<byte>)
    requires StartsArchive(name)
    ensures exists kind :: Documented(kind, [name])
  {
    if name == N_SYMBOLS || name == N_NAMES {
      assert Documented(Gnu, [name]);
    } else if name == N_SYMBOLS64 {
      assert Documented(Gnu64, [name]);
    } else if name == N_SYMDEF || name == N_SYMDEF_SORTED {
      assert Documented(Bsd, [name]);
    } else {
      assert Documented(Bsd64, [name]);
    }
  }

  /** A second linker member is skipped, and makes the archive a COFF archive. */
  lemma SecondSkipped(data: seq<byte>, f: ArchiveFile, skipped: seq<Member>, m: Member, next: u64, m2: Member,
                      next2: u64)
    requires InMemory(data) && Explains(data, f, skipped) && Maximal(data, f, skipped)
    requires 8 < |data| && MemberAt(data, 8, [], f.thin) == Ok(Parsed(m, next)) && m.name == Ascii("/")
    requires next < |data| && MemberAt(data, next, [], f.thin) == Ok(Parsed(m2, next2)) && m2.name == Ascii("/")
    ensures f.kind.Coff? && |skipped| >= 2 && skipped[1] == m2
  {
    hide MemberAt, NameTableOf, SymbolsOf;
    FirstSkipped(data, f, skipped, m, next);
    NamesIrrelevant(data, next, f.names, f.thin);
    assert Documented(Coff, [m.name, m2.name]);
    assert NamesOf([m, m2]) == [m.name, m2.name];
    assert |skipped| == 1 ==> skipped + [m2] == [m, m2];
    if |skipped| == 1 {
      assert false;
    }
    assert NamesOf(skipped)[1] == m2.name;
    KindOfNames(f.kind, NamesOf(skipped));
    NamesDiffer();
  }

  /** `symbols`: nothing if there is no table, otherwise what the table yields. */
  method Symbols(data: seq<byte>, f: ArchiveFile) returns (r: Result<Option<seq<Result<ArchiveSymbols.Symbol>>>>)
    ensures r == TableItems(data, f)
  {
    if f.symbols == (0, 0) {
      return Ok(None);
    }
    var items := ArchiveSymbols.ReadSymbols(f.kind, data, f.symbols.0, f.symbols.1);
    r := match items case Err => Err case Ok(s) => Ok(Some(s));
  }

  /** The symbols of a parsed archive. */
  function TableItems(data: seq<byte>, f: ArchiveFile): Result<Option<seq<Result<ArchiveSymbols.Symbol>>>>
  {
    if f.symbols == (0, 0) then Ok(None)
    else
      match BytesAt(data, f.symbols.0, f.symbols.1)
      case Err => Err
      case Ok(table) =>
        match ArchiveSymbols.OpenTable(f.kind, table)
        case Err => Err
        case Ok(s) => Ok(Some(ArchiveSymbols.Items(s)))
  }

  /**
   Where the symbol table of a parsed archive is: in the first member, or the second of a COFF archive,
   and there in the data behind the header and any name stored in front of the data. Thin archives
   have no room for BSD tables: those are looked for at the start of the file.
   */
  lemma TableArea(data: seq<byte>, f: ArchiveFile, skipped: seq<Member>)
    requires InMemory(data) && Explains(data, f, skipped)
    ensures f.symbols != (0, 0) ==> !f.kind.Unknown?
    ensures f.symbols != (0, 0) && !(f.thin && (f.kind.Bsd? || f.kind.Bsd64?)) ==>
      var at := if f.kind.Coff? then Behind(8, HeaderSize(data, 8)) else 8;
      && at + 60 <= |data|
      && at + 60 <= f.symbols.0 && f.symbols.0 + f.symbols.1 == at + 60 + HeaderSize(data, at)
      && (!IsBsdName(HeaderAt(data, at).name) ==> f.symbols.0 == at + 60)
    ensures f.thin && (f.kind.Bsd? || f.kind.Bsd64?) ==> f.symbols.0 == 0
  {
    hide MemberAt, HeaderSize, HeaderAt, NameTableOf;
    if !f.kind.Unknown? {
      var names := NamesOf(skipped);
      KindOfNames(f.kind, names);
      assert names[0] == skipped[0].name;
      NamesDiffer();
      var first := MemberAt(data, 8, f.names, f.thin).value;
      MemberArea(data, 8, f.names, f.thin);
      if f.kind.Coff? {
        assert names[1] == skipped[1].name;
        var rest := skipped[1..];
        assert Steps(data, f.names, f.thin, first.next, f.membersOffset, rest) && rest[0] == skipped[1];
        MemberArea(data, first.next, f.names, f.thin);
      }
    }
  }

  /** The extended names of a parsed archive are the data of the special member `//`, if there is one. */
  lemma NamesArea(data: seq<byte>, f: ArchiveFile, skipped: seq<Member>)
    requires InMemory(data) && Explains(data, f, skipped)
    ensures f.names != [] ==> exists k :: 0 <= k < |skipped| && skipped[k].name == Ascii("//")
    ensures forall k :: 0 <= k < |skipped| && skipped[k].name == Ascii("//") && skipped[k].offset > 0 ==>
      BytesAt(data, skipped[k].offset, skipped[k].size) == Ok(f.names)
  {
    hide Steps, BytesAt;
    var names := NamesOf(skipped);
    assert forall k :: 0 <= k < |skipped| ==> names[k] == skipped[k].name;
    NamesDiffer();
    EcDiffers();
  }

  lemma EcDiffers()
    ensures Ascii("/<ECSYMBOLS>/") != Ascii("//") && |Ascii("/<ECSYMBOLS>/")| == 13
  {
  }

  /** What a member says of the area behind its header. */
  lemma MemberArea(data: seq<byte>, offset: u64, names: seq<byte>, thin: bool)
    requires InMemory(data) && MemberAt(data, offset, names, thin).Ok?
    ensures var p := MemberAt(data, offset, names, thin).value;
      && offset + 60 <= |data|
      && if thin && !HasDataWhenThin(p.member.name) then p.member.offset == 0
         else
           && offset + 60 <= p.member.offset
           && p.member.offset + p.member.size == offset + 60 + HeaderSize(data, offset)
           && (!IsBsdName(HeaderAt(data, offset).name) ==> p.member.offset == offset + 60)
           && (p.next < |data| ==> p.next == Behind(offset, HeaderSize(data, offset)))
  {
    hide DigitsValue, SysvName, Until, ShortName;
  }

  // ---------------------------------------------------------------------------------------------
  // Tables as they are laid out.

  /** A table that is the data of the special member from which the archive takes its table. */
  lemma TableFound(data: seq<byte>, f: ArchiveFile, m: Member, table: seq<byte>)
    requires f.symbols == FileRange(m) && m.size == |table| && 0 < m.offset && m.offset + m.size <= |data|
    requires data[m.offset..m.offset + m.size] == table
    ensures TableItems(data, f) ==
      match ArchiveSymbols.OpenTable(f.kind, table) case Err => Err case Ok(s) => Ok(Some(ArchiveSymbols.Items(s)))
  {
    hide ArchiveSymbols.OpenTable, ArchiveSymbols.Items;
    if m.size == 0 {
      assert table == [];
    }
  }

  function GnuName(kind: Kind): seq<byte>
  {
    if kind.Gnu64? then Ascii("/SYM64/") else Ascii("/")
  }

  /**
   A GNU archive, 32- or 64-bit: magic, a header with the name of the table, and a table as it is laid
   out. What is parsed from the file reads back as the symbols that were laid out, unless a second
   linker member makes it a COFF archive.
   */
  lemma GnuArchive(data: seq<byte>, f: ArchiveFile, skipped: seq<Member>, kind: Kind,
                   symbols: seq<ArchiveSymbols.Symbol>, padding: seq<byte>)
    requires InMemory(data) && Explains(data, f, skipped) && Maximal(data, f, skipped)
    requires kind.Gnu? || kind.Gnu64?
    requires var w := if kind.Gnu64? then 8 else 4;
      && ArchiveSymbols.NullFree(symbols) && |symbols| < Endian.Capacity(w)
      && (forall i :: 0 <= i < |symbols| ==> symbols[i].offset < Endian.Capacity(w))
      && HasMember(data, 8, GnuName(kind), ArchiveSymbols.GnuLayout(w, symbols, padding))
    ensures f.kind == kind || (kind.Gnu? && f.kind.Coff?)
    ensures var size := |ArchiveSymbols.GnuLayout(if kind.Gnu64? then 8 else 4, symbols, padding)|;
      && (f.kind == kind ==> f.symbols == (68, size))
      && (Behind(8, size) >= |data| ==> f.kind == kind)
    ensures f.kind == kind ==> TableItems(data, f) == Ok(Some(Successes(symbols)))
  {
    hide MemberAt, HasHeader, ArchiveSymbols.GnuLayout, Endian.Capacity, ArchiveSymbols.Items, Maximal,
         ArchiveSymbols.OpenTable, TableItems;
    var table := ArchiveSymbols.GnuLayout(if kind.Gnu64? then 8 else 4, symbols, padding);
    NamesDiffer();
    SlashNames();
    SlashMember(data, 8, GnuName(kind), |table|, [], f.thin);
    var m := Member(GnuName(kind), 68, |table|);
    FirstSkipped(data, f, skipped, m, Behind(8, |table|));
    KindOfNames(f.kind, NamesOf(skipped));
    if f.kind == kind {
      TableFound(data, f, m, table);
      ArchiveSymbols.GnuRoundTrip(kind, symbols, padding);
    }
  }

  lemma SlashNames()
    ensures SPACE !in Ascii("/") && SPACE !in Ascii("/SYM64/") && !IsDigit(Ascii("/SYM64/")[1], 10)
    ensures HasDataWhenThin(Ascii("/")) && HasDataWhenThin(Ascii("/SYM64/"))
    ensures StartsArchive(Ascii("/")) && StartsArchive(Ascii("/SYM64/"))
  {
  }

  /** The first member holds `table`, with its name in the header or, padded with null bytes, in front of the data. */
  ghost predicate HasNamed(data: seq<byte>, name: seq<byte>, stored: bool, pad: nat, table: seq<byte>)
  {
    if stored then
      && |Print(|name| + pad, 10)| <= 13
      && HasMember(data, 8, Ascii("#1/") + Print(|name| + pad, 10), name + seq(pad, _ => NUL) + table)
    else HasMember(data, 8, name, table)
  }

  /** The numbers of a BSD table fit its words. */
  ghost predicate BsdFits(kind: Kind, symbols: seq<ArchiveSymbols.Symbol>)
  {
    var w := if kind.Bsd64? then 8 else 4;
    && ArchiveSymbols.NullFree(symbols) && w * (2 * |symbols|) < Endian.Capacity(w)
    && |ArchiveSymbols.NamesOf(symbols)| < Endian.Capacity(w)
    && forall i :: 0 <= i < |symbols| ==> symbols[i].offset < Endian.Capacity(w)
  }

  /**
   A BSD archive, 32- or 64-bit: the table is named in the header, or in front of the data. What is
   parsed from the file reads back as the symbols that were laid out.
   */
  lemma BsdArchive(data: seq<byte>, f: ArchiveFile, skipped: seq<Member>, kind: Kind, name: seq<byte>, stored: bool,
                   pad: nat, symbols: seq<ArchiveSymbols.Symbol>, padding: seq<byte>)
    requires InMemory(data) && Explains(data, f, skipped) && Maximal(data, f, skipped) && !f.thin
    requires kind.Bsd? || kind.Bsd64?
    requires name in (if kind.Bsd? then {Ascii("__.SYMDEF"), Ascii("__.SYMDEF SORTED")}
                      else {Ascii("__.SYMDEF_64"), Ascii("__.SYMDEF_64 SORTED")})
    requires BsdFits(kind, symbols) && (!stored ==> |name| < 16)
    requires HasNamed(data, name, stored, pad, BsdTableOf(kind, symbols, padding))
    ensures f.kind == kind
    ensures f.symbols == (68 + (if stored then |name| + pad else 0), |BsdTableOf(kind, symbols, padding)|)
    ensures TableItems(data, f) == Ok(Some(Successes(symbols)))
  {
    hide MemberAt, HasNamed, BsdFits, BsdTableOf, ArchiveSymbols.Items, Maximal, ArchiveSymbols.OpenTable, TableItems,
         Ascii;
    var table := BsdTableOf(kind, symbols, padding);
    BsdNames();
    var m, next := BsdMember(data, name, stored, pad, table);
    FirstSkipped(data, f, skipped, m, next);
    KindOfNames(f.kind, NamesOf(skipped));
    TableFound(data, f, m, table);
    BsdTableReads(kind, symbols, padding);
  }

  /** The member with a BSD table, with its name in the header or in front of the data. */
  lemma BsdMember(data: seq<byte>, name: seq<byte>, stored: bool, pad: nat, table: seq<byte>)
    returns (m: Member, next: u64)
    requires InMemory(data) && |name| > 0 && name[0] == 0x5f && NUL !in name && SLASH !in name
    requires HasNamed(data, name, stored, pad, table) && (!stored ==> |name| < 16 && SPACE !in name)
    ensures MemberAt(data, 8, [], false) == Ok(Parsed(m, next))
    ensures m.name == name && m.offset == 68 + (if stored then |name| + pad else 0) && m.size == |table|
    ensures m.offset + m.size <= |data| && data[m.offset..m.offset + m.size] == table
  {
    hide MemberAt, HasHeader, Ascii;
    if stored {
      ExtendedMember(data, 8, name, pad, table, []);
    } else {
      ShortMember(data, 8, name, false, |table|, []);
    }
    m, next := MemberAt(data, 8, [], false).value.member, MemberAt(data, 8, [], false).value.next;
  }

  function BsdTableOf(kind: Kind, symbols: seq<ArchiveSymbols.Symbol>, padding: seq<byte>): seq<byte>
  {
    ArchiveSymbols.BsdLayout(if kind.Bsd64? then 8 else 4, ArchiveSymbols.BsdWords(symbols),
                             ArchiveSymbols.NamesOf(symbols), padding)
  }

  lemma BsdTableReads(kind: Kind, symbols: seq<ArchiveSymbols.Symbol>, padding: seq<byte>)
    requires kind.Bsd? || kind.Bsd64?
    requires BsdFits(kind, symbols)
    ensures var s := ArchiveSymbols.OpenTable(kind, BsdTableOf(kind, symbols, padding));
      s.Ok? && ArchiveSymbols.Items(s.value) == Successes(symbols)
  {
    hide ArchiveSymbols.Items, ArchiveSymbols.OpenTable, ArchiveSymbols.NamesOf, ArchiveSymbols.BsdWords,
         ArchiveSymbols.BsdLayout, Endian.Capacity;
    ArchiveSymbols.BsdRoundTrip(kind, symbols, padding);
  }

  lemma BsdNames()
    ensures forall name :: name in {Ascii("__.SYMDEF"), Ascii("__.SYMDEF_64")} ==> SPACE !in name
    ensures forall name :: name in {Ascii("__.SYMDEF"), Ascii("__.SYMDEF SORTED"), Ascii("__.SYMDEF_64"),
                                    Ascii("__.SYMDEF_64 SORTED")} ==>
      NUL !in name && SLASH !in name && |name| > 0 && name[0] == 0x5f && StartsArchive(name)
    ensures |Ascii("__.SYMDEF SORTED")| == 16 && |Ascii("__.SYMDEF_64 SORTED")| == 19
  {
    hide Ascii;
    Spelled("__.SYMDEF");
    Spelled("__.SYMDEF SORTED");
    Spelled("__.SYMDEF_64");
    Spelled("__.SYMDEF_64 SORTED");
  }

  lemma Spelled(s: string)
    requires s != [] && s[0] == '_'
    requires forall i :: 0 <= i < |s| ==> s[i] in {'_', '.', ' ', '6', '4'} || 'A' <= s[i] <= 'Z'
    ensures |Ascii(s)| == |s| && NUL !in Ascii(s) && SLASH !in Ascii(s) && Ascii(s)[0] == 0x5f
    ensures ' ' !in s ==> SPACE !in Ascii(s)
  {
  }

  /**
   A COFF archive: two linker members, of which the second holds a table as it is laid out. What is
   parsed from the file reads back with every symbol at the offset of the member it refers to.
   */
  lemma CoffArchive(data: seq<byte>, f: ArchiveFile, skipped: seq<Member>, first: seq<byte>,
                    members: seq<nat>, refs: seq<nat>, names: seq<seq<byte>>, padding: seq<byte>)
    requires InMemory(data) && Explains(data, f, skipped) && Maximal(data, f, skipped)
    requires |refs| == |names| && forall i :: 0 <= i < |refs| ==> 1 <= refs[i] <= |members|
    requires ArchiveSymbols.NullFree(ArchiveSymbols.Resolve(members, refs, names))
    requires |members| < Endian.Capacity(4) && |refs| < Endian.Capacity(4)
    requires forall i :: 0 <= i < |members| ==> members[i] < Endian.Capacity(4)
    requires forall i :: 0 <= i < |refs| ==> refs[i] < Endian.Capacity(2)
    requires HasMember(data, 8, Ascii("/"), first)
    requires HasMember(data, Behind(8, |first|), Ascii("/"), CoffTableOf(members, refs, names, padding))
    ensures f.kind.Coff?
    ensures f.symbols == (Behind(8, |first|) + 60, |CoffTableOf(members, refs, names, padding)|)
    ensures TableItems(data, f) == Ok(Some(Successes(ArchiveSymbols.Resolve(members, refs, names))))
  {
    hide MemberAt, HasHeader, CoffTableOf, Endian.Capacity, ArchiveSymbols.Items, Maximal, ArchiveSymbols.OpenTable,
         TableItems, ArchiveSymbols.Resolve, Ascii, ArchiveSymbols.NullFree;
    var table, at := CoffTableOf(members, refs, names, padding), Behind(8, |first|);
    NamesDiffer();
    SlashNames();
    SlashMember(data, 8, Ascii("/"), |first|, [], f.thin);
    SlashMember(data, at, Ascii("/"), |table|, [], f.thin);
    var m, m2 := Member(Ascii("/"), 68, |first|), Member(Ascii("/"), at + 60, |table|);
    FirstSkipped(data, f, skipped, m, at);
    SecondSkipped(data, f, skipped, m, at, m2, Behind(at, |table|));
    assert NamesOf(skipped)[0] == m.name;
    TableFound(data, f, m2, table);
    CoffTableReads(members, refs, names, padding);
  }

  function CoffTableOf(members: seq<nat>, refs: seq<nat>, names: seq<seq<byte>>, padding: seq<byte>): seq<byte>
    requires |refs| == |names| && forall i :: 0 <= i < |refs| ==> 1 <= refs[i] <= |members|
  {
    ArchiveSymbols.CoffLayout(members, refs,
                              ArchiveSymbols.NamesOf(ArchiveSymbols.Resolve(members, refs, names)) + padding)
  }

  lemma CoffTableReads(members: seq<nat>, refs: seq<nat>, names: seq<seq<byte>>, padding: seq<byte>)
    requires |refs| == |names| && forall i :: 0 <= i < |refs| ==> 1 <= refs[i] <= |members|
    requires ArchiveSymbols.NullFree(ArchiveSymbols.Resolve(members, refs, names))
    requires |members| < Endian.Capacity(4) && |refs| < Endian.Capacity(4)
    requires forall i :: 0 <= i < |members| ==> members[i] < Endian.Capacity(4)
    requires forall i :: 0 <= i < |refs| ==> refs[i] < Endian.Capacity(2)
    ensures var s := ArchiveSymbols.OpenTable(Coff, CoffTableOf(members, refs, names, padding));
      s.Ok? && ArchiveSymbols.Items(s.value) == Successes(ArchiveSymbols.Resolve(members, refs, names))
  {
    hide ArchiveSymbols.Items, ArchiveSymbols.OpenTable, ArchiveSymbols.NamesOf, ArchiveSymbols.Resolve,
         ArchiveSymbols.CoffLayout, Endian.Capacity, ArchiveSymbols.NullFree;
    ArchiveSymbols.CoffRoundTrip(members, refs, names, padding);
  }

  /** An archive that consists of one member that holds a symbol table is readable. */
  lemma OnlyTableReadable(data: seq<byte>, m: Member, next: u64)
    requires InMemory(data) && |data| > 8 && data[..8] in {Ascii("!<arch>\n"), Ascii("!<thin>\n")}
    requires MemberAt(data, 8, [], data[..8] == Ascii("!<thin>\n")) == Ok(Parsed(m, next))
    requires next >= |data| && m.name != Ascii("//")
    ensures !Unreadable(data)
  {
    hide MemberAt, Broken;
    var thin := data[..8] == THIN_MAGIC;
    MagicsDiffer();
    assert Steps(data, [], thin, next, next, []);
    assert [m][1..] == [];
    OneFront(data, thin, m, next);
  }

  /** Parsing an archive and reading its symbols. */
  method ParseSymbols(data: seq<byte>)
    returns (o: Outcome, r: Result<Option<seq<Result<ArchiveSymbols.Symbol>>>>)
    requires InMemory(data)
    ensures o.Failed? <==> Unreadable(data)
    ensures o.Common? ==> r == TableItems(data, o.file)
    ensures o.Common? ==> exists skipped :: Explains(data, o.file, skipped) && Maximal(data, o.file, skipped)
  {
    hide Explains, Maximal, Unreadable, TableItems;
    o := ParseArchive(data);
    r := Err;
    if o.Common? {
      r := Symbols(data, o.file);
    }
  }
}