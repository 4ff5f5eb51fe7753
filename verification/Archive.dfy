/**
 Unix archives: the special members at the front, the walk over the remaining members, and where
 each member's header and data lie. The AIX big format is not part of this model.
 */
module Archive {
  import opened Prelude
  import opened ReadRef
  import opened ArchiveFields

  const HEADER_SIZE: nat := 60

  /** The header fields that are interpreted. */
  datatype Header = Header(name: seq<byte>, size: seq<byte>, terminator: seq<byte>)

  datatype Member = Member(name: seq<byte>, offset: u64, size: u64)

  /** Where parsing a member ends and what it yields. */
  datatype Parsed = Parsed(member: Member, next: u64)

  /** A file that fits in memory, as every byte slice does. */
  predicate InMemory(data: seq<byte>)
  {
    |data| < U64_MAX
  }

  function HeaderAt(data: seq<byte>, offset: nat): Header
    requires offset + HEADER_SIZE <= |data|
  {
    Header(data[offset..offset + 16], data[offset + 48..offset + 58], data[offset + 58..offset + 60])
  }

  /** `parse_bsd_extended_name`: the name takes the first bytes of the data. */
  function BsdName(digits: seq<byte>, data: seq<byte>, offset: u64, size: u64): Result<Member>
  {
    var len := DigitsValue(digits, 10);
    if len.None? || len.value > size then Err
    else if len.value > 0 && offset + len.value > |data| then Err
    else if offset + len.value > U64_MAX then Err
    else
      var raw := if len.value == 0 then [] else data[offset..offset + len.value];
      Ok(Member(Until(raw, NUL), offset + len.value, size - len.value))
  }

  predicate IsSysvName(name: seq<byte>)
    requires |name| == 16
  {
    name[0] == SLASH && IsDigit(name[1], 10)
  }

  predicate IsBsdName(name: seq<byte>)
    requires |name| == 16
  {
    name[..3] == Ascii("#1/") && IsDigit(name[3], 10)
  }

  /** The name, data offset and data size of a member whose data area starts at `offset`. */
  function Describe(name: seq<byte>, data: seq<byte>, offset: u64, size: u64, names: seq<byte>): Result<Member>
    requires |name| == 16
  {
    if IsSysvName(name) then
      match SysvName(name[1..], names)
      case Ok(n) => Ok(Member(n, offset, size))
      case Err => Err
    else if IsBsdName(name) then BsdName(name[3..], data, offset, size)
    else if name[0] == SLASH then Ok(Member(Until(name, SPACE), offset, size))
    else Ok(Member(ShortName(name), offset, size))
  }

  /** In a thin archive only these members carry their data. */
  predicate HasDataWhenThin(name: seq<byte>)
  {
    name == Ascii("/") || name == Ascii("//") || name == Ascii("/SYM64/")
  }

  /** The first even offset after `size` bytes of data at `offset`. */
  function Skip(offset: u64, size: u64): Option<u64>
  {
    if offset + size > U64_MAX then None
    else if size % 2 == 0 then Some(offset + size)
    else Some(Min(offset + size + 1, U64_MAX))
  }

  /** The member whose header is at `offset`, and the offset of the next header. */
  function MemberAt(data: seq<byte>, offset: u64, names: seq<byte>, thin: bool): Result<Parsed>
    requires InMemory(data)
  {
    if offset + HEADER_SIZE > |data| then Err
    else
      var h := HeaderAt(data, offset);
      var size := DigitsValue(h.size, 10);
      if h.terminator != Ascii("`\n") || size.None? then Err
      else
        var m := Describe(h.name, data, offset + HEADER_SIZE, size.value, names);
        if m.Err? then Err
        else if thin && !HasDataWhenThin(m.value.name) then
          Ok(Parsed(Member(m.value.name, 0, m.value.size), offset + HEADER_SIZE))
        else
          var next := Skip(offset + HEADER_SIZE, size.value);
          if next.None? then Err else Ok(Parsed(m.value, next.value))
  }

  /** `ArchiveMember::parse` */
  method ParseMember(data: seq<byte>, start: u64, names: seq<byte>, thin: bool)
    returns (r: Result<Member>, offset: u64)
    requires InMemory(data)
    ensures MemberAt(data, start, names, thin) == if r.Ok? then Ok(Parsed(r.value, offset)) else Err
  {
    hide DigitsValue, SysvName, BsdName, Until, ShortName;
    offset := start;
    if offset + HEADER_SIZE > |data| {
      return Err, offset;
    }
    var header := HeaderAt(data, offset);
    offset := offset + HEADER_SIZE;
    if header.terminator != Ascii("`\n") {
      return Err, offset;
    }
    var parsed := ParseU64Digits(header.size, 10);
    if parsed.None? {
      return Err, offset;
    }
    var headerFileSize := parsed.value;
    var fileOffset, fileSize := offset, headerFileSize;
    var name: seq<byte>;
    if IsSysvName(header.name) {
      var n := SysvName(header.name[1..], names);
      if n.Err? {
        return Err, offset;
      }
      name := n.value;
    } else if IsBsdName(header.name) {
      var n: Result<seq<byte>>;
      n, fileOffset, fileSize := ParseBsdExtendedName(header.name[3..], data, fileOffset, fileSize);
      if n.Err? {
        return Err, offset;
      }
      name := n.value;
    } else if header.name[0] == SLASH {
      name := Until(header.name, SPACE);
    } else {
      name := ShortName(header.name);
    }
    if thin && name != Ascii("/") && name != Ascii("//") && name != Ascii("/SYM64/") {
      return Ok(Member(name, 0, fileSize)), offset;
    }
    if offset + headerFileSize > U64_MAX {
      return Err, offset;
    }
    offset := offset + headerFileSize;
    if headerFileSize % 2 != 0 {
      offset := Min(offset + 1, U64_MAX);
    }
    r := Ok(Member(name, fileOffset, fileSize));
  }

  method ParseBsdExtendedName(digits: seq<byte>, data: seq<byte>, offset: u64, size: u64)
    returns (r: Result<seq<byte>>, offset': u64, size': u64)
    requires InMemory(data)  && offset <= |data|
    ensures BsdName(digits, data, offset, size) == if r.Ok? then Ok(Member(r.value, offset', size')) else Err
  {
    hide DigitsValue, Until;
    offset', size' := offset, size;
    var len := ParseU64Digits(digits, 10);
    if len.None? || len.value > size {
      return Err, offset', size';
    }
    size' := size - len.value;
    var raw := BytesAt(data, offset, len.value);
    if raw.Err? {
      return Err, offset', size';
    }
    offset' := offset + len.value;
    r := Ok(Until(raw.value, NUL));
  }

  // ---------------------------------------------------------------------------------------------
  // One member.

  /** Parsing succeeds only on a whole header, and moves on by at least its size. */
  lemma MemberProgress(data: seq<byte>, offset: u64, names: seq<byte>, thin: bool)
    requires InMemory(data) && MemberAt(data, offset, names, thin).Ok?
    ensures offset + HEADER_SIZE <= |data|
    ensures MemberAt(data, offset, names, thin).value.next >= offset + HEADER_SIZE
  {
  }

  /** The size field of the header at `offset`. */
  function HeaderSize(data: seq<byte>, offset: u64): nat
  {
    if offset + HEADER_SIZE > |data| then 0
    else
      match DigitsValue(HeaderAt(data, offset).size, 10)
      case None => 0
      case Some(n) => n
  }

  /**
   Extents: the data, with any name stored in front of it, fills exactly the area that the
   header announces, which ends at or before the next header.
   */
  lemma MemberExtent(data: seq<byte>, offset: u64, names: seq<byte>)
    requires InMemory(data) && MemberAt(data, offset, names, false).Ok?
    ensures var p := MemberAt(data, offset, names, false).value;
      && offset + HEADER_SIZE <= p.member.offset
      && p.member.offset + p.member.size == offset + HEADER_SIZE + HeaderSize(data, offset)
      && offset + HEADER_SIZE + HeaderSize(data, offset) <= p.next
      && p.next <= offset + HEADER_SIZE + HeaderSize(data, offset) + 1
  {
  }

  /** Headers stay at even offsets, except past the end of any file. */
  lemma MemberEven(data: seq<byte>, offset: u64, names: seq<byte>, thin: bool)
    requires InMemory(data) && MemberAt(data, offset, names, thin).Ok? && offset % 2 == 0
    ensures var next := MemberAt(data, offset, names, thin).value.next;
      next % 2 == 0 || next == U64_MAX
  {
    hide DigitsValue, Describe;
    if Skip(offset + HEADER_SIZE, HeaderSize(data, offset)).Some? {
      SkipEven(offset + HEADER_SIZE, HeaderSize(data, offset));
    }
  }

  lemma SkipEven(offset: u64, size: nat)
    requires offset % 2 == 0 && size <= U64_MAX && Skip(offset, size).Some?
    ensures Skip(offset, size).value % 2 == 0 || Skip(offset, size).value == U64_MAX
  {
  }

  /** A member that parses without a name table parses the same with any. */
  lemma NamesIrrelevant(data: seq<byte>, offset: u64, names: seq<byte>, thin: bool)
    requires InMemory(data) && MemberAt(data, offset, [], thin).Ok?
    ensures MemberAt(data, offset, names, thin) == MemberAt(data, offset, [], thin)
  {
  }

  // ---------------------------------------------------------------------------------------------
  // The walk.

  /** Everything that an iterator started at `offset` yields. */
  function Walk(data: seq<byte>, offset: u64, names: seq<byte>, thin: bool): seq<Result<Member>>
    requires InMemory(data)
    decreases |data| - offset
  {
    if offset >= |data| then []
    else
      match MemberAt(data, offset, names, thin)
      case Err => [Err]
      case Ok(p) =>
        assert p.next > offset;
        [Ok(p.member)] + Walk(data, p.next, names, thin)
  }

  /** The offsets at which that iterator reads headers. */
  function Offsets(data: seq<byte>, offset: u64, names: seq<byte>, thin: bool): (r: seq<u64>)
    requires InMemory(data)
    ensures |r| == |Walk(data, offset, names, thin)|
    ensures r != [] ==> r[0] == offset
    decreases |data| - offset
  {
    if offset >= |data| then []
    else
      match MemberAt(data, offset, names, thin)
      case Err => [offset]
      case Ok(p) => [offset] + Offsets(data, p.next, names, thin)
  }

  /** Every item but the last is a member, and headers are at least a header apart. */
  lemma {:induction false} WalkSteps(data: seq<byte>, offset: u64, names: seq<byte>, thin: bool, i: nat)
    requires InMemory(data) && i < |Walk(data, offset, names, thin)|
    ensures var w, o := Walk(data, offset, names, thin), Offsets(data, offset, names, thin);
      && offset + HEADER_SIZE * i <= o[i] < |data|
      && w[i] == (match MemberAt(data, o[i], names, thin) { case Err => Err case Ok(p) => Ok(p.member) })
      && (i + 1 < |w| ==> w[i].Ok? && MemberAt(data, o[i], names, thin).value.next == o[i + 1])
    decreases i
  {
    hide MemberAt;
    if i > 0 {
      MemberProgress(data, offset, names, thin);
      WalkSteps(data, MemberAt(data, offset, names, thin).value.next, names, thin, i - 1);
    }
  }

  /** At most one item per header that fits, and one error. */
  lemma {:induction false} WalkLength(data: seq<byte>, offset: u64, names: seq<byte>, thin: bool)
    requires InMemory(data)
    ensures |Walk(data, offset, names, thin)| <= |data| / HEADER_SIZE + 1
    ensures forall i :: 0 <= i < |Walk(data, offset, names, thin)| - 1 ==> Walk(data, offset, names, thin)[i].Ok?
  {
    hide MemberAt;
    var w := Walk(data, offset, names, thin);
    forall i | 0 <= i < |w| - 1
      ensures w[i].Ok?
    {
      WalkSteps(data, offset, names, thin, i);
    }
    if |w| > 0 {
      WalkSteps(data, offset, names, thin, |w| - 1);
    }
  }

  /** Every header of a walk that starts at an even offset is at an even offset. */
  lemma {:induction false} WalkEven(data: seq<byte>, offset: u64, names: seq<byte>, thin: bool, i: nat)
    requires InMemory(data) && offset % 2 == 0 && i < |Offsets(data, offset, names, thin)|
    ensures Offsets(data, offset, names, thin)[i] % 2 == 0
  {
    hide MemberAt;
    if i > 0 {
      WalkEven(data, offset, names, thin, i - 1);
      WalkSteps(data, offset, names, thin, i - 1);
      WalkSteps(data, offset, names, thin, i);
      MemberEven(data, Offsets(data, offset, names, thin)[i - 1], names, thin);
    }
  }

  lemma {:induction false} OffsetsIncrease(data: seq<byte>, offset: u64, names: seq<byte>, thin: bool, i: nat, j: nat)
    requires InMemory(data) && i < j < |Offsets(data, offset, names, thin)|
    ensures var o := Offsets(data, offset, names, thin);
      MemberAt(data, o[i], names, thin).Ok? && MemberAt(data, o[i], names, thin).value.next <= o[j]
    decreases j
  {
    hide MemberAt;
    WalkSteps(data, offset, names, thin, j - 1);
    if i < j - 1 {
      OffsetsIncrease(data, offset, names, thin, i, j - 1);
      MemberProgress(data, Offsets(data, offset, names, thin)[j - 1], names, thin);
    }
  }

  /** The payloads of a non-thin walk are disjoint, in order, and overlap no header. */
  lemma PayloadsDisjoint(data: seq<byte>, offset: u64, names: seq<byte>, i: nat, j: nat)
    requires InMemory(data) && i < j < |Walk(data, offset, names, false)|
    ensures var w, o := Walk(data, offset, names, false), Offsets(data, offset, names, false);
      && w[i].Ok?
      && o[i] + HEADER_SIZE <= w[i].value.offset
      && w[i].value.offset + w[i].value.size <= o[j]
      && (w[j].Ok? ==> o[j] + HEADER_SIZE <= w[j].value.offset)
  {
    hide MemberAt;
    OffsetsIncrease(data, offset, names, false, i, j);
    WalkSteps(data, offset, names, false, i);
    WalkSteps(data, offset, names, false, j);
    var o := Offsets(data, offset, names, false);
    MemberExtent(data, o[i], names);
    if Walk(data, offset, names, false)[j].Ok? {
      MemberExtent(data, o[j], names);
    }
  }

  /** `ArchiveMemberIterator` over the common formats. */
  class ArchiveMemberIterator {
    const data: seq<byte>
    const names: seq<byte>
    const thin: bool
    const endOffset: u64
    var offset: u64

    ghost predicate Valid()
      reads this
    {
      InMemory(data) && endOffset == |data|
    }

    /** What is still to come. */
    ghost function Remaining(): seq<Result<Member>>
      requires Valid()
      reads this
    {
      Walk(data, offset, names, thin)
    }

    constructor (data: seq<byte>, offset: u64, names: seq<byte>, thin: bool)
      requires InMemory(data)
      ensures Valid() && Remaining() == Walk(data, offset, names, thin)
      ensures this.data == data && this.offset == offset && this.names == names && this.thin == thin
    {
      this.data, this.names, this.thin := data, names, thin;
      this.offset, endOffset := offset, |data|;
    }

    /** Yields the first remaining item; after an error nothing remains. */
    method Next() returns (item: Option<Result<Member>>)
      requires Valid()
      modifies this
      ensures Valid()
      ensures item.None? <==> old(Remaining()) == []
      ensures item.None? ==> Remaining() == [] && offset == old(offset)
      ensures item.Some? ==> old(Remaining()) == [item.value] + Remaining()
      ensures item == Some(Err) ==> Remaining() == []
      ensures item.Some? && item.value.Ok? ==> offset >= old(offset) + HEADER_SIZE
    {
      if offset >= endOffset {
        return None;
      }
      var member, next := ParseMember(data, offset, names, thin);
      if member.Err? {
        offset := endOffset;
      } else {
        offset := next;
      }
      item := Some(member);
    }

    /** Draining the iterator yields the walk, in order. */
    method Collect() returns (items: seq<Result<Member>>)
      requires Valid()
      modifies this
      ensures Valid() && items == old(Remaining()) && Remaining() == []
    {
      hide Walk;
      items := [];
      var item := Next();
      while item.Some?
        invariant Valid()
        invariant item.Some? ==> items + [item.value] + Remaining() == old(Remaining())
        invariant item.None? ==> items == old(Remaining()) && Remaining() == []
        decreases item.Some?, |Remaining()|
      {
        items := items + [item.value];
        item := Next();
      }
    }
  }

  // ---------------------------------------------------------------------------------------------
  // The archive.

  datatype Kind = Unknown | Gnu | Gnu64 | Bsd | Bsd64 | Coff

  datatype ArchiveFile = ArchiveFile(kind: Kind, membersOffset: u64, symbols: (u64, u64), names: seq<byte>, thin: bool)

  datatype Outcome = Common(file: ArchiveFile) | AixBig | Failed

  const MAGIC_SIZE: nat := 8

  function FileRange(m: Member): (u64, u64)
  {
    (m.offset, m.size)
  }

  /** `ArchiveMember::data`: thin members have none. */
  function MemberData(data: seq<byte>, m: Member): Result<seq<byte>>
  {
    if m.offset == 0 then Ok([]) else BytesAt(data, m.offset, m.size)
  }

  /** Stepping from `from` over exactly the members `skipped` leads to `to`. */
  ghost predicate Steps(data: seq<byte>, names: seq<byte>, thin: bool, from: u64, to: u64, skipped: seq<Member>)
    requires InMemory(data)
    decreases |skipped|
  {
    if skipped == [] then from == to
    else
      var r := MemberAt(data, from, names, thin);
      from < |data| && r.Ok? && r.value.member == skipped[0] &&
      Steps(data, names, thin, r.value.next, to, skipped[1..])
  }

  /** A walk from a reached offset is what remains of the whole walk behind the skipped members. */
  lemma {:induction false} StepsSuffix(data: seq<byte>, names: seq<byte>, thin: bool, from: u64, to: u64,
                                       skipped: seq<Member>)
    requires InMemory(data) && Steps(data, names, thin, from, to, skipped)
    ensures Walk(data, from, names, thin) == Successes(skipped) + Walk(data, to, names, thin)
    decreases |skipped|
  {
    hide MemberAt;
    if skipped != [] {
      MemberProgress(data, from, names, thin);
      var p := MemberAt(data, from, names, thin).value;
      StepsSuffix(data, names, thin, p.next, to, skipped[1..]);
      assert Successes(skipped) == [Ok(p.member)] + Successes(skipped[1..]);
    }
  }

  lemma {:induction false} StepsSnoc(data: seq<byte>, names: seq<byte>, thin: bool, from: u64, to: u64,
                                     skipped: seq<Member>)
    requires InMemory(data) && Steps(data, names, thin, from, to, skipped)
    requires to < |data| && MemberAt(data, to, names, thin).Ok?
    ensures var p := MemberAt(data, to, names, thin).value;
      Steps(data, names, thin, from, p.next, skipped + [p.member])
    decreases |skipped|
  {
    hide MemberAt;
    var p := MemberAt(data, to, names, thin).value;
    if skipped == [] {
      assert [p.member][1..] == [];
    } else {
      StepsSnoc(data, names, thin, MemberAt(data, from, names, thin).value.next, to, skipped[1..]);
      assert (skipped + [p.member])[1..] == skipped[1..] + [p.member];
    }
  }

  lemma {:induction false} StepsRename(data: seq<byte>, names: seq<byte>, thin: bool, from: u64, to: u64,
                                       skipped: seq<Member>)
    requires InMemory(data) && Steps(data, [], thin, from, to, skipped)
    ensures Steps(data, names, thin, from, to, skipped)
    decreases |skipped|
  {
    hide MemberAt;
    if skipped != [] {
      NamesIrrelevant(data, from, names, thin);
      StepsRename(data, names, thin, MemberAt(data, from, [], thin).value.next, to, skipped[1..]);
    }
  }

  const N_SYMBOLS := Ascii("/")
  const N_SYMBOLS64 := Ascii("/SYM64/")
  const N_NAMES := Ascii("//")
  const N_SYMDEF := Ascii("__.SYMDEF")
  const N_SYMDEF_SORTED := Ascii("__.SYMDEF SORTED")
  const N_SYMDEF64 := Ascii("__.SYMDEF_64")
  const N_SYMDEF64_SORTED := Ascii("__.SYMDEF_64 SORTED")
  const N_EC_SYMBOLS := Ascii("/<ECSYMBOLS>/")

  /** The member names that may stand at the front of an archive of each kind. */
  predicate Documented(kind: Kind, names: seq<seq<byte>>)
  {
    match kind
    case Unknown => names == []
    case Gnu => names == [N_SYMBOLS] || names == [N_SYMBOLS, N_NAMES] || names == [N_NAMES]
    case Gnu64 => names == [N_SYMBOLS64] || names == [N_SYMBOLS64, N_NAMES]
    case Bsd => names == [N_SYMDEF] || names == [N_SYMDEF_SORTED]
    case Bsd64 => names == [N_SYMDEF64] || names == [N_SYMDEF64_SORTED]
    case Coff =>
      && 2 <= |names| <= 4 && names[0] == N_SYMBOLS && names[1] == N_SYMBOLS
      && (|names| == 3 ==> names[2] == N_NAMES)
      && (|names| == 4 ==> names[3] == N_EC_SYMBOLS)
  }

  function NamesOf(members: seq<Member>): (r: seq<seq<byte>>)
    ensures |r| == |members|
  {
    seq(|members|, i requires 0 <= i < |members| => members[i].name)
  }

  /** The symbol table is the first special member, or the second of a COFF archive. */
  function SymbolsOf(kind: Kind, skipped: seq<Member>): (u64, u64)
    requires Documented(kind, NamesOf(skipped))
  {
    if kind.Unknown? || skipped[0].name == N_NAMES then (0, 0)
    else if kind.Coff? then FileRange(skipped[1])
    else FileRange(skipped[0])
  }

  /** The extended name table, when its member is among the special ones. */
  function NameTableOf(data: seq<byte>, kind: Kind, skipped: seq<Member>): Result<seq<byte>>
    requires Documented(kind, NamesOf(skipped))
  {
    if kind.Coff? then
      if |skipped| > 2 && skipped[2].name == N_NAMES then MemberData(data, skipped[2]) else Ok([])
    else if skipped != [] && skipped[|skipped| - 1].name == N_NAMES then MemberData(data, skipped[|skipped| - 1])
    else Ok([])
  }

  /** `skipped` are the special members of `f`: they lead to its first ordinary member and explain its fields. */
  ghost predicate Explains(data: seq<byte>, f: ArchiveFile, skipped: seq<Member>)
    requires InMemory(data)
  {
    && Steps(data, f.names, f.thin, MAGIC_SIZE, f.membersOffset, skipped)
    && Documented(f.kind, NamesOf(skipped))
    && f.symbols == SymbolsOf(f.kind, skipped)
    && NameTableOf(data, f.kind, skipped) == Ok(f.names)
  }

  /** The next member could not have been special as well, nor the two behind a COFF symbol table together. */
  ghost predicate Maximal(data: seq<byte>, f: ArchiveFile, skipped: seq<Member>)
    requires InMemory(data)
  {
    NoneFollows(data, f, skipped) && (f.kind.Coff? && |skipped| == 2 ==> !EcSymbolsSecond(data, f))
  }

  ghost predicate NoneFollows(data: seq<byte>, f: ArchiveFile, skipped: seq<Member>)
    requires InMemory(data)
  {
    f.membersOffset < |data| ==>
      var next := MemberAt(data, f.membersOffset, f.names, f.thin);
      next.Ok? ==> forall kind :: !Documented(kind, NamesOf(skipped + [next.value.member]))
  }

  /** The second of the members is a COFF EC symbol table. */
  predicate EcSymbolsSecond(data: seq<byte>, f: ArchiveFile)
    requires InMemory(data)
  {
    var first := MemberAt(data, f.membersOffset, f.names, f.thin);
    && f.membersOffset < |data| && first.Ok? && first.value.next < |data|
    && var second := MemberAt(data, first.value.next, f.names, f.thin);
      second.Ok? && second.value.member.name == N_EC_SYMBOLS
  }

  /** Front member names after which one more member is looked at. */
  predicate LooksPast(names: seq<seq<byte>>)
  {
    || names == [] || names == [N_SYMBOLS] || names == [N_SYMBOLS64]
    || (2 <= |names| <= 3 && names[0] == N_SYMBOLS && names[1] == N_SYMBOLS)
  }

  /** Front member names of which the last is read as the extended name table. */
  predicate EndsInTable(names: seq<seq<byte>>)
  {
    || names == [N_NAMES] || names == [N_SYMBOLS, N_NAMES] || names == [N_SYMBOLS64, N_NAMES]
    || names == [N_SYMBOLS, N_SYMBOLS, N_NAMES]
  }

  /** The name table with which the member behind `front` is parsed. */
  function TableBehind(data: seq<byte>, front: seq<Member>): seq<byte>
  {
    if |front| == 3 && front[2].name == N_NAMES && MemberData(data, front[2]).Ok?
    then MemberData(data, front[2]).value
    else []
  }

  /** The first members `front`, which end at `to`, cannot be dealt with: an unreadable table or malformed header. */
  ghost predicate BreaksAt(data: seq<byte>, thin: bool, front: seq<Member>, to: u64)
    requires InMemory(data)
  {
    && Steps(data, [], thin, MAGIC_SIZE, to, front)
    && ((EndsInTable(NamesOf(front)) && MemberData(data, front[|front| - 1]).Err?) ||
        (LooksPast(NamesOf(front)) && to < |data| && MemberAt(data, to, TableBehind(data, front), thin).Err?))
  }

  ghost predicate Broken(data: seq<byte>, thin: bool)
    requires InMemory(data)
  {
    exists front, to :: BreaksAt(data, thin, front, to)
  }

  /** Steps from one offset are determined: the shorter list of members is a prefix of the longer. */
  lemma {:induction false} StepsDeterministic(data: seq<byte>, names: seq<byte>, thin: bool, from: u64,
                                              a: u64, s: seq<Member>, b: u64, t: seq<Member>)
    requires InMemory(data) && Steps(data, names, thin, from, a, s) && Steps(data, names, thin, from, b, t)
    requires |s| <= |t|
    ensures s == t[..|s|] && Steps(data, names, thin, a, b, t[|s|..])
    decreases |s|
  {
    hide MemberAt;
    if s == [] {
      assert t[0..] == t;
    } else {
      StepsDeterministic(data, names, thin, MemberAt(data, from, names, thin).value.next, a, s[1..], b, t[1..]);
      assert s == [s[0]] + s[1..] && t == [t[0]] + t[1..];
      assert t[1..][|s| - 1..] == t[|s|..];
    }
  }

  /** When all members looked at are well formed and all tables readable, nothing is broken. */
  lemma NotBroken(data: seq<byte>, thin: bool, front: seq<Member>, to: u64)
    requires InMemory(data) && Steps(data, [], thin, MAGIC_SIZE, to, front) && |front| <= 3
    requires to >= |data| || !LooksPast(NamesOf(front)) ||
             (|front| == 3 && MemberAt(data, to, TableBehind(data, front), thin).Ok?)
    requires front != [] ==> LooksPast(NamesOf(front)[..|front| - 1])
    requires EndsInTable(NamesOf(front)) ==> MemberData(data, front[|front| - 1]).Ok?
    ensures !Broken(data, thin)
  {
    hide MemberAt, MemberData;
    forall t, b | Steps(data, [], thin, MAGIC_SIZE, b, t)
      ensures !BreaksAt(data, thin, t, b)
    {
      if |t| < |front| {
        BeforeFront(data, thin, front, to, t, b);
      } else {
        StepsDeterministic(data, [], thin, MAGIC_SIZE, to, front, b, t);
        BehindFront(data, thin, front, to, t, b);
      }
    }
  }

  lemma BeforeFront(data: seq<byte>, thin: bool, front: seq<Member>, to: u64, t: seq<Member>, b: u64)
    requires InMemory(data) && Steps(data, [], thin, MAGIC_SIZE, to, front) && |t| < |front| <= 3
    requires Steps(data, [], thin, MAGIC_SIZE, b, t) && LooksPast(NamesOf(front)[..|front| - 1])
    ensures !BreaksAt(data, thin, t, b)
  {
    hide MemberAt, MemberData;
    var names := NamesOf(front)[..|front| - 1];
    StepsDeterministic(data, [], thin, MAGIC_SIZE, b, t, to, front);
    assert NamesOf(t) == names[..|t|];
    if |t| < |names| {
      FrontNames(names, |t|);
    }
    assert names[..|names|] == names;
    assert TableBehind(data, t) == [];
  }

  lemma BehindFront(data: seq<byte>, thin: bool, front: seq<Member>, to: u64, t: seq<Member>, b: u64)
    requires InMemory(data) && |front| <= |t| && front == t[..|front|] && Steps(data, [], thin, to, b, t[|front|..])
    requires to >= |data| || !LooksPast(NamesOf(front)) ||
             (|front| == 3 && MemberAt(data, to, TableBehind(data, front), thin).Ok?)
    requires EndsInTable(NamesOf(front)) ==> MemberData(data, front[|front| - 1]).Ok?
    ensures !BreaksAt(data, thin, t, b)
  {
    hide MemberAt, MemberData;
    if |t| == |front| {
      assert t == front;
    } else {
      assert NamesOf(t)[..|front|] == NamesOf(front);
      FrontNames(NamesOf(t), |front|);
    }
  }

  lemma IsBroken(data: seq<byte>, thin: bool, front: seq<Member>, to: u64)
    requires InMemory(data) && BreaksAt(data, thin, front, to)
    ensures Broken(data, thin)
  {
  }

  lemma TableLast(front: seq<Member>)
    ensures EndsInTable(NamesOf(front)) ==> front != [] && front[|front| - 1].name == N_NAMES
  {
    if EndsInTable(NamesOf(front)) {
      assert NamesOf(front)[|front| - 1] == N_NAMES;
    }
  }

  lemma OneFront(data: seq<byte>, thin: bool, m: Member, to: u64)
    requires InMemory(data) && Steps(data, [], thin, MAGIC_SIZE, to, [m])
    requires to >= |data| || !LooksPast([m.name])
    requires m.name == N_NAMES ==> MemberData(data, m).Ok?
    ensures !Broken(data, thin)
  {
    hide MemberAt, MemberData, Broken;
    assert NamesOf([m])[..0] == [];
    TableLast([m]);
    NotBroken(data, thin, [m], to);
  }

  lemma TwoFront(data: seq<byte>, thin: bool, first: Member, m: Member, to: u64)
    requires InMemory(data) && Steps(data, [], thin, MAGIC_SIZE, to, [first, m])
    requires first.name == N_SYMBOLS || first.name == N_SYMBOLS64
    requires m.name != N_SYMBOLS || first.name == N_SYMBOLS64
    requires m.name == N_NAMES ==> MemberData(data, m).Ok?
    ensures !Broken(data, thin)
  {
    hide MemberAt, MemberData, Broken;
    assert NamesOf([first, m])[..1] == [first.name];
    TableLast([first, m]);
    NotBroken(data, thin, [first, m], to);
  }

  lemma CoffBroken(data: seq<byte>, thin: bool, passed: seq<Member>, to: u64)
    requires InMemory(data) && Steps(data, [], thin, MAGIC_SIZE, to, passed) && 2 <= |passed| <= 3
    requires passed[0].name == N_SYMBOLS && passed[1].name == N_SYMBOLS
    requires to < |data| && MemberAt(data, to, TableBehind(data, passed), thin).Err?
    ensures Broken(data, thin)
  {
    hide MemberAt, MemberData, Broken;
    IsBroken(data, thin, passed, to);
  }

  /** The name table of a COFF archive, and the members in front of it. */
  lemma CoffTable(data: seq<byte>, f: ArchiveFile, skipped: seq<Member>, passed: seq<Member>)
    requires InMemory(data) && f.kind.Coff? && Explains(data, f, skipped)
    requires 2 <= |passed| <= 3 && |skipped| <= 3
    requires passed == skipped ||
      (|skipped| == 2 && passed[..2] == skipped && |passed| == 3 && passed[2].name != N_NAMES)
    ensures passed[0].name == N_SYMBOLS && passed[1].name == N_SYMBOLS
    ensures TableBehind(data, passed) == f.names
    ensures |passed| == 3 && passed[2].name == N_NAMES ==> MemberData(data, passed[2]).Ok?
  {
    hide MemberAt, MemberData;
    assert NamesOf(skipped)[0] == skipped[0].name && NamesOf(skipped)[1] == skipped[1].name;
    assert passed[0] == skipped[0] && passed[1] == skipped[1];
  }

  lemma CoffFront(data: seq<byte>, thin: bool, passed: seq<Member>, to: u64)
    requires InMemory(data) && Steps(data, [], thin, MAGIC_SIZE, to, passed) && 2 <= |passed| <= 3
    requires passed[0].name == N_SYMBOLS && passed[1].name == N_SYMBOLS
    requires |passed| == 3 && passed[2].name == N_NAMES ==> MemberData(data, passed[2]).Ok?
    requires to >= |data| || (|passed| == 3 && MemberAt(data, to, TableBehind(data, passed), thin).Ok?)
    ensures !Broken(data, thin)
  {
    hide MemberAt, MemberData, Broken;
    assert |passed| == 2 ==> NamesOf(passed)[..1] == [N_SYMBOLS];
    TableLast(passed);
    assert |N_SYMBOLS| != |N_NAMES|;
    NotBroken(data, thin, passed, to);
  }

  /** Members behind one that is not looked past are not looked at. */
  lemma FrontNames(names: seq<seq<byte>>, k: nat)
    requires k < |names|
    ensures LooksPast(names) || EndsInTable(names) ==> LooksPast(names[..k])
  {
  }

  /** Nothing may follow a name table, or a BSD symbol table. */
  lemma NothingFollows(data: seq<byte>, f: ArchiveFile, m: Member)
    requires InMemory(data) && m.name != N_SYMBOLS && m.name != N_SYMBOLS64
    ensures Maximal(data, f, [m])
  {
    hide MemberAt;
    if f.membersOffset < |data| {
      var r := MemberAt(data, f.membersOffset, f.names, f.thin);
      if r.Ok? {
        assert NamesOf([m] + [r.value.member]) == [m.name, r.value.member.name];
      }
    }
  }

  /** An ordinary member follows a symbol table. */
  lemma OrdinaryFollows(data: seq<byte>, f: ArchiveFile, first: Member, m: Member)
    requires InMemory(data) && f.membersOffset < |data|
    requires MemberAt(data, f.membersOffset, f.names, f.thin).Ok? ==>
      MemberAt(data, f.membersOffset, f.names, f.thin).value.member == m
    requires first.name == N_SYMBOLS ==> m.name != N_SYMBOLS
    requires m.name != N_NAMES
    ensures Maximal(data, f, [first])
  {
    hide MemberAt;
    assert NamesOf([first] + [m]) == [first.name, m.name];
  }

  /** A name table ends the special members of a GNU archive. */
  lemma NamesEnd(data: seq<byte>, f: ArchiveFile, first: Member, second: Member)
    requires InMemory(data) && second.name == N_NAMES && !f.kind.Coff?
    ensures Maximal(data, f, [first, second])
  {
    hide MemberAt;
    if f.membersOffset < |data| {
      var r := MemberAt(data, f.membersOffset, f.names, f.thin);
      if r.Ok? {
        assert NamesOf([first, second] + [r.value.member]) == [first.name, second.name, r.value.member.name];
      }
    }
  }

  const MAGIC := Ascii("!<arch>\n")
  const THIN_MAGIC := Ascii("!<thin>\n")
  const AIX_BIG_MAGIC := Ascii("<bigaf>\n")

  /** Neither a known magic nor front members that can be dealt with. */
  ghost predicate Unreadable(data: seq<byte>)
    requires InMemory(data)
  {
    || |data| < MAGIC_SIZE
    || data[..MAGIC_SIZE] !in {AIX_BIG_MAGIC, THIN_MAGIC, MAGIC}
    || (data[..MAGIC_SIZE] == THIN_MAGIC && Broken(data, true))
    || (data[..MAGIC_SIZE] == MAGIC && Broken(data, false))
  }

  lemma MagicsDiffer()
    ensures AIX_BIG_MAGIC != THIN_MAGIC && THIN_MAGIC != MAGIC && MAGIC != AIX_BIG_MAGIC
  {
    assert AIX_BIG_MAGIC[0] != THIN_MAGIC[0] && THIN_MAGIC[2] != MAGIC[2] && MAGIC[0] != AIX_BIG_MAGIC[0];
  }

  /** `ArchiveFile::parse` */
  method ParseArchive(data: seq<byte>) returns (r: Outcome)
    requires InMemory(data)
    ensures r.Common? ==> |data| >= MAGIC_SIZE
    ensures r.Common? ==> data[..MAGIC_SIZE] == if r.file.thin then THIN_MAGIC else MAGIC
    ensures r.Common? ==> exists skipped :: Explains(data, r.file, skipped) && Maximal(data, r.file, skipped)
    ensures r.AixBig? <==> |data| >= MAGIC_SIZE && data[..MAGIC_SIZE] == AIX_BIG_MAGIC
    ensures r.Failed? <==> Unreadable(data)
  {
    if |data| < MAGIC_SIZE {
      return Failed;
    }
    var magic := data[..MAGIC_SIZE];
    hide Broken;
    MagicsDiffer();
    if magic == AIX_BIG_MAGIC {
      return AixBig;
    } else if magic == THIN_MAGIC {
      r := ParseCommon(data, true);
    } else if magic == MAGIC {
      r := ParseCommon(data, false);
    } else {
      return Failed;
    }
  }

  /** The names that a special first member can have. */
  predicate StartsArchive(name: seq<byte>)
  {
    || name == N_SYMBOLS || name == N_SYMBOLS64 || name == N_NAMES
    || name == N_SYMDEF || name == N_SYMDEF_SORTED || name == N_SYMDEF64 || name == N_SYMDEF64_SORTED
  }

  /** An archive without special members. */
  lemma NoFront(data: seq<byte>, thin: bool)
    requires InMemory(data)
    requires MAGIC_SIZE < |data| ==>
      MemberAt(data, MAGIC_SIZE, [], thin).Ok? && !StartsArchive(MemberAt(data, MAGIC_SIZE, [], thin).value.member.name)
    ensures var file := ArchiveFile(Unknown, MAGIC_SIZE, (0, 0), [], thin);
      Explains(data, file, []) && Maximal(data, file, [])
  {
    hide MemberAt;
    if MAGIC_SIZE < |data| {
      var m := MemberAt(data, MAGIC_SIZE, [], thin).value.member;
      assert [] + [m] == [m] && NamesOf([m]) == [m.name];
    }
  }

  /** An archive that starts with a name table. */
  lemma NamesFront(data: seq<byte>, f: ArchiveFile, m: Member)
    requires InMemory(data) && m.name == N_NAMES && MemberData(data, m) == Ok(f.names)
    requires Steps(data, [], f.thin, MAGIC_SIZE, f.membersOffset, [m]) && f.kind.Gnu? && f.symbols == (0, 0)
    ensures Explains(data, f, [m]) && Maximal(data, f, [m]) && !Broken(data, f.thin)
  {
    hide MemberAt, MemberData, Broken, Maximal;
    StepsRename(data, f.names, f.thin, MAGIC_SIZE, f.membersOffset, [m]);
    NothingFollows(data, f, m);
    OneFront(data, f.thin, m, f.membersOffset);
  }

  /** An archive that starts with a BSD symbol table. */
  lemma BsdFront(data: seq<byte>, f: ArchiveFile, m: Member)
    requires InMemory(data) && f.names == [] && f.symbols == FileRange(m)
    requires Steps(data, [], f.thin, MAGIC_SIZE, f.membersOffset, [m])
    requires (f.kind.Bsd? && (m.name == N_SYMDEF || m.name == N_SYMDEF_SORTED)) ||
             (f.kind.Bsd64? && (m.name == N_SYMDEF64 || m.name == N_SYMDEF64_SORTED))
    ensures Explains(data, f, [m]) && Maximal(data, f, [m]) && !Broken(data, f.thin)
  {
    hide MemberAt, MemberData, Broken, Maximal;
    assert NamesOf([m]) == [m.name];
    NothingFollows(data, f, m);
    OneFront(data, f.thin, m, f.membersOffset);
  }

  /** The part of `ArchiveFile::parse` that classifies the first few members. */
  method ParseCommon(data: seq<byte>, thin: bool) returns (r: Outcome)
    requires InMemory(data) && |data| >= MAGIC_SIZE
    ensures !r.AixBig? && (r.Failed? <==> Broken(data, thin))
    ensures r.Common? ==> r.file.thin == thin
    ensures r.Common? ==> exists skipped :: Explains(data, r.file, skipped) && Maximal(data, r.file, skipped)
  {
    hide MemberAt, Broken, Maximal, Explains, MemberData;
    var tail: u64, len := MAGIC_SIZE, |data|;
    var file := ArchiveFile(Unknown, tail, (0, 0), [], thin);
    assert Steps(data, [], thin, MAGIC_SIZE, tail, []);
    if tail >= len {
      NoFront(data, thin);
      NotBroken(data, thin, [], tail);
      return Common(file);
    }
    var member, next := ParseMember(data, tail, [], thin);
    if member.Err? {
      IsBroken(data, thin, [], tail);
      return Failed;
    }
    var m := member.value;
    StepsSnoc(data, [], thin, MAGIC_SIZE, tail, []);
    assert [] + [m] == [m];
    if m.name == N_SYMBOLS {
      r := AfterSymbols(data, thin, m, next);
    } else if m.name == N_SYMBOLS64 {
      r := AfterSymbols64(data, thin, m, next);
    } else if m.name == N_NAMES {
      var names := MemberData(data, m);
      if names.Err? {
        IsBroken(data, thin, [m], next);
        return Failed;
      }
      file := ArchiveFile(Gnu, next, (0, 0), names.value, thin);
      NamesFront(data, file, m);
      r := Common(file);
    } else if m.name == N_SYMDEF || m.name == N_SYMDEF_SORTED {
      file := ArchiveFile(Bsd, next, FileRange(m), [], thin);
      BsdFront(data, file, m);
      r := Common(file);
    } else if m.name == N_SYMDEF64 || m.name == N_SYMDEF64_SORTED {
      file := ArchiveFile(Bsd64, next, FileRange(m), [], thin);
      BsdFront(data, file, m);
      r := Common(file);
    } else {
      NoFront(data, thin);
      OneFront(data, thin, m, next);
      r := Common(file);
    }
  }

  /** The second member of an archive that starts with a 64-bit GNU symbol table. */
  method AfterSymbols64(data: seq<byte>, thin: bool, first: Member, tail: u64) returns (r: Outcome)
    requires InMemory(data) && |data| >= MAGIC_SIZE && first.name == N_SYMBOLS64
    requires Steps(data, [], thin, MAGIC_SIZE, tail, [first])
    ensures !r.AixBig? && (r.Failed? <==> Broken(data, thin))
    ensures r.Common? ==> r.file.thin == thin
    ensures r.Common? ==> exists skipped :: Explains(data, r.file, skipped) && Maximal(data, r.file, skipped)
  {
    hide MemberAt, Broken;
    var file := ArchiveFile(Gnu64, tail, FileRange(first), [], thin);
    if tail >= |data| {
      assert Explains(data, file, [first]) && Maximal(data, file, [first]);
      OneFront(data, thin, first, tail);
      return Common(file);
    }
    var member, next := ParseMember(data, tail, [], thin);
    if member.Err? {
      IsBroken(data, thin, [first], tail);
      return Failed;
    }
    var m := member.value;
    StepsSnoc(data, [], thin, MAGIC_SIZE, tail, [first]);
    assert [first] + [m] == [first, m];
    if m.name == N_NAMES {
      var names := MemberData(data, m);
      if names.Err? {
        IsBroken(data, thin, [first, m], next);
        return Failed;
      }
      StepsRename(data, names.value, thin, MAGIC_SIZE, next, [first, m]);
      file := file.(names := names.value, membersOffset := next);
      NamesEnd(data, file, first, m);
      assert Explains(data, file, [first, m]);
    } else {
      OrdinaryFollows(data, file, first, m);
      assert Explains(data, file, [first]);
    }
    TwoFront(data, thin, first, m, next);
    r := Common(file);
  }

  /** The members behind a first symbol table: GNU names, or a COFF archive with up to four special members. */
  method AfterSymbols(data: seq<byte>, thin: bool, first: Member, start: u64) returns (r: Outcome)
    requires InMemory(data) && |data| >= MAGIC_SIZE && first.name == N_SYMBOLS
    requires Steps(data, [], thin, MAGIC_SIZE, start, [first])
    ensures !r.AixBig? && (r.Failed? <==> Broken(data, thin))
    ensures r.Common? ==> r.file.thin == thin
    ensures r.Common? ==> exists skipped :: Explains(data, r.file, skipped) && Maximal(data, r.file, skipped)
  {
    hide MemberAt, Broken;
    var tail := start;
    var file := ArchiveFile(Gnu, tail, FileRange(first), [], thin);
    if tail >= |data| {
      assert Explains(data, file, [first]) && Maximal(data, file, [first]);
      OneFront(data, thin, first, tail);
      return Common(file);
    }
    var member, next := ParseMember(data, tail, [], thin);
    if member.Err? {
      IsBroken(data, thin, [first], tail);
      return Failed;
    }
    var m := member.value;
    StepsSnoc(data, [], thin, MAGIC_SIZE, tail, [first]);
    assert [first] + [m] == [first, m];
    if m.name == N_SYMBOLS {
      r := AfterLinkerMember(data, thin, first, m, next);
    } else if m.name == N_NAMES {
      var names := MemberData(data, m);
      if names.Err? {
        IsBroken(data, thin, [first, m], next);
        return Failed;
      }
      StepsRename(data, names.value, thin, MAGIC_SIZE, next, [first, m]);
      file := file.(names := names.value, membersOffset := next);
      NamesEnd(data, file, first, m);
      assert Explains(data, file, [first, m]);
      TwoFront(data, thin, first, m, next);
      r := Common(file);
    } else {
      OrdinaryFollows(data, file, first, m);
      assert Explains(data, file, [first]);
      TwoFront(data, thin, first, m, next);
      r := Common(file);
    }
  }

  /** Two linker members, with or without a name table behind them. */
  lemma CoffStart(data: seq<byte>, f: ArchiveFile, skipped: seq<Member>)
    requires InMemory(data) && f.kind.Coff? && 2 <= |skipped| <= 3
    requires Steps(data, [], f.thin, MAGIC_SIZE, f.membersOffset, skipped) && f.symbols == FileRange(skipped[1])
    requires skipped[0].name == N_SYMBOLS && skipped[1].name == N_SYMBOLS
    requires if |skipped| == 2 then f.names == []
             else skipped[2].name == N_NAMES && MemberData(data, skipped[2]) == Ok(f.names)
    ensures Explains(data, f, skipped)
  {
    hide MemberAt, MemberData;
    StepsRename(data, f.names, f.thin, MAGIC_SIZE, f.membersOffset, skipped);
  }

  /** The third and fourth members of a COFF archive. */
  method AfterLinkerMember(data: seq<byte>, thin: bool, first: Member, second: Member, start: u64) returns (r: Outcome)
    requires InMemory(data) && |data| >= MAGIC_SIZE && first.name == N_SYMBOLS && second.name == N_SYMBOLS
    requires Steps(data, [], thin, MAGIC_SIZE, start, [first, second])
    ensures !r.AixBig? && (r.Failed? <==> Broken(data, thin))
    ensures r.Common? ==> r.file.thin == thin
    ensures r.Common? ==> exists skipped :: Explains(data, r.file, skipped) && Maximal(data, r.file, skipped)
  {
    hide MemberAt, MemberData, Broken, Explains, Maximal;
    var tail := start;
    var file := ArchiveFile(Coff, tail, FileRange(second), [], thin);
    ghost var skipped := [first, second];
    ghost var passed := [first, second];
    if tail < |data| {
      var member, next := ParseMember(data, tail, [], thin);
      if member.Err? {
        IsBroken(data, thin, skipped, tail);
        return Failed;
      }
      var m := member.value;
      StepsSnoc(data, [], thin, MAGIC_SIZE, tail, skipped);
      MemberProgress(data, tail, [], thin);
      tail := next;
      passed := skipped + [m];
      if m.name == N_NAMES {
        var names := MemberData(data, m);
        if names.Err? {
          IsBroken(data, thin, passed, tail);
          return Failed;
        }
        file := file.(names := names.value, membersOffset := tail);
        skipped := passed;
      }
    }
    StepsRename(data, file.names, thin, MAGIC_SIZE, tail, passed);
    CoffStart(data, file, skipped);
    r := AfterNames(data, file, tail, skipped, passed);
  }

  /** The last special member of a COFF archive, looked for behind `passed` even when the third is ordinary. */
  method AfterNames(data: seq<byte>, f: ArchiveFile, tail: u64, ghost skipped: seq<Member>, ghost passed: seq<Member>)
    returns (r: Outcome)
    requires InMemory(data) && f.kind.Coff?
    requires Explains(data, f, skipped) && Steps(data, f.names, f.thin, MAGIC_SIZE, tail, passed)
    requires Steps(data, [], f.thin, MAGIC_SIZE, tail, passed) && 2 <= |passed| <= 3
    requires if tail == f.membersOffset then passed == skipped && (|data| <= tail || |skipped| == 3)
             else |skipped| == 2 && |passed| == 3 && passed[..2] == skipped && passed[2].name != N_NAMES &&
                  MemberAt(data, f.membersOffset, f.names, f.thin) == Ok(Parsed(passed[2], tail))
    ensures !r.AixBig? && (r.Failed? <==> Broken(data, f.thin))
    ensures r.Common? ==> r.file.thin == f.thin
    ensures r.Common? ==> exists skipped :: Explains(data, r.file, skipped) && Maximal(data, r.file, skipped)
  {
    hide MemberAt, MemberData, Broken, LooksPast, EndsInTable, TableBehind, BreaksAt;
    CoffTable(data, f, skipped, passed);
    var file := f;
    if tail < |data| {
      var member, next := ParseMember(data, tail, file.names, file.thin);
      if member.Err? {
        CoffBroken(data, f.thin, passed, tail);
        return Failed;
      }
      if member.value.name == N_EC_SYMBOLS {
        StepsSnoc(data, file.names, file.thin, MAGIC_SIZE, tail, passed);
        EcFound(data, f, skipped, passed, member.value, next);
        CoffFront(data, f.thin, passed, tail);
        file := file.(membersOffset := next);
        return Common(file);
      }
    }
    CoffFront(data, f.thin, passed, tail);
    EcMissing(data, f, skipped, passed, tail);
    r := Common(file);
  }

  lemma EcFound(data: seq<byte>, f: ArchiveFile, skipped: seq<Member>, passed: seq<Member>, m: Member, next: u64)
    requires InMemory(data) && f.kind.Coff? && Explains(data, f, skipped) && m.name == N_EC_SYMBOLS
    requires Steps(data, f.names, f.thin, MAGIC_SIZE, next, passed + [m]) && |passed| == 3
    requires passed == skipped || (|skipped| == 2 && passed[..2] == skipped && passed[2].name != N_NAMES)
    ensures Explains(data, f.(membersOffset := next), passed + [m])
    ensures Maximal(data, f.(membersOffset := next), passed + [m])
  {
    hide MemberAt, MemberData, Steps;
    assert NamesOf(skipped)[0] == skipped[0].name && NamesOf(skipped)[1] == skipped[1].name;
    assert passed[0] == skipped[0] && passed[1] == skipped[1];
  }

  lemma EcMissing(data: seq<byte>, f: ArchiveFile, skipped: seq<Member>, passed: seq<Member>, tail: u64)
    requires InMemory(data) && f.kind.Coff? && Explains(data, f, skipped)
    requires if tail == f.membersOffset
             then passed == skipped && 2 <= |skipped| <= 3 && (|data| <= tail || |skipped| == 3) &&
                  (tail < |data| ==> MemberAt(data, tail, f.names, f.thin).Ok? &&
                                     MemberAt(data, tail, f.names, f.thin).value.member.name != N_EC_SYMBOLS)
             else |skipped| == 2 && |passed| == 3 && passed[2].name != N_NAMES &&
                  MemberAt(data, f.membersOffset, f.names, f.thin) == Ok(Parsed(passed[2], tail)) &&
                  (tail < |data| ==> MemberAt(data, tail, f.names, f.thin).Ok? &&
                                     MemberAt(data, tail, f.names, f.thin).value.member.name != N_EC_SYMBOLS)
    ensures Maximal(data, f, skipped)
  {
    hide MemberAt, MemberData, Steps, NameTableOf, SymbolsOf;
    if f.membersOffset < |data| {
      var m := MemberAt(data, f.membersOffset, f.names, f.thin).value.member;
      var names := NamesOf(skipped + [m]);
      assert names[|skipped|] == m.name && |names| == |skipped| + 1;
      assert NamesOf(skipped)[0] == names[0];
    }
  }

  /** The members of a parsed archive are what its whole walk yields behind the special members. */
  lemma MembersAreSuffix(data: seq<byte>, f: ArchiveFile, skipped: seq<Member>)
    requires InMemory(data) && Explains(data, f, skipped)
    ensures Walk(data, MAGIC_SIZE, f.names, f.thin) == Successes(skipped) + Walk(data, f.membersOffset, f.names, f.thin)
    ensures |skipped| <= 4
    ensures f.membersOffset % 2 == 0 || f.membersOffset >= |data|
  {
    hide MemberAt, Walk, NameTableOf;
    StepsSuffix(data, f.names, f.thin, MAGIC_SIZE, f.membersOffset, skipped);
    StepsEven(data, f.names, f.thin, MAGIC_SIZE, f.membersOffset, skipped);
  }

  lemma {:induction false} StepsEven(data: seq<byte>, names: seq<byte>, thin: bool, from: u64, to: u64,
                                     skipped: seq<Member>)
    requires InMemory(data) && Steps(data, names, thin, from, to, skipped)
    requires from % 2 == 0 || from >= |data|
    ensures to % 2 == 0 || to >= |data|
    decreases |skipped|
  {
    hide MemberAt;
    if skipped != [] {
      MemberEven(data, from, names, thin);
      StepsEven(data, names, thin, MemberAt(data, from, names, thin).value.next, to, skipped[1..]);
    }
  }

  /** Parsing an archive and draining its member iterator. */
  method Members(data: seq<byte>) returns (r: Outcome, items: seq<Result<Member>>)
    requires InMemory(data)
    ensures r.Failed? <==> Unreadable(data)
    ensures r.AixBig? <==> |data| >= MAGIC_SIZE && data[..MAGIC_SIZE] == AIX_BIG_MAGIC
    ensures r.Common? ==> |data| >= MAGIC_SIZE
    ensures r.Common? ==> data[..MAGIC_SIZE] == if r.file.thin then THIN_MAGIC else MAGIC
    ensures r.Common? ==> items == Walk(data, r.file.membersOffset, r.file.names, r.file.thin)
    ensures r.Common? ==> exists skipped ::
      Explains(data, r.file, skipped) && Maximal(data, r.file, skipped) &&
      Walk(data, MAGIC_SIZE, r.file.names, r.file.thin) == Successes(skipped) + items
  {
    r := ParseArchive(data);
    items := [];
    if r.Common? {
      var it := new ArchiveMemberIterator(data, r.file.membersOffset, r.file.names, r.file.thin);
      items := it.Collect();
      ghost var skipped :| Explains(data, r.file, skipped) && Maximal(data, r.file, skipped);
      MembersAreSuffix(data, r.file, skipped);
    }
  }
}
