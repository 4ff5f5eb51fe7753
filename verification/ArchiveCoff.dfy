/**
 Which members of an archive are missing from its member list: the special ones, and in one layout
 of a COFF archive an ordinary one as well.
 */
module ArchiveCoff {
  import opened Prelude
  import opened ReadRef
  import opened ArchiveFields
  import opened Archive
  import opened ArchiveTables

  /** The names of symbol tables and name tables. */
  predicate Special(name: seq<byte>)
  {
    StartsArchive(name) || name == N_EC_SYMBOLS
  }

  ghost predicate AllSpecial(members: seq<Member>)
  {
    forall k :: 0 <= k < |members| ==> Special(members[k].name)
  }

  /** Only the third of four special members of a COFF archive can be an ordinary one. */
  lemma SkippedSpecial(data: seq<byte>, f: ArchiveFile, skipped: seq<Member>)
    requires InMemory(data) && Explains(data, f, skipped)
    ensures AllSpecial(skipped) <==> !(f.kind.Coff? && |skipped| == 4 && !Special(skipped[2].name))
  {
    hide MemberAt, Steps, SymbolsOf, NameTableOf;
    var names := NamesOf(skipped);
    forall k | 0 <= k < |skipped| && (k != 2 || |skipped| != 4)
      ensures Special(skipped[k].name)
    {
      assert names[k] == skipped[k].name;
    }
  }

  /** Four headers at the front of the file: two linker members, an ordinary member, and EC symbols. */
  ghost predicate HidesAt(data: seq<byte>, thin: bool, front: seq<Member>, to: u64)
    requires InMemory(data)
  {
    && |front| == 4 && Steps(data, [], thin, MAGIC_SIZE, to, front)
    && front[0].name == N_SYMBOLS && front[1].name == N_SYMBOLS
    && !Special(front[2].name) && front[3].name == N_EC_SYMBOLS
  }

  ghost predicate HidesMember(data: seq<byte>, thin: bool)
    requires InMemory(data)
  {
    exists front, to :: HidesAt(data, thin, front, to)
  }

  /** If some longer list of members at the front is documented, more could have been skipped. */
  lemma LongerFront(data: seq<byte>, f: ArchiveFile, skipped: seq<Member>, to: u64, front: seq<Member>, kind: Kind)
    requires InMemory(data) && Explains(data, f, skipped)
    requires Steps(data, f.names, f.thin, MAGIC_SIZE, to, front) && |skipped| < |front|
    requires Documented(kind, NamesOf(front))
    ensures !Maximal(data, f, skipped)
  {
    hide MemberAt, NameTableOf, SymbolsOf, Documented;
    StepsDeterministic(data, f.names, f.thin, MAGIC_SIZE, f.membersOffset, skipped, to, front);
    var names, rest, n := NamesOf(front), front[|skipped|..], |skipped|;
    var next := MemberAt(data, f.membersOffset, f.names, f.thin).value;
    assert next.member == rest[0] == front[n];
    assert skipped + [next.member] == front[..n + 1];
    assert names[..n] == NamesOf(skipped);
    if f.kind.Coff? && n == 2 && |front| == 4 {
      FourthName(kind, names);
      assert rest[1..][0] == front[3] && names[3] == front[3].name;
    } else {
      assert names[..n + 1] == NamesOf(skipped + [next.member]);
      LongerNames(f.kind, names, n, kind);
      assert names[..n + 1] == NamesOf(skipped + [next.member]);
    }
  }

  /** A documented list of names that is longer is reached one name at a time, with one exception. */
  lemma LongerNames(k: Kind, names: seq<seq<byte>>, n: nat, kind: Kind)
    requires n < |names| && Documented(k, names[..n]) && Documented(kind, names)
    requires !(k.Coff? && n == 2 && |names| == 4)
    ensures var longer := names[..n + 1];
      exists k' :: Documented(k', longer)
  {
    if n + 1 == |names| {
      assert names[..n + 1] == names;
    } else if n == 0 {
      assert names[..1] == [names[0]];
      assert Documented(if kind.Coff? then Gnu else kind, names[..1]);
    } else if n == 1 {
      assert names[..2] == [names[0], names[1]];
      assert Documented(Coff, names[..2]);
    }
  }

  lemma FourthName(kind: Kind, names: seq<seq<byte>>)
    requires Documented(kind, names) && |names| == 4
    ensures names[3] == N_EC_SYMBOLS
  {
  }

  /**
   An ordinary member is missing from the member list of a parsed archive if and only if the first
   four headers of the file are those of a COFF archive with an ordinary third member.
   */
  lemma HiddenIff(data: seq<byte>, f: ArchiveFile, skipped: seq<Member>)
    requires InMemory(data) && Explains(data, f, skipped) && Maximal(data, f, skipped)
    ensures !AllSpecial(skipped) <==> HidesMember(data, f.thin)
  {
    hide MemberAt, Maximal, Documented, Special, HidesAt;
    SkippedSpecial(data, f, skipped);
    if !AllSpecial(skipped) {
      CoffNames(data, f, skipped);
      assert HidesAt(data, f.thin, skipped, f.membersOffset);
    }
    if HidesMember(data, f.thin) {
      var front, to :| HidesAt(data, f.thin, front, to);
      HiddenFront(data, f, skipped, front, to);
    }
  }

  lemma CoffNames(data: seq<byte>, f: ArchiveFile, skipped: seq<Member>)
    requires InMemory(data) && Explains(data, f, skipped)
    requires f.kind.Coff? && |skipped| == 4 && !Special(skipped[2].name)
    ensures HidesAt(data, f.thin, skipped, f.membersOffset)
  {
    hide MemberAt;
    var names := NamesOf(skipped);
    assert names[0] == skipped[0].name && names[1] == skipped[1].name && names[3] == skipped[3].name;
  }

  /** Such headers are exactly what the parser skips. */
  lemma HiddenFront(data: seq<byte>, f: ArchiveFile, skipped: seq<Member>, front: seq<Member>, to: u64)
    requires InMemory(data) && Explains(data, f, skipped) && Maximal(data, f, skipped)
    requires HidesAt(data, f.thin, front, to)
    ensures skipped == front && !AllSpecial(skipped)
  {
    hide MemberAt, Maximal, Special, NameTableOf, SymbolsOf;
    var names := NamesOf(front);
    assert Documented(Coff, names);
    StepsRename(data, f.names, f.thin, MAGIC_SIZE, to, front);
    ShortFront(data, f, skipped);
    if |skipped| < 4 {
      LongerFront(data, f, skipped, to, front, Coff);
    } else {
      StepsDeterministic(data, f.names, f.thin, MAGIC_SIZE, f.membersOffset, skipped, to, front);
    }
  }

  lemma ShortFront(data: seq<byte>, f: ArchiveFile, skipped: seq<Member>)
    requires InMemory(data) && Explains(data, f, skipped)
    ensures |skipped| <= 4
  {
    hide MemberAt, Steps, NameTableOf, SymbolsOf;
    assert |NamesOf(skipped)| == |skipped|;
  }

  /**
   Parsing and draining: the items are everything that the whole walk yields behind the skipped
   members, and those are all special exactly when no member is hidden.
   */
  method AllMembers(data: seq<byte>) returns (r: Outcome, items: seq<Result<Member>>)
    requires InMemory(data)
    ensures r.Common? ==> exists skipped ::
      Explains(data, r.file, skipped) &&
      Walk(data, MAGIC_SIZE, r.file.names, r.file.thin) == Successes(skipped) + items &&
      (AllSpecial(skipped) <==> !HidesMember(data, r.file.thin))
  {
    hide Explains, Maximal, Walk, AllSpecial, HidesMember;
    r, items := Members(data);
    if r.Common? {
      ghost var skipped :| Explains(data, r.file, skipped) && Maximal(data, r.file, skipped) &&
        Walk(data, MAGIC_SIZE, r.file.names, r.file.thin) == Successes(skipped) + items;
      HiddenIff(data, r.file, skipped);
    }
  }

  // ---------------------------------------------------------------------------------------------
  // An archive with a hidden member.

  /** The header of an empty member. */
  function EmptyMember(name: seq<byte>): (h: seq<byte>)
    requires |name| <= 16
    ensures |h| == HEADER_SIZE
  {
    name + Spaces(16 - |name|) + Spaces(32) + ([0x30] + Spaces(9)) + Ascii("`\n")
  }

  /** An empty member whose name starts with a slash that no digit follows. */
  lemma EmptyMemberAt(data: seq<byte>, offset: u64, name: seq<byte>, names: seq<byte>)
    requires InMemory(data) && 0 < |name| < 16 && SPACE !in name && name[0] == SLASH
    requires |name| > 1 ==> !IsDigit(name[1], 10)
    requires offset + HEADER_SIZE <= |data| && data[offset..offset + HEADER_SIZE] == EmptyMember(name)
    ensures MemberAt(data, offset, names, false) ==
            Ok(Parsed(Member(name, offset + HEADER_SIZE, 0), offset + HEADER_SIZE))
  {
    hide MemberAt, HasHeader;
    EmptyHeader(data, offset, name);
    SlashMember(data, offset, name, 0, names, false);
  }

  /** An empty member with a name that ends in a slash. */
  lemma ShortMemberAt(data: seq<byte>, offset: u64, name: seq<byte>, names: seq<byte>)
    requires InMemory(data) && 0 < |name| < 16 && SLASH !in name && name[0] != 0x23
    requires offset + HEADER_SIZE <= |data| && data[offset..offset + HEADER_SIZE] == EmptyMember(name + [SLASH])
    ensures MemberAt(data, offset, names, false) ==
            Ok(Parsed(Member(name, offset + HEADER_SIZE, 0), offset + HEADER_SIZE))
  {
    hide MemberAt, HasHeader;
    EmptyHeader(data, offset, name + [SLASH]);
    ShortMember(data, offset, name, true, 0, names);
  }

  lemma EmptyHeader(data: seq<byte>, offset: nat, name: seq<byte>)
    requires |name| <= 16 && offset + HEADER_SIZE <= |data| && data[offset..offset + HEADER_SIZE] == EmptyMember(name)
    ensures HasHeader(data, offset, name, 0)
  {
    hide Ascii;
    assert Print(0, 10) == [0x30];
    var h := EmptyMember(name);
    assert h[0..16] == name + Spaces(16 - |name|);
    assert h[48..58] == [0x30] + Spaces(9);
    assert h[58..60] == Ascii("`\n");
    SliceOfSlice(data, offset, offset + HEADER_SIZE, 0, 16);
    SliceOfSlice(data, offset, offset + HEADER_SIZE, 48, 58);
    SliceOfSlice(data, offset, offset + HEADER_SIZE, 58, 60);
  }

  /** Two linker members, a member named `a`, and EC symbols. */
  function HidingArchive(): (data: seq<byte>)
    ensures |data| == 248
  {
    MAGIC + EmptyMember(N_SYMBOLS) + EmptyMember(N_SYMBOLS) + EmptyMember(Ascii("a/")) + EmptyMember(N_EC_SYMBOLS)
  }

  function HidingFront(): seq<Member>
  {
    [Member(N_SYMBOLS, 68, 0), Member(N_SYMBOLS, 128, 0), Member(Ascii("a"), 188, 0), Member(N_EC_SYMBOLS, 248, 0)]
  }

  lemma HidingHeaders()
    ensures var data := HidingArchive();
      && data[..8] == MAGIC
      && data[8..68] == EmptyMember(N_SYMBOLS) && data[68..128] == EmptyMember(N_SYMBOLS)
      && data[128..188] == EmptyMember(Ascii("a/")) && data[188..248] == EmptyMember(N_EC_SYMBOLS)
  {
    hide EmptyMember, Ascii;
  }

  lemma HidingMembers()
    ensures var data := HidingArchive();
      && MemberAt(data, 8, [], false) == Ok(Parsed(HidingFront()[0], 68))
      && MemberAt(data, 68, [], false) == Ok(Parsed(HidingFront()[1], 128))
      && MemberAt(data, 128, [], false) == Ok(Parsed(HidingFront()[2], 188))
      && MemberAt(data, 188, [], false) == Ok(Parsed(HidingFront()[3], 248))
  {
    hide EmptyMember, MemberAt;
    var data := HidingArchive();
    HidingHeaders();
    assert Ascii("a/") == Ascii("a") + [SLASH];
    EmptyMemberAt(data, 8, N_SYMBOLS, []);
    EmptyMemberAt(data, 68, N_SYMBOLS, []);
    ShortMemberAt(data, 128, Ascii("a"), []);
    EmptyMemberAt(data, 188, N_EC_SYMBOLS, []);
  }

  lemma HidingSteps()
    ensures HidesAt(HidingArchive(), false, HidingFront(), 248) && !Broken(HidingArchive(), false)
  {
    hide HidingArchive, MemberAt, Broken;
    var data, front := HidingArchive(), HidingFront();
    HidingMembers();
    StepsFour(data, front, 68, 128, 188, 248);
    HidingNames();
    CoffFront(data, false, front[..3], 188);
  }

  lemma HidingNames()
    ensures !Special(Ascii("a")) && Ascii("a") != N_NAMES
  {
    assert |Ascii("a")| == |N_SYMBOLS| && Ascii("a")[0] != N_SYMBOLS[0];
  }

  /** Four steps one by one. */
  lemma StepsFour(data: seq<byte>, m: seq<Member>, a: u64, b: u64, c: u64, d: u64)
    requires InMemory(data) && |m| == 4 && 8 < a < b < c < |data|
    requires MemberAt(data, 8, [], false) == Ok(Parsed(m[0], a)) && MemberAt(data, a, [], false) == Ok(Parsed(m[1], b))
    requires MemberAt(data, b, [], false) == Ok(Parsed(m[2], c)) && MemberAt(data, c, [], false) == Ok(Parsed(m[3], d))
    ensures Steps(data, [], false, MAGIC_SIZE, d, m) && Steps(data, [], false, MAGIC_SIZE, c, m[..3])
  {
    hide MemberAt;
    assert Steps(data, [], false, MAGIC_SIZE, MAGIC_SIZE, m[..0]);
    hide Steps;
    StepsSnoc(data, [], false, MAGIC_SIZE, MAGIC_SIZE, m[..0]);
    assert m[..0] + [m[0]] == m[..1];
    StepsSnoc(data, [], false, MAGIC_SIZE, a, m[..1]);
    assert m[..1] + [m[1]] == m[..2];
    StepsSnoc(data, [], false, MAGIC_SIZE, b, m[..2]);
    assert m[..2] + [m[2]] == m[..3];
    StepsSnoc(data, [], false, MAGIC_SIZE, c, m[..3]);
    assert m[..3] + [m[3]] == m;
  }

  /** The front members are the whole archive. */
  lemma HidingWalk()
    ensures Walk(HidingArchive(), MAGIC_SIZE, [], false) == Successes(HidingFront())
  {
    hide HidingArchive, MemberAt, Broken, HidingFront;
    HidingSteps();
    StepsSuffix(HidingArchive(), [], false, MAGIC_SIZE, 248, HidingFront());
  }

  /** What any parse of the archive must have skipped. */
  lemma HidingParsed(f: ArchiveFile, skipped: seq<Member>)
    requires Explains(HidingArchive(), f, skipped) && Maximal(HidingArchive(), f, skipped) && !f.thin
    ensures Walk(HidingArchive(), f.membersOffset, f.names, f.thin) == []
  {
    hide HidingArchive, MemberAt, Broken, HidingFront, Maximal, HidesAt, NameTableOf, SymbolsOf;
    var data := HidingArchive();
    HidingSteps();
    HiddenFront(data, f, skipped, HidingFront(), 248);
    FrontSteps(data, HidingFront(), 248);
    StepsRename(data, f.names, false, MAGIC_SIZE, 248, HidingFront());
    StepsDeterministic(data, f.names, false, MAGIC_SIZE, f.membersOffset, skipped, 248, HidingFront());
  }

  lemma FrontSteps(data: seq<byte>, front: seq<Member>, to: u64)
    requires InMemory(data) && HidesAt(data, false, front, to)
    ensures Steps(data, [], false, MAGIC_SIZE, to, front)
  {
  }

  /** The third member of the walk, which is named `a`, is not in the member list of the parsed archive. */
  method HiddenMemberExample() returns (r: Outcome, items: seq<Result<Member>>)
    ensures r.Common? && items == []
    ensures Walk(HidingArchive(), MAGIC_SIZE, [], false) == Successes(HidingFront())
    ensures HidingFront()[2] == Member(Ascii("a"), 188, 0)
  {
    hide HidingArchive, MemberAt, Broken, Explains, Maximal, Walk, HidesAt;
    var data := HidingArchive();
    HidingHeaders();
    HidingSteps();
    HidingWalk();
    MagicsDiffer();
    r, items := Members(data);
    ghost var skipped :| Explains(data, r.file, skipped) && Maximal(data, r.file, skipped);
    HidingParsed(r.file, skipped);
  }
}
