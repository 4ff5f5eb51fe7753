/**
 What becomes of a relocation that is requested by kind, encoding and size: when it is accepted, what
 it says, where its addend is, and how much of this the reader reports.
 */
module MachORequests {
  import opened Prelude
  import opened Endian
  import opened MachO
  import opened MachOLayout
  import opened MachORelocs
  import opened MachOBuilder
  import opened MachORelocReader
  import Bits
  import RelocCodec

  /** A request by kind, encoding and size that is accepted leaves a section with one more relocation. */
  ghost predicate Accepted(o: Object, s: Section, offset: u64, symbol: nat, addend: int, request: Request, s': Section)
  {
    request.GenericRequest? && Requested(o, s, offset, symbol, addend, request) == Some(s')
  }

  /** What is stored for an addend: on x86-64, relative relocations count from behind a four-byte place. */
  function Stored(o: Object, addend: int, request: Request): int
    requires request.GenericRequest?
  {
    if o.arch.X86_64? && !request.kind.Absolute? then addend + 4 else addend
  }

  /**
   A request is accepted if and only if its size and its kind and encoding are among those of the
   architecture, and the addend, unless there is nothing to store or it is kept in the entry, has a
   place of four or eight bytes in the section.
   */
  lemma RequestAccepted(o: Object, s: Section, offset: u64, symbol: nat, addend: int, request: Request)
    requires request.GenericRequest?
    ensures Requested(o, s, offset, symbol, addend, request).Some? <==>
      var GenericRequest(kind, encoding, size) := request;
      && (size in {8, 16, 32, 64} || (o.arch.Aarch64? && size in {12, 21, 26}))
      && (match o.arch
          case I386 | Arm => kind.Absolute?
          case X86_64 =>
            (kind, encoding) in {
              (RelocationKind.Absolute, RelocationEncoding.Generic),
              (RelocationKind.Relative, RelocationEncoding.Generic),
              (RelocationKind.Relative, RelocationEncoding.X86RipRelative),
              (RelocationKind.Relative, RelocationEncoding.X86Branch),
              (RelocationKind.PltRelative, RelocationEncoding.X86Branch),
              (RelocationKind.GotRelative, RelocationEncoding.Generic),
              (RelocationKind.GotRelative, RelocationEncoding.X86RipRelativeMovq)}
          case Aarch64 | Aarch64_Ilp32 =>
            (kind, encoding) in {
              (RelocationKind.Absolute, RelocationEncoding.Generic),
              (RelocationKind.Relative, RelocationEncoding.AArch64Call)}
          case _ => false)
      && (|| (o.arch.Aarch64? && kind.Relative?)
          || Stored(o, addend, request) == 0
          || (size !in {8, 16} && offset + (if size == 64 then 8 else 4) <= |s.data|))
  {
  }

  /**
   An accepted request: the length of the relocation is the requested size, it is relative unless it
   is absolute, and the addend is in the entry or in as many bytes of the section as the relocation is
   long. Nothing else in the section changes.
   */
  lemma RequestMeaning(o: Object, s: Section, offset: u64, symbol: nat, addend: int, request: Request, s': Section)
    requires Accepted(o, s, offset, symbol, addend, request, s')
    ensures |s'.relocations| == |s.relocations| + 1 && s'.relocations[..|s.relocations|] == s.relocations
    ensures s' == s.(data := s'.data, relocations := s'.relocations) && |s'.data| == |s.data|
    ensures var r, stored := s'.relocations[|s.relocations|], Stored(o, addend, request);
      && r.flags.MachORelocation? && r.offset == offset && r.symbol == symbol && r.flags.r_length < 4
      && 8 * Bits.Pow2(r.flags.r_length) ==
         (if o.arch.Aarch64? && request.size in {12, 21, 26} then 32 else request.size)
      && r.flags.r_pcrel == !request.kind.Absolute?
      && if (o.arch.Aarch64? && request.kind.Relative?) || stored == 0 then
           s'.data == s.data && r.addend == stored
         else
           var n := Bits.Pow2(r.flags.r_length);
           && r.addend == 0 && n in {4, 8} && offset + n <= |s.data|
           && Get(o.endian, s'.data[offset..offset + n]) ==
              stored % (if n == 4 then 0x1_0000_0000 else 0x1_0000_0000_0000_0000)
           && s'.data[..offset] == s.data[..offset] && s'.data[offset + n..] == s.data[offset + n..]
  {
    hide Put, Get, Overwrite, PcOffset, IsImplicit, Bits.Pow2;
    var flags := Translate(o.arch, request).value;
    Lengths(o.arch, request);
    FlagsMeaning(o, addend, request);
    AddendKept(o.endian, o.arch, s, offset, symbol, addend, flags);
    Capacities();
  }

  lemma Lengths(arch: Architecture, request: Request)
    requires request.GenericRequest? && Translate(arch, request).Ok?
    ensures var f := Translate(arch, request).value;
      && f.MachORelocation? && f.r_length < 4
      && 8 * Bits.Pow2(f.r_length) == (if arch.Aarch64? && request.size in {12, 21, 26} then 32 else request.size)
      && (AddendSize(f).Some? ==> AddendSize(f).value == Bits.Pow2(f.r_length) && Bits.Pow2(f.r_length) in {4, 8})
  {
    assert Bits.Pow2(0) == 1 && Bits.Pow2(1) == 2 && Bits.Pow2(2) == 4 && Bits.Pow2(3) == 8;
  }

  lemma FlagsMeaning(o: Object, addend: int, request: Request)
    requires request.GenericRequest? && Translate(o.arch, request).Ok?
    ensures var f := Translate(o.arch, request).value;
      && f.r_pcrel == !request.kind.Absolute?
      && addend + PcOffset(o.arch, f) == Stored(o, addend, request)
      && (IsImplicit(o.arch, f) <==> !(o.arch.Aarch64? && request.kind.Relative?))
  {
  }

  lemma Capacities()
    ensures Capacity(4) == 0x1_0000_0000 && Capacity(8) == 0x1_0000_0000_0000_0000
  {
    CapacityValues();
  }

  /**
   What the reader reports for an accepted request: the same kind and encoding exactly for the requests
   that its table can tell, and the same size except for the short fields of Aarch64.
   */
  lemma RequestReadBack(o: Object, s: Section, offset: u64, symbol: nat, addend: int, request: Request, s': Section,
                        cpu: bv32)
    requires Accepted(o, s, offset, symbol, addend, request, s') && |s'.relocations| == |s.relocations| + 1
    requires CpuMatches(o, cpu) && symbol < |o.symbols|
    requires var r := s'.relocations[|s.relocations|];
      Encodable(o, r) && r.symbol == symbol && MainEntry(o, r).r_symbolnum >= 0
    ensures var item := ItemOf(o, s'.relocations[|s.relocations|], cpu);
      && item.offset == offset
      && (item.size == request.size <==> request.size in {8, 16, 32, 64})
      && ((item.kind, item.encoding) == (request.kind, request.encoding) <==>
           match o.arch
           case X86_64 => !(request.kind.Relative? && request.encoding.Generic?) && !request.kind.PltRelative?
           case Aarch64 | Aarch64_Ilp32 => request.kind.Absolute?
           case _ => request.encoding.Generic?)
  {
    hide MainEntry, PcAdjust, RelocCodec.SignExtend24, Put, Get, Overwrite;
    RequestMeaning(o, s, offset, symbol, addend, request, s');
  }

  /**
   The addend of an accepted request, as the reader reports it and, unless it is in the entry, together
   with what the section holds at the place. An explicit addend survives exactly in the signed range
   of 24 bits; any other, exactly when the reader takes from it what the builder has added: always,
   except for relative relocations of x86-64 that are not four bytes long.
   */
  lemma AddendReadBack(o: Object, s: Section, offset: u64, symbol: nat, addend: int, request: Request, s': Section,
                       cpu: bv32)
    requires Accepted(o, s, offset, symbol, addend, request, s') && |s'.relocations| == |s.relocations| + 1
    requires CpuMatches(o, cpu) && symbol < |o.symbols|
    requires var r := s'.relocations[|s.relocations|];
      Encodable(o, r) && r.symbol == symbol && MainEntry(o, r).r_symbolnum >= 0
    ensures var item := ItemOf(o, s'.relocations[|s.relocations|], cpu);
      if o.arch.Aarch64? && request.kind.Relative? then
        item.addend == addend <==> -0x80_0000 <= addend < 0x80_0000
      else
        && item.implicit
        && (Stored(o, addend, request) != 0 ==>
             var n := item.size / 8;
             && n in {4, 8} && offset + n <= |s'.data|
             && ((Get(o.endian, s'.data[offset..offset + n]) + item.addend - addend)
                   % (if n == 4 then 0x1_0000_0000 else 0x1_0000_0000_0000_0000) == 0 <==>
                  !o.arch.X86_64? || request.kind.Absolute? || request.size == 32))
  {
    hide MainEntry, Put, Get, Overwrite, PcAdjust, RelocCodec.SignExtend24, Bits.Pow2;
    RequestMeaning(o, s, offset, symbol, addend, request, s');
    var r := s'.relocations[|s.relocations|];
    Adjustment(o, request, r.flags, cpu);
    ShortAddend(addend);
    if Stored(o, addend, request) != 0 && !(o.arch.Aarch64? && request.kind.Relative?) {
      var n := Bits.Pow2(r.flags.r_length);
      SizeOfLength(r.flags.r_length);
      var adjust := PcAdjust(cpu, r.flags.r_pcrel, r.flags.r_length, r.flags.r_type);
      var c := if n == 4 then 0x1_0000_0000 else 0x1_0000_0000_0000_0000;
      ModuloSum(Stored(o, addend, request), -adjust - addend, c);
      SmallMultiple(Stored(o, addend, request) - addend - adjust, c);
    }
  }

  /** What the reader subtracts from the addend of a relocation that was requested. */
  lemma Adjustment(o: Object, request: Request, flags: RelocationFlags, cpu: bv32)
    requires request.GenericRequest? && Translate(o.arch, request) == Ok(flags) && CpuMatches(o, cpu)
    ensures PcAdjust(cpu, flags.r_pcrel, flags.r_length, flags.r_type) ==
            if o.arch.X86_64? && !request.kind.Absolute? then request.size / 8 else 0
    ensures flags.r_length == 2 && o.arch.X86_64? <==> request.size == 32 && o.arch.X86_64?
  {
  }

  lemma ShortAddend(addend: int)
    ensures RelocCodec.SignExtend24(addend % 0x1_0000_0000) == addend <==> -0x80_0000 <= addend < 0x80_0000
    ensures RelocCodec.SignExtend24(0 % 0x1_0000_0000) == 0
  {
    RelocCodec.AddendSurvives(addend);
  }

  lemma SizeOfLength(length: byte)
    requires length < 4
    ensures 8 * Shifted(length) / 8 == Bits.Pow2(length)
  {
    assert Bits.Pow2(0) == 1 && Bits.Pow2(1) == 2 && Bits.Pow2(2) == 4 && Bits.Pow2(3) == 8;
  }

  lemma ModuloSum(x: int, k: int, c: nat)
    requires c in {0x1_0000_0000, 0x1_0000_0000_0000_0000}
    ensures (x % c + k) % c == 0 <==> (x + k) % c == 0
  {
  }

  lemma SmallMultiple(d: int, c: nat)
    requires c >= 0x1_0000_0000 && -8 <= d <= 8
    ensures d % c == 0 <==> d == 0
  {
  }

  /**
   A request by type and length is taken as it is. On Aarch64, branches and page references keep their
   addend; for all other relocations of four bytes, the place in the section holds what the reader, who
   takes the distance of the program counter from it, turns back into the addend.
   */
  lemma DirectRequest(o: Object, s: Section, offset: u64, symbol: nat, addend: int, request: Request, s': Section,
                      cpu: bv32)
    requires request.MachORequest? && Requested(o, s, offset, symbol, addend, request) == Some(s')
    requires request.r_length == 2 && CpuMatches(o, cpu)
    ensures |s'.relocations| == |s.relocations| + 1 && s'.relocations[..|s.relocations|] == s.relocations
    ensures s'.relocations[|s.relocations|].flags ==
            MachORelocation(request.r_type, request.r_pcrel, request.r_length)
    ensures var r, adjust := s'.relocations[|s.relocations|], PcAdjust(cpu, request.r_pcrel, 2, request.r_type);
      && r.offset == offset && r.symbol == symbol
      && if o.arch.Aarch64? && request.r_type in {2, 3, 4} then s'.data == s.data && r.addend == addend
         else
           && r.addend == 0
           && if addend + adjust == 0 then s'.data == s.data
              else
                && offset + 4 <= |s'.data| == |s.data|
                && (Get(o.endian, s'.data[offset..offset + 4]) - adjust - addend) % 0x1_0000_0000 == 0
                && s'.data[..offset] == s.data[..offset] && s'.data[offset + 4..] == s.data[offset + 4..]
  {
    hide Put, Get, Overwrite, PcOffset, PcAdjust, IsImplicit;
    var flags := MachORelocation(request.r_type, request.r_pcrel, request.r_length);
    AddendKept(o.endian, o.arch, s, offset, symbol, addend, flags);
    AdjustmentsCancel(o, flags, cpu);
    Explicit(o.arch, flags);
    Capacities();
    var adjust := PcAdjust(cpu, request.r_pcrel, 2, request.r_type);
    ModuloSum(addend + adjust, -adjust - addend, 0x1_0000_0000);
  }

  lemma Explicit(arch: Architecture, flags: RelocationFlags)
    requires flags.MachORelocation?
    ensures IsImplicit(arch, flags) <==> !(arch.Aarch64? && flags.r_type in {2, 3, 4})
    ensures arch.Aarch64? ==> PcOffset(arch, flags) == 0
  {
  }
}
