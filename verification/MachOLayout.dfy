/** The first pass of the Mach-O writer: section addresses, relocation offsets, and file offsets. */
module MachOLayout {
  import opened Prelude
  import opened MachO
  import Bits

  /** The least multiple of `size` that is not below `offset`. */
  function Align(offset: nat, size: nat): (r: nat)
    requires size > 0
    ensures offset <= r < offset + size && r % size == 0
  {
    AlignIsMultiple(offset, size);
    (offset + (size - 1)) / size * size
  }

  lemma AlignIsMultiple(offset: nat, size: nat)
    requires size > 0
    ensures var r := (offset + (size - 1)) / size * size;
      offset <= r < offset + size && r % size == 0
  {
    var x := offset + (size - 1);
    var q := x / size;
    assert x == size * q + x % size;
    assert size * q == q * size;
    Bits.DivModUnique(q * size, size, q, 0);
  }

  /** For a power of two, in 64-bit arithmetic, this is `(offset + (size - 1)) & !(size - 1)`. */
  lemma AlignIsMask(offset: nat, k: nat)
    requires k <= 64 && offset + (Bits.Pow2(k) - 1) <= U64_MAX
    ensures Bits.And(offset + (Bits.Pow2(k) - 1), U64_MAX - (Bits.Pow2(k) - 1)) == Align(offset, Bits.Pow2(k))
  {
    hide Bits.And, Bits.Pow2, Align;
    var p, m := Bits.Pow2(k), Bits.Pow2(64 - k);
    var x := offset + (p - 1);
    Bits.Pow2Values();
    Bits.Pow2Add(64 - k, k);
    MaskParts(x, p, m);
    Bits.AndMask(x / p, 64 - k);
    assert Bits.And(x / p, m - 1) == x / p by {
      SmallModulo(x / p, m);
    }
    Bits.AndHigh(x, x / p, x % p, U64_MAX - (p - 1), m - 1, x / p, k, p);
    AlignQuotient(offset, p);
  }

  lemma AlignQuotient(offset: nat, size: nat)
    requires size > 0
    ensures Align(offset, size) == (offset + (size - 1)) / size * size
  {
  }

  lemma SmallModulo(x: nat, m: nat)
    requires x < m
    ensures x % m == x
  {
  }

  lemma PositiveFactor(a: int, p: nat)
    requires a * p > 0
    ensures a > 0
  {
  }

  lemma MaskParts(x: nat, p: nat, m: nat)
    requires p > 0 && m > 0 && m * p == 0x1_0000_0000_0000_0000 && x <= U64_MAX
    ensures x == x / p * p + x % p && x / p < m
    ensures U64_MAX - (p - 1) == (m - 1) * p
  {
    assert x == p * (x / p) + x % p;
    assert (m - x / p) * p == m * p - p * (x / p);
    PositiveFactor(m - x / p, p);
    assert (m - 1) * p == m * p - p;
  }

  // ---------------------------------------------------------------------------------------------
  // Addresses.

  /** The address after the first `i` sections, skipping zero-fill sections. */
  function DataEnd(s: seq<Section>, i: nat): nat
    requires i <= |s| && forall k :: 0 <= k < |s| ==> s[k].align > 0
  {
    if i == 0 then 0
    else if s[i - 1].IsBss() then DataEnd(s, i - 1)
    else Align(DataEnd(s, i - 1), s[i - 1].align) + s[i - 1].size
  }

  /** The address after all other sections and the first `i` zero-fill candidates. */
  function BssEnd(s: seq<Section>, i: nat): nat
    requires i <= |s| && forall k :: 0 <= k < |s| ==> s[k].align > 0
  {
    if i == 0 then DataEnd(s, |s|)
    else if s[i - 1].IsBss() then Align(BssEnd(s, i - 1), s[i - 1].align) + s[i - 1].size
    else BssEnd(s, i - 1)
  }

  function Address(s: seq<Section>, i: nat): nat
    requires i < |s| && forall k :: 0 <= k < |s| ==> s[k].align > 0
  {
    Align(if s[i].IsBss() then BssEnd(s, i) else DataEnd(s, i), s[i].align)
  }

  ghost predicate Aligned(s: seq<Section>)
  {
    forall k :: 0 <= k < |s| ==> s[k].align > 0
  }

  lemma {:induction false} DataEndGrows(s: seq<Section>, i: nat, j: nat)
    requires i <= j <= |s| && Aligned(s)
    ensures DataEnd(s, i) <= DataEnd(s, j)
    decreases j
  {
    hide Align;
    if i < j {
      DataEndGrows(s, i, j - 1);
    }
  }

  lemma {:induction false} BssEndGrows(s: seq<Section>, i: nat, j: nat)
    requires i <= j <= |s| && Aligned(s)
    ensures BssEnd(s, i) <= BssEnd(s, j)
    decreases j
  {
    hide Align;
    if i < j {
      BssEndGrows(s, i, j - 1);
    }
  }

  /** A section occupies `[Address, Address + size)`, between the ends before and after it. */
  lemma SectionInterval(s: seq<Section>, i: nat)
    requires i < |s| && Aligned(s)
    ensures Address(s, i) % s[i].align == 0
    ensures if s[i].IsBss()
            then BssEnd(s, i) <= Address(s, i) && Address(s, i) + s[i].size == BssEnd(s, i + 1)
            else DataEnd(s, i) <= Address(s, i) && Address(s, i) + s[i].size == DataEnd(s, i + 1)
  {
    hide Align;
  }

  /** All sections lie inside the segment, and those with data inside its file part. */
  lemma SectionsInSegment(s: seq<Section>, i: nat)
    requires i < |s| && Aligned(s)
    ensures Address(s, i) + s[i].size <= BssEnd(s, |s|)
    ensures if s[i].IsBss() then DataEnd(s, |s|) <= Address(s, i) else Address(s, i) + s[i].size <= DataEnd(s, |s|)
    ensures DataEnd(s, |s|) <= BssEnd(s, |s|)
  {
    hide Align, DataEnd, BssEnd, Address;
    SectionInterval(s, i);
    BssEndGrows(s, 0, |s|);
    BssEndStart(s);
    if s[i].IsBss() {
      BssEndGrows(s, 0, i);
      BssEndGrows(s, i + 1, |s|);
    } else {
      DataEndGrows(s, i + 1, |s|);
    }
  }

  lemma BssEndStart(s: seq<Section>)
    requires Aligned(s)
    ensures BssEnd(s, 0) == DataEnd(s, |s|)
  {
  }

  /** Sections of one kind keep their order; every section with data precedes every zero-fill section. */
  lemma SectionsDisjoint(s: seq<Section>, i: nat, j: nat)
    requires i < |s| && j < |s| && Aligned(s)
    requires if s[i].IsBss() == s[j].IsBss() then i < j else !s[i].IsBss()
    ensures Address(s, i) + s[i].size <= Address(s, j)
  {
    hide Align, DataEnd, BssEnd, Address;
    SectionInterval(s, i);
    SectionInterval(s, j);
    if !s[i].IsBss() && !s[j].IsBss() {
      DataEndGrows(s, i + 1, j);
    } else if s[i].IsBss() {
      BssEndGrows(s, i + 1, j);
    } else {
      SectionsInSegment(s, i);
      SectionsInSegment(s, j);
    }
  }

  /** The tightest layout: moving a section down by its alignment would overlap what comes before it. */
  lemma SectionsTight(s: seq<Section>, i: nat)
    requires i < |s| && Aligned(s)
    ensures Address(s, i) < (if s[i].IsBss() then BssEnd(s, i) else DataEnd(s, i)) + s[i].align
  {
    hide DataEnd, BssEnd;
  }

  /** The section loops of the first pass. */
  method LayoutSections(s: seq<Section>) returns (addresses: seq<nat>, filesize: nat, vmsize: nat)
    requires Aligned(s)
    ensures |addresses| == |s| && forall k :: 0 <= k < |s| ==> addresses[k] == Address(s, k)
    ensures filesize == DataEnd(s, |s|) && vmsize == BssEnd(s, |s|)
  {
    hide Align, DataEnd, BssEnd, Address;
    addresses := seq(|s|, _ => 0);
    var address := 0;
    DataEndStep(s, 0);
    for i := 0 to |s|
      invariant |addresses| == |s| && address == DataEnd(s, i)
      invariant forall k :: 0 <= k < i && !s[k].IsBss() ==> addresses[k] == Address(s, k)
    {
      DataEndStep(s, i + 1);
      if !s[i].IsBss() {
        address := Align(address, s[i].align);
        addresses := addresses[i := address];
        address := address + s[i].size;
      }
    }
    filesize := address;
    BssEndStep(s, 0);
    for i := 0 to |s|
      invariant |addresses| == |s| && address == BssEnd(s, i)
      invariant forall k :: 0 <= k < |s| && !s[k].IsBss() ==> addresses[k] == Address(s, k)
      invariant forall k :: 0 <= k < i && s[k].IsBss() ==> addresses[k] == Address(s, k)
    {
      BssEndStep(s, i + 1);
      if s[i].IsBss() {
        address := Align(address, s[i].align);
        addresses := addresses[i := address];
        address := address + s[i].size;
      }
    }
    vmsize := address;
  }

  lemma DataEndStep(s: seq<Section>, i: nat)
    requires i <= |s| && Aligned(s)
    ensures i == 0 ==> DataEnd(s, i) == 0
    ensures i > 0 && s[i - 1].IsBss() ==> DataEnd(s, i) == DataEnd(s, i - 1)
    ensures i > 0 && !s[i - 1].IsBss() ==>
      Address(s, i - 1) == Align(DataEnd(s, i - 1), s[i - 1].align) &&
      DataEnd(s, i) == Address(s, i - 1) + s[i - 1].size
  {
    hide Align;
  }

  lemma BssEndStep(s: seq<Section>, i: nat)
    requires i <= |s| && Aligned(s)
    ensures i == 0 ==> BssEnd(s, i) == DataEnd(s, |s|)
    ensures i > 0 && !s[i - 1].IsBss() ==> BssEnd(s, i) == BssEnd(s, i - 1)
    ensures i > 0 && s[i - 1].IsBss() ==>
      Address(s, i - 1) == Align(BssEnd(s, i - 1), s[i - 1].align) &&
      BssEnd(s, i) == Address(s, i - 1) + s[i - 1].size
  {
    hide Align;
  }

  // ---------------------------------------------------------------------------------------------
  // Relocation offsets.

  /** The number of entries of a relocation list: explicit addends take one more. */
  function CountOf(r: seq<Relocation>): (n: nat)
    ensures n >= |r|
  {
    if r == [] then 0 else CountOf(r[..|r| - 1]) + 1 + (if r[|r| - 1].addend != 0 then 1 else 0)
  }

  /** The file offset after the relocations of the first `i` sections. */
  function RelocEnd(s: seq<Section>, i: nat, start: nat, pointerAlign: nat): nat
    requires i <= |s| && pointerAlign > 0
  {
    if i == 0 then start
    else
      var before := RelocEnd(s, i - 1, start, pointerAlign);
      if s[i - 1].relocations == [] then before
      else Align(before, pointerAlign) + CountOf(s[i - 1].relocations) * RELOCATION_SIZE
  }

  function RelocOffset(s: seq<Section>, i: nat, start: nat, pointerAlign: nat): nat
    requires i < |s| && pointerAlign > 0
  {
    if s[i].relocations == [] then 0 else Align(RelocEnd(s, i, start, pointerAlign), pointerAlign)
  }

  lemma {:induction false} RelocEndGrows(s: seq<Section>, i: nat, j: nat, start: nat, pointerAlign: nat)
    requires i <= j <= |s| && pointerAlign > 0
    ensures RelocEnd(s, i, start, pointerAlign) <= RelocEnd(s, j, start, pointerAlign)
    decreases j
  {
    hide Align, CountOf;
    if i < j {
      RelocEndGrows(s, i, j - 1, start, pointerAlign);
    }
  }

  /** Relocation blocks are aligned, in the order of their sections, and do not overlap. */
  lemma RelocBlocks(s: seq<Section>, i: nat, j: nat, start: nat, pointerAlign: nat)
    requires i <= j < |s| && pointerAlign > 0
    ensures var offset, count := RelocOffset(s, i, start, pointerAlign), CountOf(s[i].relocations);
      && (count == 0 <==> s[i].relocations == []) && (count == 0 ==> offset == 0)
      && (count > 0 ==>
           && start <= offset && offset % pointerAlign == 0
           && offset + count * RELOCATION_SIZE <= RelocEnd(s, |s|, start, pointerAlign)
           && (i < j && s[j].relocations != [] ==>
                offset + count * RELOCATION_SIZE <= RelocOffset(s, j, start, pointerAlign)))
  {
    hide Align, RelocEnd, CountOf, RelocOffset;
    RelocEndStep(s, 0, start, pointerAlign);
    RelocEndStep(s, i + 1, start, pointerAlign);
    RelocEndStep(s, j + 1, start, pointerAlign);
    RelocEndGrows(s, 0, i, start, pointerAlign);
    RelocEndGrows(s, i + 1, |s|, start, pointerAlign);
    CountNone(s[i].relocations);
    CountNone(s[j].relocations);
    if i < j {
      RelocEndGrows(s, i + 1, j, start, pointerAlign);
    }
  }

  lemma CountNone(r: seq<Relocation>)
    ensures CountOf(r) == 0 <==> r == []
  {
  }

  /** The iterator sum over one section. */
  method CountRelocations(r: seq<Relocation>) returns (count: nat)
    ensures count == CountOf(r)
  {
    count := 0;
    for i := 0 to |r|
      invariant count == CountOf(r[..i])
    {
      assert r[..i + 1][..i] == r[..i];
      count := count + 1 + (if r[i].addend != 0 then 1 else 0);
    }
    assert r[..|r|] == r;
  }

  /** The relocation loop of the first pass. */
  method LayoutRelocations(s: seq<Section>, start: nat, pointerAlign: nat)
    returns (offsets: seq<nat>, counts: seq<nat>, end: nat)
    requires pointerAlign > 0
    ensures |offsets| == |counts| == |s|
    ensures forall k :: 0 <= k < |s| ==>
      offsets[k] == RelocOffset(s, k, start, pointerAlign) && counts[k] == CountOf(s[k].relocations)
    ensures end == RelocEnd(s, |s|, start, pointerAlign)
  {
    hide Align, CountOf, RelocEnd, RelocOffset;
    offsets, counts := seq(|s|, _ => 0), seq(|s|, _ => 0);
    end := start;
    RelocEndStep(s, 0, start, pointerAlign);
    for i := 0 to |s|
      invariant |offsets| == |counts| == |s| && end == RelocEnd(s, i, start, pointerAlign)
      invariant forall k :: 0 <= k < i ==>
        offsets[k] == RelocOffset(s, k, start, pointerAlign) && counts[k] == CountOf(s[k].relocations)
      invariant forall k :: i <= k < |s| ==> offsets[k] == 0 && counts[k] == 0
    {
      var count := CountRelocations(s[i].relocations);
      RelocEndStep(s, i + 1, start, pointerAlign);
      if count != 0 {
        end := Align(end, pointerAlign);
        offsets := offsets[i := end];
        counts := counts[i := count];
        end := end + count * RELOCATION_SIZE;
      }
    }
  }

  lemma RelocEndStep(s: seq<Section>, i: nat, start: nat, pointerAlign: nat)
    requires i <= |s| && pointerAlign > 0
    ensures i == 0 ==> RelocEnd(s, i, start, pointerAlign) == start
    ensures i > 0 ==>
      var before, count := RelocEnd(s, i - 1, start, pointerAlign), CountOf(s[i - 1].relocations);
      if count == 0
      then RelocEnd(s, i, start, pointerAlign) == before && RelocOffset(s, i - 1, start, pointerAlign) == 0
      else RelocOffset(s, i - 1, start, pointerAlign) == Align(before, pointerAlign) &&
           RelocEnd(s, i, start, pointerAlign) == Align(before, pointerAlign) + count * RELOCATION_SIZE
  {
    hide Align, CountOf;
    if i > 0 {
      CountZero(s[i - 1].relocations);
    }
  }

  lemma CountZero(r: seq<Relocation>)
    ensures CountOf(r) == 0 <==> r == []
  {
  }
}
