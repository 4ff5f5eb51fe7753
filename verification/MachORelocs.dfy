/** Relocation entries: what is emitted for each relocation, in which order, and how it is packed. */
module MachORelocs {
  import opened Prelude
  import opened Endian
  import opened MachO
  import opened MachOLayout
  import MachOSymbols
  import RelocCodec

  const ARM64_RELOC_ADDEND: byte := 10

  /** `RelocationInfo` before packing. */
  datatype Entry = Entry(r_address: nat, r_symbolnum: int, r_pcrel: bool, r_length: byte, r_extern: bool, r_type: byte)

  /** The conditions under which a relocation can be written. */
  predicate Encodable(o: Object, r: Relocation)
  {
    r.flags.MachORelocation? && (r.addend != 0 ==> o.arch.Aarch64? || o.arch.Aarch64_Ilp32?)
  }

  /** The entry of the relocation itself: by section ordinal for section symbols, else by symbol number. */
  function MainEntry(o: Object, r: Relocation): Entry
    requires Encodable(o, r) && r.symbol < |o.symbols|
  {
    var s := o.symbols[r.symbol];
    var local := s.kind.SectionSymbol? && s.section.InSection?;
    Entry(r.offset,
          if local then s.section.id + 1 else MachOSymbols.NumberOf(MachOSymbols.Order(o.symbols), r.symbol),
          r.flags.r_pcrel, r.flags.r_length, !local, r.flags.r_type)
  }

  /** The entry that carries an explicit addend. */
  function AddendEntry(o: Object, r: Relocation): Entry
    requires Encodable(o, r)
  {
    Entry(r.offset, r.addend, false, r.flags.r_length, false, ARM64_RELOC_ADDEND)
  }

  function EntriesOf(o: Object, r: Relocation): seq<Entry>
    requires Encodable(o, r) && r.symbol < |o.symbols|
  {
    (if r.addend != 0 then [AddendEntry(o, r)] else []) + [MainEntry(o, r)]
  }

  ghost predicate AllEncodable(o: Object, rs: seq<Relocation>)
  {
    forall k :: 0 <= k < |rs| ==> Encodable(o, rs[k]) && rs[k].symbol < |o.symbols|
  }

  /** The entries of a list of relocations, in the order of the list. */
  function Entries(o: Object, rs: seq<Relocation>): seq<Entry>
    requires AllEncodable(o, rs)
  {
    if rs == [] then [] else Entries(o, rs[..|rs| - 1]) + EntriesOf(o, rs[|rs| - 1])
  }

  predicate NeedReverse(rs: seq<Relocation>)
  {
    rs != [] && rs[0].offset < rs[|rs| - 1].offset
  }

  function Reverse(rs: seq<Relocation>): (r: seq<Relocation>)
    ensures |r| == |rs| && forall k :: 0 <= k < |rs| ==> r[k] == rs[|rs| - 1 - k]
  {
    if rs == [] then [] else Reverse(rs[1..]) + [rs[0]]
  }

  /** The list in the order in which it is emitted. */
  function Emitted(rs: seq<Relocation>): (r: seq<Relocation>)
    ensures |r| == |rs|
  {
    if NeedReverse(rs) then Reverse(rs) else rs
  }

  // ---------------------------------------------------------------------------------------------
  // Properties of the entries.

  lemma {:induction false} EntriesCount(o: Object, rs: seq<Relocation>)
    requires AllEncodable(o, rs)
    ensures |Entries(o, rs)| == CountOf(rs)
  {
    hide MainEntry;
    if rs != [] {
      EntriesCount(o, rs[..|rs| - 1]);
    }
  }

  lemma {:induction false} CountConcat(a: seq<Relocation>, b: seq<Relocation>)
    ensures CountOf(a + b) == CountOf(a) + CountOf(b)
  {
    if b == [] {
      assert a + b == a;
    } else {
      CountConcat(a, b[..|b| - 1]);
      assert (a + b)[..|a + b| - 1] == a + b[..|b| - 1];
    }
  }

  lemma {:induction false} CountReverse(rs: seq<Relocation>)
    ensures CountOf(Reverse(rs)) == CountOf(rs)
  {
    if rs != [] {
      CountReverse(rs[1..]);
      CountConcat(Reverse(rs[1..]), [rs[0]]);
      CountConcat([rs[0]], rs[1..]);
      assert [rs[0]] + rs[1..] == rs;
    }
  }

  /** Reordering does not change how many entries there are. */
  lemma CountEmitted(rs: seq<Relocation>)
    ensures CountOf(Emitted(rs)) == CountOf(rs)
  {
    CountReverse(rs);
  }

  lemma EmittedEncodable(o: Object, rs: seq<Relocation>)
    requires AllEncodable(o, rs)
    ensures AllEncodable(o, Emitted(rs))
  {
  }

  /** Where the entries of the relocation at position `k` are: an addend directly before its relocation. */
  lemma {:induction false} EntriesAt(o: Object, rs: seq<Relocation>, k: nat)
    requires AllEncodable(o, rs) && k < |rs|
    ensures var at := CountOf(rs[..k]);
      && at + |EntriesOf(o, rs[k])| <= |Entries(o, rs)|
      && Entries(o, rs)[at..at + |EntriesOf(o, rs[k])|] == EntriesOf(o, rs[k])
    decreases |rs|
  {
    hide MainEntry;
    var t := rs[..|rs| - 1];
    EntriesCount(o, t);
    if k == |rs| - 1 {
      assert rs[..k] == t;
    } else {
      EntriesAt(o, t, k);
      assert t[..k] == rs[..k];
    }
  }

  /** Every entry comes from some relocation, and has its address. */
  lemma {:induction false} EntrySource(o: Object, rs: seq<Relocation>, m: nat) returns (k: nat)
    requires AllEncodable(o, rs) && m < |Entries(o, rs)|
    ensures k < |rs| && Entries(o, rs)[m].r_address == rs[k].offset
    ensures CountOf(rs[..k]) <= m
    ensures forall j :: k < j < |rs| ==> CountOf(rs[..j]) > m
    decreases |rs|
  {
    hide MachOSymbols.NumberOf, MachOSymbols.Order;
    var t := rs[..|rs| - 1];
    EntriesCount(o, t);
    if m < |Entries(o, t)| {
      k := EntrySource(o, t, m);
      assert t[..k] == rs[..k];
      forall j | k < j < |rs|
        ensures CountOf(rs[..j]) > m
      {
        if j < |t| {
          assert t[..j] == rs[..j];
        }
      }
    } else {
      k := |rs| - 1;
    }
  }

  ghost predicate Descending(rs: seq<Relocation>)
  {
    forall i, j :: 0 <= i < j < |rs| ==> rs[i].offset >= rs[j].offset
  }

  ghost predicate Ascending(rs: seq<Relocation>)
  {
    forall i, j :: 0 <= i < j < |rs| ==> rs[i].offset <= rs[j].offset
  }

  /** A list that is monotone in either direction is emitted in descending order. */
  lemma EmittedDescending(rs: seq<Relocation>)
    requires Ascending(rs) || Descending(rs)
    ensures Descending(Emitted(rs))
  {
    if rs != [] {
      assert |rs| > 1 ==> (Ascending(rs) ==> rs[0].offset <= rs[|rs| - 1].offset);
    }
  }

  /** Addresses of the emitted entries never increase. */
  lemma AddressesDescend(o: Object, rs: seq<Relocation>, m: nat, n: nat)
    requires AllEncodable(o, rs) && (Ascending(rs) || Descending(rs))
    requires AllEncodable(o, Emitted(rs)) && m <= n < |Entries(o, Emitted(rs))|
    ensures Entries(o, Emitted(rs))[m].r_address >= Entries(o, Emitted(rs))[n].r_address
  {
    hide Entries, Emitted, CountOf;
    EmittedDescending(rs);
    var e := Emitted(rs);
    var i := EntrySource(o, e, m);
    var j := EntrySource(o, e, n);
    assert CountOf(e[..i]) <= m;
    assert i <= j;
  }

  /** A relocation against an emitted symbol carries the number of that symbol's own table entry. */
  lemma EntryNamesSymbol(o: Object, r: Relocation)
    requires Encodable(o, r) && r.symbol < |o.symbols| && o.symbols[r.symbol].IsEmitted()
    ensures var e, order := MainEntry(o, r), MachOSymbols.Order(o.symbols);
      e.r_extern && 0 <= e.r_symbolnum < |order| && order[e.r_symbolnum] == r.symbol
  {
    hide MachOSymbols.Order;
    MachOSymbols.OrderIsPermutation(o.symbols);
    MachOSymbols.NumberOfMeaning(MachOSymbols.Order(o.symbols), r.symbol);
  }

  // ---------------------------------------------------------------------------------------------
  // Packing.

  function Info(e: Entry): RelocCodec.RelocationInfo
  {
    RelocCodec.RelocationInfo(
      (e.r_address % 0x1_0000_0000) as bv32, (e.r_symbolnum % 0x1_0000_0000) as bv32,
      e.r_pcrel, e.r_length as bv8, e.r_extern, e.r_type as bv8)
  }

  function EntryBytes(e: Endian, entry: Entry): (s: seq<byte>)
    ensures |s| == RELOCATION_SIZE
  {
    Put(e, entry.r_address, 4) + Put(e, RelocCodec.PlainWord(Info(entry), e.Little?) as nat, 4)
  }

  function EntriesBytes(e: Endian, entries: seq<Entry>): (s: seq<byte>)
    ensures |s| == RELOCATION_SIZE * |entries|
  {
    if entries == [] then [] else EntriesBytes(e, entries[..|entries| - 1]) + EntryBytes(e, entries[|entries| - 1])
  }

  lemma {:induction false} EntryBytesAt(e: Endian, entries: seq<Entry>, k: nat)
    requires k < |entries|
    ensures EntriesBytes(e, entries)[RELOCATION_SIZE * k..RELOCATION_SIZE * k + RELOCATION_SIZE] ==
            EntryBytes(e, entries[k])
  {
    hide EntryBytes;
    var t := entries[..|entries| - 1];
    if k < |t| {
      EntryBytesAt(e, t, k);
      assert EntriesBytes(e, entries)[..|EntriesBytes(e, t)|] == EntriesBytes(e, t);
      PrefixSlice(EntriesBytes(e, entries), EntriesBytes(e, t), RELOCATION_SIZE * k,
                  RELOCATION_SIZE * k + RELOCATION_SIZE);
    }
  }

  lemma PrefixSlice(s: seq<byte>, p: seq<byte>, a: nat, b: nat)
    requires p <= s && a <= b <= |p|
    ensures s[a..b] == p[a..b]
  {
  }

  lemma {:induction false} EntriesBytesConcat(e: Endian, a: seq<Entry>, b: seq<Entry>)
    ensures EntriesBytes(e, a + b) == EntriesBytes(e, a) + EntriesBytes(e, b)
  {
    hide EntryBytes;
    if b == [] {
      assert a + b == a;
    } else {
      EntriesBytesConcat(e, a, b[..|b| - 1]);
      assert (a + b)[..|a + b| - 1] == a + b[..|b| - 1];
    }
  }
}
