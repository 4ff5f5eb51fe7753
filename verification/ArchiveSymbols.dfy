/** Archive symbol tables: opening one and iterating over its symbols. */
module ArchiveSymbols {
  import opened Prelude
  import opened ReadRef
  import opened Endian
  import Archive

  datatype Symbol = Symbol(name: seq<byte>, offset: nat)

  /** `SymbolIteratorInternal`: what each layout still has to yield. */
  datatype State =
    | NoTable
    | GnuTable(offsets: seq<nat>, names: seq<byte>)
    | BsdTable(entries: seq<(nat, nat)>, names: seq<byte>)
    | CoffTable(members: seq<nat>, indices: seq<nat>, names: seq<byte>)

  /** `read_string`: the string, and what follows its null byte; a failed read leaves nothing. */
  function TakeString(names: seq<byte>): (Result<seq<byte>>, seq<byte>)
  {
    var n := FirstIndex(names, 0);
    if n < |names| then (Ok(names[..n]), names[n + 1..]) else (Err, [])
  }

  /** `read_string_at` */
  function StringAt(names: seq<byte>, offset: nat): Result<seq<byte>>
  {
    if offset > |names| then Err else TakeString(names[offset..]).0
  }

  function Named(name: Result<seq<byte>>, offset: nat): Result<Symbol>
  {
    match name
    case Ok(n) => Ok(Symbol(n, offset))
    case Err => Err
  }

  predicate Exhausted(s: State)
  {
    match s
    case NoTable => true
    case GnuTable(offsets, _) => offsets == []
    case BsdTable(entries, _) => entries == []
    case CoffTable(_, indices, _) => indices == []
  }

  function Size(s: State): nat
  {
    match s
    case NoTable => 0
    case GnuTable(offsets, _) => |offsets|
    case BsdTable(entries, _) => |entries|
    case CoffTable(_, indices, _) => |indices|
  }

  /** A COFF member index counts from one and wraps at 16 bits. */
  function MemberOf(members: seq<nat>, index: nat): Option<nat>
  {
    var i := if index == 0 then 0xffff else index - 1;
    if i < |members| then Some(members[i]) else None
  }

  function Item(s: State): Result<Symbol>
    requires !Exhausted(s)
  {
    match s
    case GnuTable(offsets, names) => Named(TakeString(names).0, offsets[0])
    case BsdTable(entries, names) => Named(StringAt(names, entries[0].0), entries[0].1)
    case CoffTable(members, indices, names) =>
      match MemberOf(members, indices[0])
      case None => Err
      case Some(offset) => Named(TakeString(names).0, offset)
  }

  function Rest(s: State): (s': State)
    requires !Exhausted(s)
    ensures Size(s') < Size(s)
  {
    match s
    case GnuTable(offsets, names) => GnuTable(offsets[1..], TakeString(names).1)
    case BsdTable(entries, names) => BsdTable(entries[1..], names)
    case CoffTable(members, indices, names) => CoffTable(members, indices[1..], TakeString(names).1)
  }

  /** Everything an iterator yields. */
  function Items(s: State): (r: seq<Result<Symbol>>)
    ensures |r| == Size(s)
    decreases Size(s)
  {
    if Exhausted(s) then [] else [Item(s)] + Items(Rest(s))
  }

  /** The width of the integers in each table layout. */
  function Width(kind: Archive.Kind): nat
  {
    if kind.Gnu64? || kind.Bsd64? then 8 else 4
  }

  /** `read::<T>` of one integer. */
  function TakeWord(e: Endian, s: seq<byte>, w: nat): Result<(nat, seq<byte>)>
  {
    if w <= |s| then Ok((Get(e, s[..w]), s[w..])) else Err
  }

  /** `read_slice` of `n` integers. */
  function TakeWords(e: Endian, s: seq<byte>, w: nat, n: nat): Result<(seq<nat>, seq<byte>)>
  {
    if n * w <= |s| then Ok((Words(e, s, w, n), s[n * w..])) else Err
  }

  function Pairs(v: seq<nat>): (r: seq<(nat, nat)>)
    ensures |r| == |v| / 2
  {
    seq(|v| / 2, i requires 0 <= i < |v| / 2 => (v[2 * i], v[2 * i + 1]))
  }

  /** The table layouts of `ArchiveSymbolIterator::new`. */
  function OpenTable(kind: Archive.Kind, table: seq<byte>): Result<State>
  {
    var w := Width(kind);
    match kind
    case Unknown => Ok(NoTable)
    case Gnu | Gnu64 =>
      var count := TakeWord(Big, table, w);
      if count.Err? then Err
      else
        var offsets := TakeWords(Big, count.value.1, w, count.value.0);
        if offsets.Err? then Err else Ok(GnuTable(offsets.value.0, offsets.value.1))
    case Bsd | Bsd64 =>
      var size := TakeWord(Little, table, w);
      if size.Err? then Err
      else
        var entries := TakeWords(Little, size.value.1, w, size.value.0 / (2 * w) * 2);
        if entries.Err? then Err
        else
          var namesSize := TakeWord(Little, entries.value.1, w);
          if namesSize.Err? || namesSize.value.0 > |namesSize.value.1| then Err
          else Ok(BsdTable(Pairs(entries.value.0), namesSize.value.1[..namesSize.value.0]))
    case Coff =>
      var count := TakeWord(Little, table, 4);
      if count.Err? then Err
      else
        var members := TakeWords(Little, count.value.1, 4, count.value.0);
        if members.Err? then Err
        else
          var n := TakeWord(Little, members.value.1, 4);
          if n.Err? then Err
          else
            var indices := TakeWords(Little, n.value.1, 2, n.value.0);
            if indices.Err? then Err
            else Ok(CoffTable(members.value.0, indices.value.0, indices.value.1))
  }

  /** The number at an offset of a table. */
  function NumberAt(e: Endian, table: seq<byte>, at: nat, w: nat): nat
    requires at + w <= |table|
  {
    Get(e, table[at..at + w])
  }

  /** The bytes that a table needs, as far as the counts in it are themselves there. */
  function Needed(kind: Archive.Kind, table: seq<byte>): nat
  {
    var w := Width(kind);
    match kind
    case Unknown => 0
    case Gnu | Gnu64 => if |table| < w then w else w + NumberAt(Big, table, 0, w) * w
    case Bsd | Bsd64 =>
      if |table| < w then w
      else
        var names := w + NumberAt(Little, table, 0, w) / (2 * w) * (2 * w);
        if |table| < names + w then names + w else names + w + NumberAt(Little, table, names, w)
    case Coff =>
      if |table| < 4 then 4
      else
        var indices := 4 + NumberAt(Little, table, 0, 4) * 4;
        if |table| < indices + 4 then indices + 4 else indices + 4 + NumberAt(Little, table, indices, 4) * 2
  }

  /** Opening fails exactly on a table that is shorter than its own counts require. */
  lemma OpenTableFails(kind: Archive.Kind, table: seq<byte>)
    ensures OpenTable(kind, table).Err? <==> |table| < Needed(kind, table)
  {
    hide TakeWord, TakeWords, NumberAt;
    match kind
    case Unknown =>
    case Gnu | Gnu64 => GnuTableFails(kind, table);
    case Bsd | Bsd64 => BsdTableFails(kind, table);
    case Coff => CoffTableFails(table);
  }

  lemma GnuTableFails(kind: Archive.Kind, table: seq<byte>)
    requires kind.Gnu? || kind.Gnu64?
    ensures OpenTable(kind, table).Err? <==> |table| < Needed(kind, table)
  {
    hide Get, Words;
  }

  lemma CoffTableFails(table: seq<byte>)
    ensures OpenTable(Archive.Coff, table).Err? <==> |table| < Needed(Archive.Coff, table)
  {
    hide Get, Words;
    if |table| >= 4 {
      NumberBehind(table, 4, NumberAt(Little, table, 0, 4) * 4, 4);
    }
  }

  lemma BsdTableFails(kind: Archive.Kind, table: seq<byte>)
    requires kind.Bsd? || kind.Bsd64?
    ensures OpenTable(kind, table).Err? <==> |table| < Needed(kind, table)
  {
    hide Get, Words, Pairs;
    var w := Width(kind);
    if |table| >= w {
      var count := NumberAt(Little, table, 0, w) / (2 * w);
      PairBytes(count, w);
      NumberBehind(table, w, count * 2 * w, w);
    }
  }

  /** The bytes of `count` pairs. */
  lemma PairBytes(count: nat, w: nat)
    requires w == 4 || w == 8
    ensures count * 2 * w == count * (2 * w)
  {
  }

  lemma NumberBehind(table: seq<byte>, first: nat, skipped: nat, w: nat)
    requires first <= |table|
    ensures first + skipped + w <= |table| ==>
      table[first..][skipped..][..w] == table[first + skipped..first + skipped + w]
  {
    if first + skipped + w <= |table| {
      assert table[first..][skipped..] == table[first + skipped..];
    }
  }

  class ArchiveSymbolIterator {
    var state: State

    constructor (state: State)
      ensures this.state == state
    {
      this.state := state;
    }

    /** `next`: a missing name is an error, and the iteration goes on. */
    method Next() returns (item: Option<Result<Symbol>>)
      modifies this
      ensures item.None? <==> Exhausted(old(state))
      ensures item.None? ==> state == old(state)
      ensures item.Some? ==> Items(old(state)) == [item.value] + Items(state)
      ensures item.Some? ==> Size(state) == Size(old(state)) - 1
    {
      match state {
        case NoTable => item := None;
        case GnuTable(offsets, names) =>
          if offsets == [] {
            return None;
          }
          var (name, rest) := TakeString(names);
          state := GnuTable(offsets[1..], rest);
          item := Some(Named(name, offsets[0]));
        case BsdTable(entries, names) =>
          if entries == [] {
            return None;
          }
          state := BsdTable(entries[1..], names);
          item := Some(Named(StringAt(names, entries[0].0), entries[0].1));
        case CoffTable(members, indices, names) =>
          if indices == [] {
            return None;
          }
          var member := MemberOf(members, indices[0]);
          var (name, rest) := TakeString(names);
          state := CoffTable(members, indices[1..], rest);
          item := Some(if member.None? then Err else Named(name, member.value));
      }
    }

    method Collect() returns (items: seq<Result<Symbol>>)
      modifies this
      ensures items == Items(old(state))
    {
      items := [];
      var item := Next();
      while item.Some?
        invariant item.Some? ==> items + [item.value] + Items(state) == Items(old(state))
        invariant item.None? ==> items == Items(old(state))
        decreases item.Some?, Size(state)
      {
        items := items + [item.value];
        item := Next();
      }
    }
  }

  /** Opening a table and reading it to the end. */
  method ReadSymbols(kind: Archive.Kind, data: seq<byte>, offset: u64, size: u64)
    returns (r: Result<seq<Result<Symbol>>>)
    ensures r == match BytesAt(data, offset, size) {
      case Err => Err
      case Ok(table) => match OpenTable(kind, table) { case Err => Err case Ok(s) => Ok(Items(s)) } }
    ensures r.Err? <==>
      var table := BytesAt(data, offset, size);
      table.Err? || |table.value| < Needed(kind, table.value)
  {
    hide Needed, OpenTable, Items, BytesAt;
    var table := BytesAt(data, offset, size);
    if table.Err? {
      return Err;
    }
    OpenTableFails(kind, table.value);
    var state := OpenTable(kind, table.value);
    if state.Err? {
      return Err;
    }
    var it := new ArchiveSymbolIterator(state.value);
    var items := it.Collect();
    r := Ok(items);
  }

  // ---------------------------------------------------------------------------------------------
  // Round trips.

  function NamesOf(symbols: seq<Symbol>): seq<byte>
  {
    if symbols == [] then [] else symbols[0].name + [0] + NamesOf(symbols[1..])
  }

  function OffsetsOf(symbols: seq<Symbol>): (r: seq<nat>)
    ensures |r| == |symbols|
  {
    seq(|symbols|, i requires 0 <= i < |symbols| => symbols[i].offset)
  }

  /** Names free of the terminator. */
  ghost predicate NullFree(symbols: seq<Symbol>)
  {
    forall i :: 0 <= i < |symbols| ==> 0 !in symbols[i].name
  }

  lemma TakeStringOf(name: seq<byte>, rest: seq<byte>)
    requires 0 !in name
    ensures TakeString(name + [0] + rest) == (Ok(name), rest)
  {
    var s := name + [0] + rest;
    FirstIndexUnique(s, 0, |name|);
    assert s[..|name|] == name && s[|name| + 1..] == rest;
  }

  lemma {:induction false} GnuItems(symbols: seq<Symbol>, padding: seq<byte>)
    requires NullFree(symbols)
    ensures Items(GnuTable(OffsetsOf(symbols), NamesOf(symbols) + padding)) == Successes(symbols)
  {
    hide TakeString;
    if symbols != [] {
      var first, rest := symbols[0], symbols[1..];
      assert NamesOf(symbols) + padding == first.name + [0] + (NamesOf(rest) + padding);
      TakeStringOf(first.name, NamesOf(rest) + padding);
      assert OffsetsOf(symbols)[1..] == OffsetsOf(rest);
      GnuItems(rest, padding);
      assert Successes(symbols) == [Ok(first)] + Successes(rest);
    }
  }

  /** The documented GNU layout, in either width. */
  function GnuLayout(w: nat, symbols: seq<Symbol>, padding: seq<byte>): seq<byte>
  {
    Put(Big, |symbols|, w) + (PutWords(Big, OffsetsOf(symbols), w) + (NamesOf(symbols) + padding))
  }

  /** A GNU table, 32- or 64-bit, reads back as the list that was laid out. */
  lemma GnuRoundTrip(kind: Archive.Kind, symbols: seq<Symbol>, padding: seq<byte>)
    requires (kind.Gnu? || kind.Gnu64?) && NullFree(symbols)
    requires |symbols| < Capacity(Width(kind))
    requires forall i :: 0 <= i < |symbols| ==> symbols[i].offset < Capacity(Width(kind))
    ensures var s := OpenTable(kind, GnuLayout(Width(kind), symbols, padding));
      s.Ok? && Items(s.value) == Successes(symbols)
  {
    hide Get, Put, Words, PutWords, Items, Capacity;
    var w := Width(kind);
    var offsets, names := OffsetsOf(symbols), NamesOf(symbols) + padding;
    TakeWordOf(Big, |symbols|, w, PutWords(Big, offsets, w) + names);
    TakeWordsOf(Big, offsets, w, names);
    GnuItems(symbols, padding);
  }

  /** Where the name of symbol `i` starts among the names. */
  function NameStart(symbols: seq<Symbol>, i: nat): nat
    requires i <= |symbols|
  {
    if i == 0 then 0 else |symbols[0].name| + 1 + NameStart(symbols[1..], i - 1)
  }

  /** The BSD entries of `symbols`, as a flat array: name offset first, then member offset. */
  function BsdWords(symbols: seq<Symbol>): (r: seq<nat>)
    ensures |r| == 2 * |symbols|
  {
    seq(2 * |symbols|, k requires 0 <= k < 2 * |symbols| =>
      if k % 2 == 0 then NameStart(symbols, k / 2) else symbols[k / 2].offset)
  }

  lemma {:induction false} NameStartBound(symbols: seq<Symbol>, i: nat)
    requires i <= |symbols|
    ensures NameStart(symbols, i) <= |NamesOf(symbols)|
  {
    if i > 0 {
      NameStartBound(symbols[1..], i - 1);
    }
  }

  lemma {:induction false} NameIsAt(symbols: seq<Symbol>, i: nat)
    requires NullFree(symbols) && i < |symbols|
    ensures StringAt(NamesOf(symbols), NameStart(symbols, i)) == Ok(symbols[i].name)
  {
    var first, rest := symbols[0], symbols[1..];
    var names := NamesOf(symbols);
    if i == 0 {
      assert names[0..] == first.name + [0] + NamesOf(rest);
      TakeStringOf(first.name, NamesOf(rest));
    } else {
      NameIsAt(rest, i - 1);
      NameStartBound(rest, i - 1);
      var k := NameStart(rest, i - 1);
      assert names[|first.name| + 1 + k..] == NamesOf(rest)[k..];
    }
  }

  /** Pointwise reading of a BSD table. */
  lemma {:induction false} BsdItems(entries: seq<(nat, nat)>, names: seq<byte>, symbols: seq<Symbol>)
    requires |entries| == |symbols|
    requires forall i :: 0 <= i < |symbols| ==>
      StringAt(names, entries[i].0) == Ok(symbols[i].name) && entries[i].1 == symbols[i].offset
    ensures Items(BsdTable(entries, names)) == Successes(symbols)
    decreases |symbols|
  {
    hide StringAt;
    if symbols != [] {
      BsdItems(entries[1..], names, symbols[1..]);
      assert Successes(symbols) == [Ok(symbols[0])] + Successes(symbols[1..]);
    }
  }

  lemma BsdEntries(symbols: seq<Symbol>)
    requires NullFree(symbols)
    ensures Items(BsdTable(Pairs(BsdWords(symbols)), NamesOf(symbols))) == Successes(symbols)
  {
    hide StringAt, NamesOf, NameStart;
    var entries := Pairs(BsdWords(symbols));
    forall i | 0 <= i < |symbols|
      ensures StringAt(NamesOf(symbols), entries[i].0) == Ok(symbols[i].name) && entries[i].1 == symbols[i].offset
    {
      NameIsAt(symbols, i);
      assert entries[i] == (BsdWords(symbols)[2 * i], BsdWords(symbols)[2 * i + 1]);
      assert 2 * i % 2 == 0 && 2 * i / 2 == i && (2 * i + 1) / 2 == i;
    }
    BsdItems(entries, NamesOf(symbols), symbols);
  }

  function BsdLayout(w: nat, words: seq<nat>, names: seq<byte>, padding: seq<byte>): seq<byte>
  {
    Put(Little, w * |words|, w) +
    (PutWords(Little, words, w) + (Put(Little, |names|, w) + (names + padding)))
  }

  lemma EntryCount(w: nat, n: nat)
    requires w == 4 || w == 8
    ensures w * (2 * n) / (2 * w) * 2 == 2 * n
  {
    if w == 4 {
      assert w * (2 * n) == 8 * n && 8 * n / 8 == n;
    } else {
      assert w * (2 * n) == 16 * n && 16 * n / 16 == n;
    }
  }

  lemma OpenBsd(kind: Archive.Kind, words: seq<nat>, n: nat, names: seq<byte>, padding: seq<byte>)
    requires (kind.Bsd? || kind.Bsd64?) && |words| == 2 * n
    requires Width(kind) * |words| < Capacity(Width(kind)) && |names| < Capacity(Width(kind))
    requires forall i :: 0 <= i < |words| ==> words[i] < Capacity(Width(kind))
    ensures OpenTable(kind, BsdLayout(Width(kind), words, names, padding)) == Ok(BsdTable(Pairs(words), names))
  {
    hide Get, Put, Words, PutWords, Capacity, Pairs, TakeWord, TakeWords;
    var w := Width(kind);
    var tail := Put(Little, |names|, w) + (names + padding);
    TakeWordOf(Little, w * |words|, w, PutWords(Little, words, w) + tail);
    TakeWordsOf(Little, words, w, tail);
    TakeWordOf(Little, |names|, w, names + padding);
    assert (names + padding)[..|names|] == names;
    EntryCount(w, n);
  }

  /** A BSD table, 32- or 64-bit, reads back as the list that was laid out. */
  lemma BsdRoundTrip(kind: Archive.Kind, symbols: seq<Symbol>, padding: seq<byte>)
    requires (kind.Bsd? || kind.Bsd64?) && NullFree(symbols)
    requires Width(kind) * (2 * |symbols|) < Capacity(Width(kind)) && |NamesOf(symbols)| < Capacity(Width(kind))
    requires forall i :: 0 <= i < |symbols| ==> symbols[i].offset < Capacity(Width(kind))
    ensures var s := OpenTable(kind, BsdLayout(Width(kind), BsdWords(symbols), NamesOf(symbols), padding));
      s.Ok? && Items(s.value) == Successes(symbols)
  {
    hide Items, Capacity, NamesOf, NameStart, Pairs, OpenTable, BsdLayout;
    var v := BsdWords(symbols);
    forall k | 0 <= k < |v|
      ensures v[k] < Capacity(Width(kind))
    {
      NameStartBound(symbols, k / 2);
    }
    OpenBsd(kind, v, |symbols|, NamesOf(symbols), padding);
    BsdEntries(symbols);
  }

  lemma TakeWordOf(e: Endian, v: nat, w: nat, rest: seq<byte>)
    requires v < Capacity(w)
    ensures TakeWord(e, Put(e, v, w) + rest, w) == Ok((v, rest))
  {
    GetPutFits(e, v, w);
    var s := Put(e, v, w) + rest;
    assert s[..w] == Put(e, v, w) && s[w..] == rest;
  }

  lemma TakeWordsOf(e: Endian, v: seq<nat>, w: nat, rest: seq<byte>)
    requires forall i :: 0 <= i < |v| ==> v[i] < Capacity(w)
    ensures TakeWords(e, PutWords(e, v, w) + rest, w, |v|) == Ok((v, rest))
  {
    WordsOfPut(e, v, w, rest);
    assert (PutWords(e, v, w) + rest)[|v| * w..] == rest;
  }

  /** COFF symbols: each refers to a member by its one-based position. */
  function Resolve(members: seq<nat>, refs: seq<nat>, names: seq<seq<byte>>): (r: seq<Symbol>)
    requires |refs| == |names| && forall i :: 0 <= i < |refs| ==> 1 <= refs[i] <= |members|
    ensures |r| == |refs|
  {
    seq(|refs|, i requires 0 <= i < |refs| => Symbol(names[i], members[refs[i] - 1]))
  }

  /** One symbol of a COFF table. */
  lemma CoffStep(members: seq<nat>, refs: seq<nat>, strings: seq<byte>, name: seq<byte>, rest: seq<byte>)
    requires refs != [] && 1 <= refs[0] <= |members| && TakeString(strings) == (Ok(name), rest)
    ensures Items(CoffTable(members, refs, strings)) ==
            [Ok(Symbol(name, members[refs[0] - 1]))] + Items(CoffTable(members, refs[1..], rest))
  {
    hide TakeString;
  }

  lemma FirstName(symbols: seq<Symbol>, padding: seq<byte>)
    requires symbols != []
    ensures NamesOf(symbols) + padding == symbols[0].name + [0] + (NamesOf(symbols[1..]) + padding)
  {
  }

  lemma {:induction false} CoffItems(members: seq<nat>, refs: seq<nat>, names: seq<seq<byte>>, padding: seq<byte>)
    requires |refs| == |names| && forall i :: 0 <= i < |refs| ==> 1 <= refs[i] <= |members|
    requires NullFree(Resolve(members, refs, names))
    ensures var symbols := Resolve(members, refs, names);
      Items(CoffTable(members, refs, NamesOf(symbols) + padding)) == Successes(symbols)
    decreases |refs|
  {
    if refs == [] {
    } else {
      hide *;
      var first, rest := Symbol(names[0], members[refs[0] - 1]), Resolve(members, refs[1..], names[1..]);
      ResolveStep(members, refs, names);
      SuccessesStep(first, rest);
      FirstName([first] + rest, padding);
      TakeStringOf(first.name, NamesOf(rest) + padding);
      CoffItems(members, refs[1..], names[1..], padding);
      CoffStep(members, refs, NamesOf([first] + rest) + padding, first.name, NamesOf(rest) + padding);
    }
  }

  lemma ResolveStep(members: seq<nat>, refs: seq<nat>, names: seq<seq<byte>>)
    requires |refs| == |names| && refs != [] && forall i :: 0 <= i < |refs| ==> 1 <= refs[i] <= |members|
    ensures Resolve(members, refs, names) ==
            [Symbol(names[0], members[refs[0] - 1])] + Resolve(members, refs[1..], names[1..])
    ensures NullFree(Resolve(members, refs, names)) ==>
      0 !in names[0] && NullFree(Resolve(members, refs[1..], names[1..]))
  {
    var s, rest := Resolve(members, refs, names), Resolve(members, refs[1..], names[1..]);
    assert s[1..] == rest;
    assert s[0].name == names[0];
    assert forall i :: 0 <= i < |rest| ==> rest[i] == s[i + 1];
  }

  lemma SuccessesStep(first: Symbol, rest: seq<Symbol>)
    ensures Successes([first] + rest) == [Ok(first)] + Successes(rest)
    ensures ([first] + rest)[0] == first && ([first] + rest)[1..] == rest
  {
    hide Successes;
  }

  function CoffLayout(members: seq<nat>, refs: seq<nat>, strings: seq<byte>): seq<byte>
  {
    Put(Little, |members|, 4) +
    (PutWords(Little, members, 4) + (Put(Little, |refs|, 4) + (PutWords(Little, refs, 2) + strings)))
  }

  /** A COFF table reads back with every symbol at the offset of the member it refers to. */
  lemma CoffRoundTrip(members: seq<nat>, refs: seq<nat>, names: seq<seq<byte>>, padding: seq<byte>)
    requires |refs| == |names| && forall i :: 0 <= i < |refs| ==> 1 <= refs[i] <= |members|
    requires NullFree(Resolve(members, refs, names))
    requires |members| < Capacity(4) && |refs| < Capacity(4)
    requires forall i :: 0 <= i < |members| ==> members[i] < Capacity(4)
    requires forall i :: 0 <= i < |refs| ==> refs[i] < Capacity(2)
    ensures var symbols := Resolve(members, refs, names);
      var s := OpenTable(Archive.Coff, CoffLayout(members, refs, NamesOf(symbols) + padding));
      s.Ok? && Items(s.value) == Successes(symbols)
  {
    hide Get, Put, Words, PutWords, Items, Capacity;
    var strings := NamesOf(Resolve(members, refs, names)) + padding;
    var t2 := PutWords(Little, refs, 2) + strings;
    var t1 := Put(Little, |refs|, 4) + t2;
    TakeWordOf(Little, |members|, 4, PutWords(Little, members, 4) + t1);
    TakeWordsOf(Little, members, 4, t1);
    TakeWordOf(Little, |refs|, 4, t2);
    TakeWordsOf(Little, refs, 2, strings);
    CoffItems(members, refs, names, padding);
  }
}
