/**
 The address index of an object file: candidates sorted by priority, one kept per address, and
 a binary search. It is proved to answer every query as a linear scan for the best candidate does.
 */
module SymbolMap {
  import opened Prelude

  datatype SymbolKind = KindUnknown | Text | Data | Section | File | Label | Tls

  datatype SymbolScope = ScopeUnknown | Compilation | Linkage | Dynamic

  /** What the index asks of a symbol of the object file. */
  datatype Symbol = Symbol(
    isDefinition: bool, name: Result<seq<byte>>, kind: SymbolKind, scope: SymbolScope, index: nat, address: nat)

  /** The tuple that is sorted. */
  datatype Candidate = Candidate(address: nat, priority: nat, index: int, name: seq<byte>)

  /** `SymbolMapName` */
  datatype Entry = Entry(address: nat, name: seq<byte>)

  function ScopeRank(scope: SymbolScope): nat
  {
    match scope
    case ScopeUnknown => 3
    case Compilation => 2
    case Linkage => 1
    case Dynamic => 0
  }

  predicate IsCandidate(s: Symbol)
  {
    s.isDefinition && s.name.Ok? && s.name.value != [] && (s.kind.Text? || s.kind.Data? || s.kind.KindUnknown?)
  }

  function CandidateOf(s: Symbol): Candidate
    requires IsCandidate(s)
  {
    Candidate(s.address,
              ((if s.kind.KindUnknown? then 1 else 0) * 2 + ScopeRank(s.scope)) * 4,
              U64_MAX - s.index,
              s.name.value)
  }

  function Candidates(symbols: seq<Symbol>): seq<Candidate>
  {
    if symbols == [] then []
    else
      var last := symbols[|symbols| - 1];
      Candidates(symbols[..|symbols| - 1]) + if IsCandidate(last) then [CandidateOf(last)] else []
  }

  /** The order of tuples. */
  predicate Le(c: Candidate, d: Candidate)
  {
    c.address < d.address || (c.address == d.address &&
      (c.priority < d.priority || (c.priority == d.priority &&
        (c.index < d.index || (c.index == d.index && LexLe(c.name, d.name))))))
  }

  lemma LeTotal(c: Candidate, d: Candidate)
    ensures Le(c, d) || Le(d, c)
    ensures Le(c, d) && Le(d, c) ==> c == d
  {
    LexLeTotal(c.name, d.name);
    if Le(c, d) && Le(d, c) {
      LexLeAntisymmetric(c.name, d.name);
    }
  }

  lemma LeTransitive(c: Candidate, d: Candidate, e: Candidate)
    requires Le(c, d) && Le(d, e)
    ensures Le(c, e)
  {
    if LexLe(c.name, d.name) && LexLe(d.name, e.name) {
      LexLeTransitive(c.name, d.name, e.name);
    }
  }

  // ---------------------------------------------------------------------------------------------
  // The reference: a linear scan.

  /** `c` beats every candidate at or below `a`: a greater address, or the same and a smaller tuple. */
  ghost predicate IsBest(s: seq<Candidate>, a: nat, c: Candidate)
  {
    c in s && c.address <= a &&
    forall d :: d in s && d.address <= a ==> d.address < c.address || (d.address == c.address && Le(c, d))
  }

  lemma BestUnique(s: seq<Candidate>, a: nat, c: Candidate, d: Candidate)
    requires IsBest(s, a, c) && IsBest(s, a, d)
    ensures c == d
  {
    LeTotal(c, d);
  }

  predicate Beats(c: Candidate, d: Candidate)
  {
    d.address < c.address || (d.address == c.address && Le(c, d))
  }

  /** Scan from the left, keeping the best candidate at or below `a` so far. */
  function Scan(s: seq<Candidate>, a: nat): Option<Candidate>
  {
    if s == [] then None
    else
      var c, r := s[|s| - 1], Scan(s[..|s| - 1], a);
      if c.address > a then r
      else if r.Some? && Beats(r.value, c) then r
      else Some(c)
  }

  lemma {:induction false} ScanIsBest(s: seq<Candidate>, a: nat)
    ensures Scan(s, a).Some? ==> IsBest(s, a, Scan(s, a).value)
    ensures Scan(s, a).None? ==> forall d :: d in s ==> d.address > a
  {
    if s != [] {
      var t, c := s[..|s| - 1], s[|s| - 1];
      ScanIsBest(t, a);
      assert s == t + [c];
      var r := Scan(t, a);
      if c.address <= a && r.Some? {
        LeTotal(c, r.value);
        if !Beats(r.value, c) {
          forall d | d in t && d.address <= a && d.address == c.address
            ensures Le(c, d)
          {
            LeTransitive(c, r.value, d);
          }
        }
      }
      LeTotal(c, c);
    }
  }

  /** The scan depends only on which candidates there are. */
  lemma ScanOfPermutation(s: seq<Candidate>, t: seq<Candidate>, a: nat)
    requires multiset(s) == multiset(t)
    ensures Scan(s, a) == Scan(t, a)
  {
    ScanIsBest(s, a);
    ScanIsBest(t, a);
    assert forall d :: d in s <==> d in multiset(s);
    assert forall d :: d in t <==> d in multiset(t);
    if Scan(s, a).Some? && Scan(t, a).Some? {
      BestUnique(s, a, Scan(s, a).value, Scan(t, a).value);
    }
  }

  // ---------------------------------------------------------------------------------------------
  // The index.

  ghost predicate Sorted(s: seq<Candidate>)
  {
    forall i, j :: 0 <= i < j < |s| ==> Le(s[i], s[j])
  }

  ghost predicate Increasing(s: seq<Entry>)
  {
    forall i, j :: 0 <= i < j < |s| ==> s[i].address < s[j].address
  }

  function EntryOf(c: Candidate): Entry
  {
    Entry(c.address, c.name)
  }

  /** The entries kept from a sorted list: the first of each run of equal addresses. */
  function Heads(s: seq<Candidate>): seq<Entry>
  {
    if s == [] then []
    else Heads(s[..|s| - 1]) + if s[|s| - 1].address != Previous(s[..|s| - 1]) then [EntryOf(s[|s| - 1])] else []
  }

  /** `previous_address` after the list `s`. */
  function Previous(s: seq<Candidate>): nat
  {
    if s == [] then U64_MAX else s[|s| - 1].address
  }

  /** The last entry at or below `a`. */
  function Lookup(s: seq<Entry>, a: nat): Option<Entry>
  {
    if s == [] then None
    else if s[|s| - 1].address <= a then Some(s[|s| - 1])
    else Lookup(s[..|s| - 1], a)
  }

  /** Every candidate sits at the greatest address there is. */
  predicate OnlyAtMax(s: seq<Candidate>)
  {
    s != [] && forall i :: 0 <= i < |s| ==> s[i].address == U64_MAX
  }

  ghost predicate Bounded(s: seq<Candidate>)
  {
    forall i :: 0 <= i < |s| ==> s[i].address <= U64_MAX
  }

  lemma {:induction false} HeadsIncreasing(s: seq<Candidate>)
    requires Sorted(s) && Bounded(s)
    ensures Increasing(Heads(s))
    ensures forall e :: e in Heads(s) ==> e.address <= Previous(s)
    ensures OnlyAtMax(s) ==> Heads(s) == []
    ensures s != [] && !OnlyAtMax(s) ==> Heads(s) != []
  {
    if s != [] {
      var t := s[..|s| - 1];
      HeadsIncreasing(t);
      if t != [] {
        assert Le(s[|s| - 2], s[|s| - 1]);
        assert OnlyAtMax(t) ==> t[|t| - 1].address == U64_MAX;
      }
      assert !OnlyAtMax(t) && t != [] ==> exists i :: 0 <= i < |t| && s[i].address != U64_MAX;
    }
  }

  /** In a sorted list the last candidate, when it is in range, decides the scan. */
  lemma LastDecides(t: seq<Candidate>, c: Candidate, a: nat)
    requires Sorted(t + [c]) && c.address <= a
    ensures t != [] && Previous(t) == c.address ==> Scan(t + [c], a) == Scan(t, a)
    ensures t == [] || Previous(t) != c.address ==> Scan(t + [c], a) == Some(c)
  {
    var s := t + [c];
    assert s[..|t|] == t && s[|t|] == c;
    ScanIsBest(t, a);
    var r := Scan(t, a);
    if r.Some? {
      var i :| 0 <= i < |t| && t[i] == r.value;
      assert Le(s[i], s[|t|]);
      if i < |t| - 1 {
        assert Le(s[i], s[|t| - 1]);
      }
      assert Le(s[|t| - 1], s[|t|]);
    }
    if t != [] && Previous(t) == c.address {
      assert t[|t| - 1] in t;
    }
  }

  /** On a sorted list, looking up the kept entries is scanning all of them. */
  lemma {:induction false} LookupIsScan(s: seq<Candidate>, a: nat)
    requires Sorted(s) && Bounded(s)
    requires !(OnlyAtMax(s) && a >= U64_MAX)
    ensures Lookup(Heads(s), a) == Found(Scan(s, a))
  {
    hide Le, Beats;
    if s != [] {
      var t, c := s[..|s| - 1], s[|s| - 1];
      assert s == t + [c];
      if c.address <= a {
        LastDecides(t, c, a);
      }
      StillOnlyAtMax(t, c);
      LookupIsScan(t, a);
      var h := Heads(t);
      assert Heads(s) == h || (Heads(s) == h + [EntryOf(c)] && Heads(s)[..|h|] == h);
    }
  }

  lemma StillOnlyAtMax(t: seq<Candidate>, c: Candidate)
    requires Sorted(t + [c]) && c.address <= U64_MAX
    ensures OnlyAtMax(t) ==> OnlyAtMax(t + [c])
  {
    var s := t + [c];
    if OnlyAtMax(t) {
      assert s[|t| - 1] == t[|t| - 1];
      assert Le(s[|t| - 1], s[|t|]);
    }
  }

  function Found(c: Option<Candidate>): Option<Entry>
  {
    match c
    case None => None
    case Some(c) => Some(EntryOf(c))
  }

  /** Insertion after every candidate that is not above `c`. */
  function InsertCandidate(r: seq<Candidate>, c: Candidate): (r': seq<Candidate>)
    ensures multiset(r') == multiset(r) + multiset{c}
  {
    if r == [] || Le(r[|r| - 1], c) then r + [c]
    else
      assert r == r[..|r| - 1] + [r[|r| - 1]];
      InsertCandidate(r[..|r| - 1], c) + [r[|r| - 1]]
  }

  ghost predicate AllLe(r: seq<Candidate>, d: Candidate)
  {
    forall i :: 0 <= i < |r| ==> Le(r[i], d)
  }

  lemma {:induction false} InsertCandidateSorted(r: seq<Candidate>, c: Candidate)
    requires Sorted(r)
    ensures Sorted(InsertCandidate(r, c))
    ensures forall d :: AllLe(r, d) && Le(c, d) ==> AllLe(InsertCandidate(r, c), d)
  {
    if r == [] {
    } else if Le(r[|r| - 1], c) {
      forall i | 0 <= i < |r|
        ensures Le(r[i], c)
      {
        if i < |r| - 1 {
          LeTransitive(r[i], r[|r| - 1], c);
        }
      }
    } else {
      var t, last := r[..|r| - 1], r[|r| - 1];
      InsertCandidateSorted(t, c);
      LeTotal(last, c);
      assert AllLe(t, last);
      assert AllLe(InsertCandidate(t, c), last);
      forall d | AllLe(r, d) && Le(c, d)
        ensures AllLe(InsertCandidate(r, c), d)
      {
        assert AllLe(t, d);
      }
    }
  }

  /** `sort_unstable` on the tuples: any sorted permutation. */
  method SortUnstable(s: seq<Candidate>) returns (r: seq<Candidate>)
    ensures Sorted(r) && multiset(r) == multiset(s)
  {
    r := [];
    for i := 0 to |s|
      invariant Sorted(r) && multiset(r) == multiset(s[..i])
    {
      assert s[..i + 1] == s[..i] + [s[i]];
      InsertCandidateSorted(r, s[i]);
      r := InsertCandidate(r, s[i]);
    }
    assert s[..|s|] == s;
  }

  ghost predicate NonDecreasing(s: seq<Entry>)
  {
    forall i, j :: 0 <= i < j < |s| ==> s[i].address <= s[j].address
  }

  /** Insertion after every entry that is not above `e`. */
  function Insert(r: seq<Entry>, e: Entry): (r': seq<Entry>)
    ensures multiset(r') == multiset(r) + multiset{e}
    ensures (forall i :: 0 <= i < |r| ==> r[i].address < e.address) ==> r' == r + [e]
  {
    if r == [] || r[|r| - 1].address <= e.address then r + [e]
    else
      assert r == r[..|r| - 1] + [r[|r| - 1]];
      Insert(r[..|r| - 1], e) + [r[|r| - 1]]
  }

  ghost predicate Below(r: seq<Entry>, a: nat)
  {
    forall i :: 0 <= i < |r| ==> r[i].address <= a
  }

  lemma {:induction false} InsertSorted(r: seq<Entry>, e: Entry)
    requires NonDecreasing(r)
    ensures NonDecreasing(Insert(r, e))
    ensures forall a :: Below(r, a) && e.address <= a ==> Below(Insert(r, e), a)
  {
    if r == [] || r[|r| - 1].address <= e.address {
    } else {
      var t := r[..|r| - 1];
      InsertSorted(t, e);
      assert Below(t, r[|r| - 1].address);
      assert Below(Insert(t, e), r[|r| - 1].address);
      forall a | Below(r, a) && e.address <= a
        ensures Below(Insert(r, e), a)
      {
        assert Below(t, a);
      }
    }
  }

  /** `SymbolMap::new`: a stable sort by address. A list already in order is left as it is. */
  method SortByAddress(s: seq<Entry>) returns (r: seq<Entry>)
    ensures multiset(r) == multiset(s)
    ensures NonDecreasing(r)
    ensures Increasing(s) ==> r == s
  {
    r := [];
    for i := 0 to |s|
      invariant multiset(r) == multiset(s[..i])
      invariant NonDecreasing(r)
      invariant Increasing(s) ==> r == s[..i]
    {
      assert s[..i + 1] == s[..i] + [s[i]];
      InsertSorted(r, s[i]);
      r := Insert(r, s[i]);
    }
    assert s[..|s|] == s;
  }

  /** `Object::symbol_map` over the symbols of the chosen table. */
  method SymbolMapOf(table: seq<Symbol>) returns (index: seq<Entry>)
    requires forall s :: s in table ==> s.address <= U64_MAX
    ensures Increasing(index)
    ensures forall a: nat :: a <= U64_MAX ==>
      (Lookup(index, a) == Found(Scan(Candidates(table), a)) <==> !(a == U64_MAX && OnlyAtMax(Candidates(table))))
    ensures OnlyAtMax(Candidates(table)) ==> index == []
  {
    var all := [];
    for i := 0 to |table|
      invariant all == Candidates(table[..i])
      invariant Bounded(all)
    {
      assert table[..i + 1][..i] == table[..i];
      var symbol := table[i];
      assert symbol in table;
      if !symbol.isDefinition || symbol.name.Err? || symbol.name.value == [] {
        continue;
      }
      var priority: nat := 0;
      match symbol.kind {
        case Text | Data =>
        case KindUnknown => priority := priority + 1;
        case _ => continue;
      }
      priority := priority * 2;
      priority := priority + ScopeRank(symbol.scope);
      priority := priority * 4;
      all := all + [Candidate(symbol.address, priority, U64_MAX - symbol.index, symbol.name.value)];
    }
    assert table[..|table|] == table;
    ghost var candidates := all;
    all := SortUnstable(all);
    SameMembers(candidates, all);

    var symbols, previous := [], U64_MAX;
    for i := 0 to |all|
      invariant symbols == Heads(all[..i]) && previous == Previous(all[..i])
    {
      assert all[..i + 1][..i] == all[..i];
      if all[i].address != previous {
        symbols := symbols + [EntryOf(all[i])];
        previous := all[i].address;
      }
    }
    assert all[..|all|] == all;
    HeadsIncreasing(all);
    index := SortByAddress(symbols);
    IndexAnswers(candidates, all);
  }

  lemma SameMembers(s: seq<Candidate>, t: seq<Candidate>)
    requires multiset(s) == multiset(t)
    ensures Bounded(s) ==> Bounded(t)
    ensures OnlyAtMax(s) <==> OnlyAtMax(t)
  {
    assert forall d :: d in s <==> d in multiset(s);
    assert forall d :: d in t <==> d in multiset(t);
    assert |s| == |multiset(s)| && |t| == |multiset(t)|;
    assert forall i :: 0 <= i < |s| ==> s[i] in t;
    assert forall i :: 0 <= i < |t| ==> t[i] in s;
  }

  lemma IndexAnswers(candidates: seq<Candidate>, sorted: seq<Candidate>)
    requires multiset(candidates) == multiset(sorted) && Sorted(sorted) && Bounded(sorted)
    ensures forall a: nat :: a <= U64_MAX ==>
      (Lookup(Heads(sorted), a) == Found(Scan(candidates, a)) <==> !(a == U64_MAX && OnlyAtMax(candidates)))
  {
    SameMembers(candidates, sorted);
    forall a: nat | a <= U64_MAX
      ensures Lookup(Heads(sorted), a) == Found(Scan(candidates, a)) <==>
              !(a == U64_MAX && OnlyAtMax(candidates))
    {
      ScanOfPermutation(candidates, sorted, a);
      if a == U64_MAX && OnlyAtMax(candidates) {
        HeadsIncreasing(sorted);
        ScanIsBest(sorted, a);
        assert sorted[0] in sorted;
      } else {
        LookupIsScan(sorted, a);
      }
    }
  }

  datatype Search = FoundAt(index: nat) | InsertAt(index: nat)

  /** `binary_search_by_key` on strictly increasing addresses. */
  method BinarySearch(s: seq<Entry>, a: nat) returns (r: Search)
    requires Increasing(s)
    ensures r.index <= |s|
    ensures r.FoundAt? ==> r.index < |s| && s[r.index].address == a
    ensures r.InsertAt? ==> (forall i :: 0 <= i < r.index ==> s[i].address < a) &&
                            (forall i :: r.index <= i < |s| ==> s[i].address > a)
  {
    var lo, hi := 0, |s|;
    while lo < hi
      invariant 0 <= lo <= hi <= |s|
      invariant forall i :: 0 <= i < lo ==> s[i].address < a
      invariant forall i :: hi <= i < |s| ==> s[i].address > a
    {
      var mid := lo + (hi - lo) / 2;
      if s[mid].address == a {
        return FoundAt(mid);
      } else if s[mid].address < a {
        lo := mid + 1;
      } else {
        hi := mid;
      }
    }
    return InsertAt(lo);
  }

  lemma {:induction false} LookupAt(s: seq<Entry>, a: nat, k: nat)
    requires k <= |s|
    requires k > 0 ==> s[k - 1].address <= a
    requires forall i :: k <= i < |s| ==> s[i].address > a
    ensures Lookup(s, a) == if k == 0 then None else Some(s[k - 1])
  {
    if k < |s| {
      LookupAt(s[..|s| - 1], a, k);
    }
  }

  /** `SymbolMap::get` */
  method Get(index: seq<Entry>, a: nat) returns (r: Option<Entry>)
    requires Increasing(index)
    ensures r == Lookup(index, a)
  {
    var found := BinarySearch(index, a);
    match found {
      case FoundAt(i) =>
        LookupAt(index, a, i + 1);
        r := Some(index[i]);
      case InsertAt(i) =>
        LookupAt(index, a, i);
        if i == 0 {
          return None;
        }
        r := Some(index[i - 1]);
    }
  }

  /**
   What a query answers: the name of the best defined symbol, except that there is no answer at the
   sentinel address if there are only symbols at that address.
   */
  function Answer(table: seq<Symbol>, a: nat): Option<Entry>
  {
    if a == U64_MAX && OnlyAtMax(Candidates(table)) then None else Found(Scan(Candidates(table), a))
  }

  /**
   A query through the whole pipeline: the answer of the linear scan, except in one case. An answer is
   the name of a defined text or data symbol, or one of unknown kind, at the answered address, and there
   is none only if there is no such symbol at or below the address queried, or in the one case.
   */
  method Query(table: seq<Symbol>, a: nat) returns (r: Option<Entry>)
    requires forall s :: s in table ==> s.address <= U64_MAX
    requires a <= U64_MAX
    ensures r == Found(Scan(Candidates(table), a)) <==> !(a == U64_MAX && OnlyAtMax(Candidates(table)))
    ensures r == Answer(table, a)
    ensures r.Some? ==> r.value.address <= a && r.value.name != []
    ensures r.Some? ==>
      exists s :: s in table && s.isDefinition && s.name == Ok(r.value.name) && s.address == r.value.address &&
        s.kind in {Text, Data, KindUnknown}
    ensures r.None? <==>
      || (forall s ::
            s in table && s.isDefinition && s.name.Ok? && s.name.value != [] && s.kind in {Text, Data, KindUnknown} ==>
              s.address > a)
      || (a == U64_MAX && forall s ::
            s in table && s.isDefinition && s.name.Ok? && s.name.value != [] && s.kind in {Text, Data, KindUnknown} ==>
              s.address == U64_MAX)
  {
    var m := SymbolMapOf(table);
    r := Get(m, a);
    QueryNone(table, a, m);
    NoAnswer(table, a);
    if r.Some? {
      AnswerSource(table, a);
    }
  }

  /** In the exceptional case the index is empty. */
  lemma QueryNone(table: seq<Symbol>, a: nat, m: seq<Entry>)
    requires a <= U64_MAX
    requires Lookup(m, a) == Found(Scan(Candidates(table), a)) <==> !(a == U64_MAX && OnlyAtMax(Candidates(table)))
    requires OnlyAtMax(Candidates(table)) ==> m == []
    ensures Lookup(m, a) == Answer(table, a)
  {
  }

  /** The symbol behind an answer. */
  lemma AnswerSource(table: seq<Symbol>, a: nat)
    requires Answer(table, a).Some?
    ensures var e := Answer(table, a).value;
      e.address <= a && e.name != [] &&
      exists s :: s in table && s.isDefinition && s.name == Ok(e.name) && s.address == e.address &&
        s.kind in {Text, Data, KindUnknown}
  {
    CandidatesMembers(table);
    ScanIsBest(Candidates(table), a);
  }

  /** When there is no answer. */
  lemma NoAnswer(table: seq<Symbol>, a: nat)
    requires (forall s :: s in table ==> s.address <= U64_MAX) && a <= U64_MAX
    ensures Answer(table, a).None? <==>
      || (forall s ::
            s in table && s.isDefinition && s.name.Ok? && s.name.value != [] && s.kind in {Text, Data, KindUnknown} ==>
              s.address > a)
      || (a == U64_MAX && forall s ::
            s in table && s.isDefinition && s.name.Ok? && s.name.value != [] && s.kind in {Text, Data, KindUnknown} ==>
              s.address == U64_MAX)
  {
    var all := Candidates(table);
    CandidatesMembers(table);
    ScanIsBest(all, a);
    forall s | s in table && s.isDefinition && s.name.Ok? && s.name.value != [] && s.kind in {Text, Data, KindUnknown}
      ensures IsCandidate(s) && CandidateOf(s) in all && CandidateOf(s).address == s.address
    {
    }
    assert all != [] ==> all[0] in all;
    assert OnlyAtMax(all) ==> forall c :: c in all ==> c.address == U64_MAX;
    assert all != [] && (forall c :: c in all ==> c.address == U64_MAX) ==> OnlyAtMax(all);
  }

  /** The table without its undefined symbols. */
  function Definitions(table: seq<Symbol>): seq<Symbol>
  {
    if table == [] then []
    else
      var last := table[|table| - 1];
      Definitions(table[..|table| - 1]) + if last.isDefinition then [last] else []
  }

  /** Undefined symbols, such as imports, play no part in any answer. */
  lemma {:induction false} DefinitionsAnswer(table: seq<Symbol>, a: nat)
    ensures Answer(Definitions(table), a) == Answer(table, a)
    ensures Candidates(Definitions(table)) == Candidates(table)
  {
    if table != [] {
      var t, last := table[..|table| - 1], table[|table| - 1];
      DefinitionsAnswer(t, a);
      if last.isDefinition {
        var d := Definitions(table);
        assert d == Definitions(t) + [last];
        assert d[..|d| - 1] == Definitions(t) && d[|d| - 1] == last;
      } else {
        assert Definitions(table) == Definitions(t) && Candidates(table) == Candidates(t);
      }
    }
  }

  lemma {:induction false} CandidatesMembers(table: seq<Symbol>)
    ensures forall c :: c in Candidates(table) <==> exists s :: s in table && IsCandidate(s) && CandidateOf(s) == c
  {
    if table != [] {
      var t, last := table[..|table| - 1], table[|table| - 1];
      CandidatesMembers(t);
      assert table == t + [last];
    }
  }

  /** How far a kind and a scope are from the preferred ones. */
  function Distance(s: Symbol): nat
  {
    (if s.kind.KindUnknown? then 2 else 0) +
    match s.scope case Dynamic => 0 case Linkage => 1 case Compilation => 2 case ScopeUnknown => 3
  }

  /**
   The best candidate in terms of symbols: a definition with a name at the greatest address, there one
   of least distance, and of those the one with the greatest index.
   */
  lemma BestSymbol(table: seq<Symbol>, a: nat) returns (best: Symbol)
    requires Scan(Candidates(table), a).Some?
    ensures best in table && IsCandidate(best) && Scan(Candidates(table), a) == Some(CandidateOf(best))
    ensures best.isDefinition && best.name == Ok(Scan(Candidates(table), a).value.name) && best.name.value != []
    ensures best.kind in {Text, Data, KindUnknown} && best.address <= a
    ensures forall s ::
      s in table && s.isDefinition && s.name.Ok? && s.name.value != [] && s.kind in {Text, Data, KindUnknown} ==>
      s.address > a || s.address < best.address || (s.address == best.address &&
        (Distance(s) > Distance(best) || (Distance(s) == Distance(best) && s.index <= best.index)))
  {
    CandidatesMembers(table);
    ScanIsBest(Candidates(table), a);
    var c := Scan(Candidates(table), a).value;
    best :| best in table && IsCandidate(best) && CandidateOf(best) == c;
    forall s | s in table && s.isDefinition && s.name.Ok? && s.name.value != [] &&
               s.kind in {Text, Data, KindUnknown} && s.address <= a
      ensures IsCandidate(s) && Beats(c, CandidateOf(s))
    {
      assert CandidateOf(s) in Candidates(table);
    }
  }

  // ---------------------------------------------------------------------------------------------
  // Known kinds against unknown kinds.

  predicate IsKnown(s: Symbol)
  {
    s.kind.Text? || s.kind.Data?
  }

  /**
   Whether a symbol of unknown kind is chosen over one of known kind at the same address: two scopes
   apart, the later symbol is; three scopes apart, the unknown kind is.
   */
  predicate Overtakes(u: Symbol, k: Symbol)
  {
    || (k.scope.ScopeUnknown? && u.scope.Dynamic?)
    || (k.scope.ScopeUnknown? && u.scope.Linkage? && u.index > k.index)
    || (k.scope.Compilation? && u.scope.Dynamic? && u.index > k.index)
  }

  /** Overtaking is what the order of candidates decides. */
  lemma OvertakesIsOrder(u: Symbol, k: Symbol)
    requires IsCandidate(u) && IsCandidate(k) && !IsKnown(u) && IsKnown(k)
    requires u.address == k.address && u.index != k.index
    ensures CandidateOf(u).priority < CandidateOf(k).priority <==> k.scope.ScopeUnknown? && u.scope.Dynamic?
    ensures CandidateOf(u).priority == CandidateOf(k).priority <==>
      (k.scope.ScopeUnknown? && u.scope.Linkage?) || (k.scope.Compilation? && u.scope.Dynamic?)
    ensures Overtakes(u, k) <==> !Beats(CandidateOf(k), CandidateOf(u))
    ensures Overtakes(u, k) <==> Beats(CandidateOf(u), CandidateOf(k))
  {
  }

  ghost predicate DistinctIndices(table: seq<Symbol>)
  {
    forall s, t :: s in table && t in table && s.index == t.index ==> s == t
  }

  /** Some symbol of unknown kind at the address overtakes every symbol of known kind there. */
  ghost predicate UnknownWins(table: seq<Symbol>, address: nat)
  {
    exists u :: u in table && IsCandidate(u) && u.address == address && !IsKnown(u) &&
      forall k :: k in table && IsCandidate(k) && k.address == address && IsKnown(k) ==> Overtakes(u, k)
  }

  /**
   The symbol that a query finds has a known kind exactly when no symbol of unknown kind at its
   address overtakes all symbols of known kind there.
   */
  lemma KnownKindPreferred(table: seq<Symbol>, a: nat) returns (best: Symbol)
    requires DistinctIndices(table) && Scan(Candidates(table), a).Some?
    ensures best in table && IsCandidate(best) && Scan(Candidates(table), a) == Some(CandidateOf(best))
    ensures IsKnown(best) <==> !UnknownWins(table, best.address)
  {
    hide Le, CandidateOf, Overtakes, Candidates, Scan;
    CandidatesMembers(table);
    ScanIsBest(Candidates(table), a);
    best :| best in table && IsCandidate(best) && CandidateOf(best) == Scan(Candidates(table), a).value;
    forall t | t in table && IsCandidate(t) && t.address == best.address
      ensures Beats(CandidateOf(best), CandidateOf(t))
    {
      SameAddress(t, best);
      assert CandidateOf(t) in Candidates(table);
    }
    forall u, k | u in table && k in table && IsCandidate(u) && IsCandidate(k) && !IsKnown(u) && IsKnown(k) &&
                  u.address == k.address
      ensures Overtakes(u, k) <==> !Beats(CandidateOf(k), CandidateOf(u))
      ensures Overtakes(u, k) <==> Beats(CandidateOf(u), CandidateOf(k))
    {
      OvertakesIsOrder(u, k);
    }
  }

  lemma SameAddress(s: Symbol, t: Symbol)
    requires IsCandidate(s) && IsCandidate(t)
    ensures CandidateOf(s).address == s.address && CandidateOf(t).address == t.address
  {
  }

  /** A text symbol of unknown scope loses to a dynamic symbol of unknown kind at its address. */
  lemma UnknownKindCounterexample()
    ensures var k := Symbol(true, Ok([0x6b]), Text, ScopeUnknown, 0, 0x1000);
      var u := Symbol(true, Ok([0x75]), KindUnknown, Dynamic, 1, 0x1000);
      IsKnown(k) && !IsKnown(u) && Scan(Candidates([k, u]), 0x1000) == Some(CandidateOf(u))
  {
    var k := Symbol(true, Ok([0x6b]), Text, ScopeUnknown, 0, 0x1000);
    var u := Symbol(true, Ok([0x75]), KindUnknown, Dynamic, 1, 0x1000);
    var c, d := CandidateOf(k), CandidateOf(u);
    assert [k, u][..1] == [k] && [k][..0] == [];
    assert Candidates([k]) == [c];
    assert Candidates([k, u]) == [c, d];
    assert [c, d][..1] == [c] && [c][..0] == [];
    assert Scan([c], 0x1000) == Some(c);
  }
}
