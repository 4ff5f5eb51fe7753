/** The symbol part of the first pass: the three-way partition, sorting by name, and numbering. */
module MachOSymbols {
  import opened Prelude
  import opened MachO
  import StringTable

  datatype Class = Local | External | UndefinedClass | NotEmitted

  function ClassOf(s: Symbol): Class
  {
    if !s.IsEmitted() then NotEmitted
    else if s.IsUndefined() then UndefinedClass
    else if s.IsLocal() then Local
    else External
  }

  /** The positions below `i` of the symbols of one class. */
  function Select(symbols: seq<Symbol>, i: nat, class_: Class): seq<nat>
    requires i <= |symbols|
  {
    if i == 0 then []
    else Select(symbols, i - 1, class_) + if ClassOf(symbols[i - 1]) == class_ then [i - 1] else []
  }

  ghost predicate NoDuplicates(s: seq<nat>)
  {
    forall i, j :: 0 <= i < j < |s| ==> s[i] != s[j]
  }

  lemma {:induction false} SelectMembers(symbols: seq<Symbol>, i: nat, class_: Class)
    requires i <= |symbols|
    ensures forall x :: x in Select(symbols, i, class_) <==> 0 <= x < i && ClassOf(symbols[x]) == class_
    ensures NoDuplicates(Select(symbols, i, class_))
    ensures forall a, b :: 0 <= a < b < |Select(symbols, i, class_)| ==>
      Select(symbols, i, class_)[a] < Select(symbols, i, class_)[b]
  {
    hide ClassOf;
    if i > 0 {
      SelectMembers(symbols, i - 1, class_);
      var t := Select(symbols, i - 1, class_);
      assert forall a :: 0 <= a < |t| ==> t[a] in t;
    }
  }

  // ---------------------------------------------------------------------------------------------
  // Sorting by name.

  ghost predicate Within(symbols: seq<Symbol>, s: seq<nat>)
  {
    forall k :: 0 <= k < |s| ==> s[k] < |symbols|
  }

  /** Names in order; equal names keep the order of their symbols. */
  ghost predicate Before(symbols: seq<Symbol>, i: nat, j: nat)
    requires i < |symbols| && j < |symbols|
  {
    LexLe(symbols[i].name, symbols[j].name) && (symbols[i].name == symbols[j].name ==> i < j)
  }

  ghost predicate SortedByName(symbols: seq<Symbol>, s: seq<nat>)
    requires Within(symbols, s)
  {
    forall a, b :: 0 <= a < b < |s| ==> Before(symbols, s[a], s[b])
  }

  /** Insertion after every name that is not greater. */
  function Insert(symbols: seq<Symbol>, r: seq<nat>, e: nat): (r': seq<nat>)
    requires Within(symbols, r) && e < |symbols|
    ensures Within(symbols, r') && |r'| == |r| + 1
  {
    if r == [] || LexLe(symbols[r[|r| - 1]].name, symbols[e].name) then r + [e]
    else Insert(symbols, r[..|r| - 1], e) + [r[|r| - 1]]
  }

  lemma {:induction false} InsertMembers(symbols: seq<Symbol>, r: seq<nat>, e: nat)
    requires Within(symbols, r) && e < |symbols|
    ensures forall x :: x in Insert(symbols, r, e) <==> x in r || x == e
    ensures NoDuplicates(r) && e !in r ==> NoDuplicates(Insert(symbols, r, e))
  {
    hide LexLe;
    if r == [] || LexLe(symbols[r[|r| - 1]].name, symbols[e].name) {
    } else {
      var t, last := r[..|r| - 1], r[|r| - 1];
      InsertMembers(symbols, t, e);
      assert r == t + [last];
      var n := Insert(symbols, t, e);
      if NoDuplicates(r) && e !in r {
        assert last !in t;
        assert forall k :: 0 <= k < |n| ==> n[k] in n;
      }
    }
  }

  lemma BeforeTransitive(symbols: seq<Symbol>, i: nat, j: nat, k: nat)
    requires i < |symbols| && j < |symbols| && k < |symbols|
    requires Before(symbols, i, j) && Before(symbols, j, k)
    ensures Before(symbols, i, k)
  {
    LexLeTransitive(symbols[i].name, symbols[j].name, symbols[k].name);
    if symbols[i].name == symbols[k].name {
      LexLeAntisymmetric(symbols[i].name, symbols[j].name);
    }
  }

  /** Inserting the greatest position so far keeps names sorted and the sort stable. */
  lemma {:induction false} InsertSorted(symbols: seq<Symbol>, r: seq<nat>, e: nat)
    requires Within(symbols, r) && e < |symbols| && SortedByName(symbols, r)
    requires forall k :: 0 <= k < |r| ==> r[k] < e
    ensures SortedByName(symbols, Insert(symbols, r, e))
  {
    hide LexLe;
    if r == [] {
    } else if LexLe(symbols[r[|r| - 1]].name, symbols[e].name) {
      forall k | 0 <= k < |r|
        ensures Before(symbols, r[k], e)
      {
        if k < |r| - 1 {
          BeforeTransitive(symbols, r[k], r[|r| - 1], e);
        }
      }
    } else {
      var t, last := r[..|r| - 1], r[|r| - 1];
      InsertSorted(symbols, t, e);
      InsertMembers(symbols, t, e);
      LexLeTotal(symbols[last].name, symbols[e].name);
      var n := Insert(symbols, t, e);
      forall k | 0 <= k < |n|
        ensures Before(symbols, n[k], last)
      {
        assert n[k] in n;
        NotSameName(symbols, last, e);
      }
    }
  }

  lemma NotSameName(symbols: seq<Symbol>, i: nat, j: nat)
    requires i < |symbols| && j < |symbols| && !LexLe(symbols[i].name, symbols[j].name)
    ensures symbols[i].name != symbols[j].name
  {
    LexLeTotal(symbols[i].name, symbols[i].name);
  }

  /** `sort_by_key` on symbol names. */
  function SortByName(symbols: seq<Symbol>, s: seq<nat>): (r: seq<nat>)
    requires Within(symbols, s)
    ensures Within(symbols, r) && |r| == |s|
  {
    if s == [] then [] else Insert(symbols, SortByName(symbols, s[..|s| - 1]), s[|s| - 1])
  }

  lemma {:induction false} SortByNameMeaning(symbols: seq<Symbol>, s: seq<nat>)
    requires Within(symbols, s)
    requires forall a, b :: 0 <= a < b < |s| ==> s[a] < s[b]
    ensures SortedByName(symbols, SortByName(symbols, s))
    ensures forall x :: x in SortByName(symbols, s) <==> x in s
    ensures NoDuplicates(SortByName(symbols, s))
  {
    hide Insert, Before;
    if s != [] {
      var t, e := s[..|s| - 1], s[|s| - 1];
      SortByNameMeaning(symbols, t);
      var r := SortByName(symbols, t);
      assert s == t + [e];
      forall k | 0 <= k < |r|
        ensures r[k] < e
      {
        assert r[k] in t;
      }
      assert e !in r;
      InsertMembers(symbols, r, e);
      InsertSorted(symbols, r, e);
    }
  }

  // ---------------------------------------------------------------------------------------------
  // The order of the symbol table.

  function Locals(symbols: seq<Symbol>): (r: seq<nat>)
  {
    Select(symbols, |symbols|, Local)
  }

  function Externals(symbols: seq<Symbol>): (r: seq<nat>)
  {
    SelectWithin(symbols, External);
    SortByName(symbols, Select(symbols, |symbols|, External))
  }

  function Undefineds(symbols: seq<Symbol>): (r: seq<nat>)
  {
    SelectWithin(symbols, UndefinedClass);
    SortByName(symbols, Select(symbols, |symbols|, UndefinedClass))
  }

  lemma SelectWithin(symbols: seq<Symbol>, class_: Class)
    ensures Within(symbols, Select(symbols, |symbols|, class_))
  {
    SelectMembers(symbols, |symbols|, class_);
    var s := Select(symbols, |symbols|, class_);
    assert forall k :: 0 <= k < |s| ==> s[k] in s;
  }

  /** The positions of the emitted symbols in the order in which they are numbered. */
  function Order(symbols: seq<Symbol>): seq<nat>
  {
    Locals(symbols) + Externals(symbols) + Undefineds(symbols)
  }

  /** Members of each range of the order: exactly the symbols of one class, each once. */
  lemma ClassRanges(symbols: seq<Symbol>)
    ensures forall x :: x in Locals(symbols) <==> 0 <= x < |symbols| && ClassOf(symbols[x]) == Local
    ensures forall x :: x in Externals(symbols) <==> 0 <= x < |symbols| && ClassOf(symbols[x]) == External
    ensures forall x :: x in Undefineds(symbols) <==> 0 <= x < |symbols| && ClassOf(symbols[x]) == UndefinedClass
    ensures NoDuplicates(Locals(symbols)) && NoDuplicates(Externals(symbols)) && NoDuplicates(Undefineds(symbols))
    ensures Within(symbols, Externals(symbols)) && SortedByName(symbols, Externals(symbols))
    ensures Within(symbols, Undefineds(symbols)) && SortedByName(symbols, Undefineds(symbols))
  {
    hide ClassOf, Select, SortByName, Before;
    SelectMembers(symbols, |symbols|, Local);
    SelectMembers(symbols, |symbols|, External);
    SelectMembers(symbols, |symbols|, UndefinedClass);
    SelectWithin(symbols, External);
    SelectWithin(symbols, UndefinedClass);
    SortByNameMeaning(symbols, Select(symbols, |symbols|, External));
    SortByNameMeaning(symbols, Select(symbols, |symbols|, UndefinedClass));
  }

  /** The order is a permutation of the emitted symbols. */
  lemma OrderIsPermutation(symbols: seq<Symbol>)
    ensures NoDuplicates(Order(symbols)) && Within(symbols, Order(symbols))
    ensures forall i :: 0 <= i < |symbols| ==> (i in Order(symbols) <==> symbols[i].IsEmitted())
  {
    hide Locals, Externals, Undefineds, SortedByName;
    ClassRanges(symbols);
    var l, x, u := Locals(symbols), Externals(symbols), Undefineds(symbols);
    assert forall k :: 0 <= k < |l| ==> l[k] in l;
    assert forall k :: 0 <= k < |x| ==> x[k] in x;
    assert forall k :: 0 <= k < |u| ==> u[k] in u;
    forall k | 0 <= k < |Order(symbols)|
      ensures Order(symbols)[k] < |symbols|
    {
      assert Order(symbols)[k] in l || Order(symbols)[k] in x || Order(symbols)[k] in u;
    }
  }

  /** The class of the symbol numbered `k` is decided by the range that `k` is in. */
  lemma ClassOfNumber(symbols: seq<Symbol>, k: nat)
    requires k < |Order(symbols)|
    ensures |Order(symbols)| == |Locals(symbols)| + |Externals(symbols)| + |Undefineds(symbols)|
    ensures var l, x, s := |Locals(symbols)|, |Externals(symbols)|, Order(symbols)[k];
      s < |symbols| && ClassOf(symbols[s]) == if k < l then Local else if k < l + x then External else UndefinedClass
  {
    hide Locals, Externals, Undefineds, SortedByName, ClassOf;
    ClassRanges(symbols);
    var l, x, u := Locals(symbols), Externals(symbols), Undefineds(symbols);
    if k < |l| {
      assert Order(symbols)[k] == l[k];
    } else if k < |l| + |x| {
      assert Order(symbols)[k] == x[k - |l|];
    } else {
      assert Order(symbols)[k] == u[k - |l| - |x|];
    }
  }

  /** Defined external and undefined symbols are each in the order of their names. */
  lemma NamesOfNumbers(symbols: seq<Symbol>, j: nat, k: nat)
    requires j < k < |Order(symbols)|
    requires |Locals(symbols)| <= j
    requires k < |Locals(symbols)| + |Externals(symbols)| <==> j < |Locals(symbols)| + |Externals(symbols)|
    ensures var a, b := Order(symbols)[j], Order(symbols)[k];
      a < |symbols| && b < |symbols| && Before(symbols, a, b)
  {
    hide Locals, Externals, Undefineds, ClassOf, Before;
    ClassRanges(symbols);
    OrderIsPermutation(symbols);
    var l, x, u := Locals(symbols), Externals(symbols), Undefineds(symbols);
    if k < |l| + |x| {
      assert Order(symbols)[j] == x[j - |l|] && Order(symbols)[k] == x[k - |l|];
    } else {
      assert Order(symbols)[j] == u[j - |l| - |x|] && Order(symbols)[k] == u[k - |l| - |x|];
    }
  }

  /** The number given to symbol `i`; symbols that are not emitted keep the default zero. */
  function NumberOf(order: seq<nat>, i: nat): nat
  {
    if order == [] then 0
    else if order[|order| - 1] == i then |order| - 1
    else NumberOf(order[..|order| - 1], i)
  }

  lemma {:induction false} NumberOfMeaning(order: seq<nat>, i: nat)
    ensures i in order ==> NumberOf(order, i) < |order| && order[NumberOf(order, i)] == i
    ensures i !in order ==> NumberOf(order, i) == 0
  {
    if order != [] {
      NumberOfMeaning(order[..|order| - 1], i);
      assert order == order[..|order| - 1] + [order[|order| - 1]];
    }
  }

  /** Numbering is one-to-one onto the entries of the table. */
  lemma NumberingIsBijective(symbols: seq<Symbol>, i: nat, k: nat)
    requires i < |symbols| && symbols[i].IsEmitted() && k < |Order(symbols)|
    ensures NumberOf(Order(symbols), i) < |Order(symbols)|
    ensures NumberOf(Order(symbols), i) == k <==> Order(symbols)[k] == i
  {
    hide Order;
    OrderIsPermutation(symbols);
    NumberOfMeaning(Order(symbols), i);
  }

  /** The counting loop of the first pass. */
  method AssignNumbers(order: seq<nat>, n: nat) returns (numbers: seq<nat>, nsyms: nat)
    requires NoDuplicates(order) && forall k :: 0 <= k < |order| ==> order[k] < n
    ensures |numbers| == n && nsyms == |order|
    ensures forall i :: 0 <= i < n ==> numbers[i] == NumberOf(order, i)
  {
    numbers := seq(n, _ => 0);
    nsyms := 0;
    for k := 0 to |order|
      invariant |numbers| == n && nsyms == k
      invariant forall i :: 0 <= i < n ==> numbers[i] == NumberOf(order[..k], i)
    {
      assert order[..k + 1][..k] == order[..k];
      numbers := numbers[order[k] := nsyms];
      nsyms := nsyms + 1;
    }
    assert order[..|order|] == order;
  }

  // ---------------------------------------------------------------------------------------------
  // The partition loop.

  /** The table entry of symbol `i` names it, and unnamed or skipped symbols have none. */
  ghost predicate Named(symbols: seq<Symbol>, strings: seq<seq<byte>>, ids: seq<Option<nat>>, i: nat)
    requires i < |symbols| && i < |ids|
  {
    if symbols[i].IsEmitted() && symbols[i].name != []
    then ids[i].Some? && ids[i].value < |strings| && strings[ids[i].value] == symbols[i].name
    else ids[i].None?
  }

  /** Later strings and later identifiers leave earlier symbols named. */
  lemma AllNamedKept(symbols: seq<Symbol>, before: seq<seq<byte>>, strings: seq<seq<byte>>, ids: seq<Option<nat>>,
                     index: nat, id: nat)
    requires index < |symbols| == |ids| && before <= strings
    requires forall i :: 0 <= i < index ==> Named(symbols, before, ids, i)
    ensures var ids' := ids[index := Some(id)];
      forall i :: 0 <= i < index ==> Named(symbols, strings, ids', i)
  {
    var ids' := ids[index := Some(id)];
    forall i | 0 <= i < index
      ensures Named(symbols, strings, ids', i)
    {
      assert Named(symbols, before, ids, i);
    }
  }

  ghost predicate NamesReadable(symbols: seq<Symbol>)
  {
    forall i :: 0 <= i < |symbols| && symbols[i].IsEmitted() ==> 0 !in symbols[i].name
  }

  /** Classifies every symbol and enters its name in the string table; labels are not supported. */
  method PartitionSymbols(symbols: seq<Symbol>, strtab: StringTable.StringTable)
    returns (ok: bool, ids: seq<Option<nat>>, locals: seq<nat>, externals: seq<nat>, undefined: seq<nat>)
    requires NamesReadable(symbols) && strtab.Valid() && strtab.offsets == []
    modifies strtab
    ensures strtab.Valid() && strtab.offsets == []
    ensures ok <==> forall i :: 0 <= i < |symbols| ==> !symbols[i].kind.LabelSymbol?
    ensures ok ==> locals == Select(symbols, |symbols|, Local) && externals == Select(symbols, |symbols|, External)
    ensures ok ==> undefined == Select(symbols, |symbols|, UndefinedClass)
    ensures ok ==> |ids| == |symbols| && forall i :: 0 <= i < |symbols| ==> Named(symbols, strtab.strings, ids, i)
  {
    ids := seq(|symbols|, _ => None);
    locals, externals, undefined := [], [], [];
    for index := 0 to |symbols|
      invariant strtab.Valid() && strtab.offsets == []
      invariant forall i :: 0 <= i < index ==> !symbols[i].kind.LabelSymbol?
      invariant locals == Select(symbols, index, Local) && externals == Select(symbols, index, External)
      invariant undefined == Select(symbols, index, UndefinedClass)
      invariant |ids| == |symbols|
      invariant forall i :: 0 <= i < index ==> Named(symbols, strtab.strings, ids, i)
      invariant forall i :: index <= i < |symbols| ==> ids[i].None?
    {
      var symbol := symbols[index];
      match symbol.kind {
        case TextSymbol | DataSymbol | TlsSymbol | UnknownSymbol =>
        case FileSymbol | SectionSymbol => continue;
        case LabelSymbol => return false, ids, locals, externals, undefined;
      }
      if symbol.name != [] {
        ghost var before := strtab.strings;
        var id := strtab.Add(symbol.name);
        AllNamedKept(symbols, before, strtab.strings, ids, index, id);
        ids := ids[index := Some(id)];
      }
      if symbol.IsUndefined() {
        undefined := undefined + [index];
      } else if symbol.IsLocal() {
        locals := locals + [index];
      } else {
        externals := externals + [index];
      }
    }
    ok := true;
  }
}
