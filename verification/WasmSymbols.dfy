/**
 What the symbols of a WebAssembly file say of its payloads: each function symbol covers exactly the
 code entry that its index counts to, inside the code section that its section index finds.
 */
module WasmSymbols {
  import opened Prelude
  import opened Wasm

  // ---------------------------------------------------------------------------------------------
  // Sections by identifier.

  /** The payloads that are sections, by the identifiers in section 5.5.2 of the WebAssembly standard. */
  predicate HasId(p: Payload, id: nat)
  {
    match id
    case 0 => p.CustomSection?
    case 1 => p.TypeSection?
    case 2 => p.ImportSection?
    case 3 => p.FunctionSection?
    case 4 => p.TableSection?
    case 5 => p.MemorySection?
    case 6 => p.GlobalSection?
    case 7 => p.ExportSection?
    case 8 => p.StartSection?
    case 9 => p.ElementSection?
    case 10 => p.CodeSectionStart?
    case 11 => p.DataSection?
    case 12 => p.DataCountSection?
    case 13 => p.TagSection?
    case _ => false
  }

  /** A section index finds the last payload with that identifier. */
  lemma {:induction false} SectionFound(payloads: seq<Result<Payload>>, q: nat, id: nat)
    requires q < |payloads| && payloads[q].Ok? && HasId(payloads[q].value, id)
    requires NoneBehind(payloads, q, id)
    ensures var h := LastWithId(Headers(payloads), id);
      && h.Some? && h.value.id == id && h.value.range == payloads[q].value.range
      && h.value.name == if id == 0 then payloads[q].value.name else ""
  {
    var front, last := payloads[..|payloads| - 1], payloads[|payloads| - 1];
    var s := Headers(front);
    if q < |payloads| - 1 {
      SectionFound(front, q, id);
      var t := if last.Ok? then HeaderOf(last.value) else [];
      if last.Ok? {
        HeaderId(last.value, id);
      }
      NotLast(s, t, id);
      assert Headers(payloads) == s + t;
    } else {
      HeaderId(last.value, id);
      LastWithIdAt(s + HeaderOf(last.value), id, |s|);
    }
  }

  lemma HeaderId(p: Payload, id: nat)
    ensures |HeaderOf(p)| <= 1
    ensures HasId(p, id) <==> HeaderOf(p) != [] && HeaderOf(p)[0].id == id
    ensures HasId(p, id) ==> HeaderOf(p)[0].range == p.range && HeaderOf(p)[0].name == if id == 0 then p.name else ""
  {
  }

  lemma NotLast(s: seq<SectionHeader>, t: seq<SectionHeader>, id: nat)
    requires |t| <= 1 && (t != [] ==> t[0].id != id)
    ensures LastWithId(s + t, id) == LastWithId(s, id)
  {
    if t == [] {
      assert s + t == s;
    } else {
      assert (s + t)[..|s|] == s;
    }
  }

  // ---------------------------------------------------------------------------------------------
  // Code entries.

  predicate IsEntry(p: Result<Payload>)
  {
    p.Ok? && p.value.CodeSectionEntry?
  }

  function CountEntries(payloads: seq<Result<Payload>>): nat
  {
    if payloads == [] then 0
    else CountEntries(payloads[..|payloads| - 1]) + if IsEntry(payloads[|payloads| - 1]) then 1 else 0
  }

  /** The start of the last code section in front of a payload. */
  function CodeStart(payloads: seq<Result<Payload>>): nat
  {
    if payloads == [] then 0
    else
      var last := payloads[|payloads| - 1];
      if last.Ok? && last.value.CodeSectionStart? then last.value.range.0
      else CodeStart(payloads[..|payloads| - 1])
  }

  /** Payload `p` is code entry number `k`. */
  ghost predicate EntryAt(payloads: seq<Result<Payload>>, p: nat, k: nat)
  {
    p < |payloads| && IsEntry(payloads[p]) && CountEntries(payloads[..p]) == k
  }

  /**
   The bytes from `address` on, `size` many, counted from the start of the code section, are those of
   code entry `p`.
   */
  ghost predicate Covers(payloads: seq<Result<Payload>>, p: nat, address: nat, size: nat)
    requires p < |payloads| && IsEntry(payloads[p])
  {
    var range, start := payloads[p].value.range, CodeStart(payloads[..p]);
    && range.0 + size == range.1
    && (start <= range.0 <= U64_MAX ==> start + address == range.0 && start + address + size == range.1)
  }

  /** What is collected for code entry `k`. */
  lemma {:induction false} RangeOfEntry(payloads: seq<Result<Payload>>, k: nat) returns (p: nat)
    requires k < CountEntries(payloads)
    ensures EntryAt(payloads, p, k) && |CollectAll(payloads).codeRanges| == CountEntries(payloads)
    ensures Covers(payloads, p, CollectAll(payloads).codeRanges[k].0, CollectAll(payloads).codeRanges[k].1)
  {
    var front, last := payloads[..|payloads| - 1], payloads[|payloads| - 1];
    RangesCounted(payloads);
    RangesCounted(front);
    if k < CountEntries(front) {
      p := RangeOfEntry(front, k);
      assert front[..p] == payloads[..p];
    } else {
      p := |payloads| - 1;
      StartCollected(front);
    }
  }

  lemma {:induction false} RangesCounted(payloads: seq<Result<Payload>>)
    ensures |CollectAll(payloads).codeRanges| == CountEntries(payloads)
  {
    hide CodeRange, GlobalValues, LastSymbolTable;
    if payloads != [] {
      RangesCounted(payloads[..|payloads| - 1]);
    }
  }

  lemma {:induction false} StartCollected(payloads: seq<Result<Payload>>)
    ensures CollectAll(payloads).codeStart == CodeStart(payloads)
  {
    hide CodeRange, GlobalValues, LastSymbolTable;
    if payloads != [] {
      StartCollected(payloads[..|payloads| - 1]);
    }
  }

  /** Of several sections of one kind, the last is the one that counts. */
  lemma {:induction false} LastCollected(payloads: seq<Result<Payload>>, q: nat)
    requires q < |payloads| && payloads[q].Ok?
    ensures payloads[q].value.ImportSection? && NoneBehind(payloads, q, 2) ==>
      CollectAll(payloads).imports == Some(payloads[q].value.imports)
    ensures payloads[q].value.FunctionSection? && NoneBehind(payloads, q, 3) ==>
      CollectAll(payloads).localFuncs == payloads[q].value.count
    ensures payloads[q].value.ExportSection? && NoneBehind(payloads, q, 7) ==>
      CollectAll(payloads).exports == Some(payloads[q].value.exports)
    ensures payloads[q].value.CustomSection? && payloads[q].value.name == "name" && NoneBehind(payloads, q, 0) ==>
      CollectAll(payloads).names == Some(payloads[q].value.names)
    decreases |payloads|
  {
    hide CodeRange, GlobalValues, LastSymbolTable;
    if q < |payloads| - 1 {
      var front := payloads[..|payloads| - 1];
      LastCollected(front, q);
    }
  }

  /** The linking symbol table that counts: the last one of the last linking section that has one. */
  lemma {:induction false} LinkingCollected(payloads: seq<Result<Payload>>, q: nat, m: nat)
    requires q < |payloads| && HasTable(payloads[q], m)
    requires forall i :: m < i ==> !HasTable(payloads[q], i)
    requires forall p, i :: q < p < |payloads| ==> !HasTable(payloads[p], i)
    ensures CollectAll(payloads).linking == Some(payloads[q].value.linking.value[m].value.symbols)
    decreases |payloads|
  {
    hide CodeRange, GlobalValues, LastSymbolTable;
    var front, last := payloads[..|payloads| - 1], payloads[|payloads| - 1];
    var before := CollectAll(front).linking;
    if q < |payloads| - 1 {
      LinkingCollected(front, q, m);
      if last.Ok? && last.value.CustomSection? && last.value.name == "linking" && last.value.linking.Ok? {
        forall i | 0 <= i < |last.value.linking.value|
          ensures !IsTable(last.value.linking.value[i])
        {
          assert !HasTable(last, i);
        }
        NoTable(before, last.value.linking.value);
      }
    } else {
      forall i | m < i < |last.value.linking.value|
        ensures !IsTable(last.value.linking.value[i])
      {
        assert !HasTable(last, i);
      }
      LastTable(before, last.value.linking.value, m);
    }
  }

  predicate IsTable(s: Result<Linking>)
  {
    s.Ok? && s.value.SymbolTable?
  }

  /** Subsection `m` of a linking section is a symbol table. */
  predicate HasTable(p: Result<Payload>, m: int)
  {
    && p.Ok? && p.value.CustomSection? && p.value.name == "linking" && p.value.linking.Ok?
    && 0 <= m < |p.value.linking.value| && IsTable(p.value.linking.value[m])
  }

  lemma {:induction false} NoTable(before: Option<seq<Result<LinkInfo>>>, s: seq<Result<Linking>>)
    requires forall i :: 0 <= i < |s| ==> !IsTable(s[i])
    ensures LastSymbolTable(before, s) == before
  {
    if s != [] {
      NoTable(before, s[..|s| - 1]);
    }
  }

  lemma {:induction false} LastTable(before: Option<seq<Result<LinkInfo>>>, s: seq<Result<Linking>>, m: nat)
    requires m < |s| && IsTable(s[m]) && forall i :: m < i < |s| ==> !IsTable(s[i])
    ensures LastSymbolTable(before, s) == Some(s[m].value.symbols)
    decreases |s|
  {
    if m < |s| - 1 {
      LastTable(before, s[..|s| - 1], m);
    }
  }

  /** No payload with identifier `id` comes behind `q`. */
  ghost predicate NoneBehind(payloads: seq<Result<Payload>>, q: nat, id: nat)
  {
    forall p :: q < p < |payloads| && payloads[p].Ok? ==> !HasId(payloads[p].value, id)
  }

  /** The globals of all global sections, in order. */
  function AllGlobals(payloads: seq<Result<Payload>>): seq<Result<Global>>
  {
    if payloads == [] then []
    else
      var last := payloads[|payloads| - 1];
      AllGlobals(payloads[..|payloads| - 1]) + if last.Ok? && last.value.GlobalSection? then last.value.globals else []
  }

  /** `v` is the constant of an immutable global, as an unsigned 64-bit number, or zero if there is none. */
  ghost predicate ConstantOf(g: Result<Global>, v: nat)
  {
    if g.Ok? && !g.value.mutable && g.value.init.Ok? && g.value.init.value.Const?
    then v <= U64_MAX && (v - g.value.init.value.value) % 0x1_0000_0000_0000_0000 == 0
    else v == 0
  }

  lemma {:induction false} GlobalsCollected(payloads: seq<Result<Payload>>)
    ensures |CollectAll(payloads).globals| == |AllGlobals(payloads)|
    ensures forall i :: 0 <= i < |AllGlobals(payloads)| ==> var v := CollectAll(payloads).globals[i];
      ConstantOf(AllGlobals(payloads)[i], if v.Some? then v.value else 0)
  {
    hide CodeRange, LastSymbolTable, ConstantOf, GlobalValue;
    if payloads != [] {
      var front, last := payloads[..|payloads| - 1], payloads[|payloads| - 1];
      GlobalsCollected(front);
      if last.Ok? && last.value.GlobalSection? {
        var n, values := |AllGlobals(front)|, GlobalValues(last.value.globals);
        assert CollectAll(payloads).globals == CollectAll(front).globals + values;
        forall i | 0 <= i < |AllGlobals(payloads)|
          ensures var v := CollectAll(payloads).globals[i];
            ConstantOf(AllGlobals(payloads)[i], if v.Some? then v.value else 0)
        {
          if i >= n {
            ConstantCollected(last.value.globals[i - n]);
          }
        }
      }
    }
  }

  lemma ConstantCollected(g: Result<Global>)
    ensures var v := if g.Ok? then GlobalValue(g.value) else None;
      ConstantOf(g, if v.Some? then v.value else 0)
  {
  }

  /** With one code section, its start is that of the section that index 10 finds. */
  lemma StartOfSection(payloads: seq<Result<Payload>>, p: nat, q: nat)
    requires q < p < |payloads| && payloads[q].Ok? && payloads[q].value.CodeSectionStart?
    requires forall r :: q < r < |payloads| && payloads[r].Ok? ==> !payloads[r].value.CodeSectionStart?
    ensures var h := LastWithId(Headers(payloads), 10);
      h.Some? && h.value.range.0 == CodeStart(payloads[..p])
  {
    hide LastWithId, Headers;
    SectionFound(payloads, q, 10);
    StartAt(payloads[..p], q);
  }

  lemma {:induction false} StartAt(payloads: seq<Result<Payload>>, q: nat)
    requires q < |payloads| && payloads[q].Ok? && payloads[q].value.CodeSectionStart?
    requires forall r :: q < r < |payloads| && payloads[r].Ok? ==> !payloads[r].value.CodeSectionStart?
    ensures CodeStart(payloads) == payloads[q].value.range.0
    decreases |payloads|
  {
    if q < |payloads| - 1 {
      StartAt(payloads[..|payloads| - 1], q);
    }
  }

  // ---------------------------------------------------------------------------------------------
  // Symbols of functions and of everything else.

  ghost predicate Unlinked(payloads: seq<Result<Payload>>, kinds: seq<FunctionKind>, symbols: seq<Symbol>)
  {
    FileAccepted(payloads) && CollectAll(payloads).linking.None? && SymbolsOf(CollectAll(payloads), kinds, symbols)
  }

  function ImportsOf(p: Parts): seq<Import>
    requires p.imports.Some? ==> AllOk(p.imports.value)
  {
    if p.imports.Some? then Values(p.imports.value) else []
  }

  /** The number of imported functions, which come first among all functions. */
  function ImportedFunctions(imports: seq<Import>): nat
  {
    if imports == [] then 0
    else ImportedFunctions(imports[..|imports| - 1]) + if imports[|imports| - 1].ty.FuncType? then 1 else 0
  }

  lemma {:induction false} FunctionsCounted(imports: seq<Import>)
    ensures |ImportedNames(imports, FuncType)| == ImportedFunctions(imports)
  {
    if imports != [] {
      FunctionsCounted(imports[..|imports| - 1]);
    }
  }

  /**
   The address and size of function `index`: none if it is imported or has no body, otherwise those of
   code entry `p`, to which the index counts behind the imports.
   */
  ghost predicate FunctionAt(payloads: seq<Result<Payload>>, imported: nat, index: nat, p: nat,
                             address: nat, size: nat)
  {
    if index < imported || index - imported >= CountEntries(payloads) then address == 0 && size == 0
    else EntryAt(payloads, p, index - imported) && Covers(payloads, p, address, size)
  }

  lemma BodyAt(payloads: seq<Result<Payload>>, imports: seq<Import>, c: Context, index: nat) returns (p: nat)
    requires c.funcNames == ImportedNames(imports, FuncType) && c.codeRanges == CollectAll(payloads).codeRanges
    ensures FunctionAt(payloads, ImportedFunctions(imports), index, p, BodyOf(c, index).0, BodyOf(c, index).1)
  {
    hide CollectAll, ImportedNames, Covers;
    p := 0;
    FunctionsCounted(imports);
    RangesCounted(payloads);
    var n := |c.funcNames|;
    if n <= index && index - n < CountEntries(payloads) {
      p := RangeOfEntry(payloads, index - n);
    }
  }

  /**
   The symbol of an export: a function is text in the code section, with the range of its body;
   a table, memory or global is data in the data section, without a size.
   */
  lemma ExportedSymbol(payloads: seq<Result<Payload>>, kinds: seq<FunctionKind>, symbols: seq<Symbol>, i: nat)
    returns (j: nat, p: nat)
    requires Unlinked(payloads, kinds, symbols) && CollectAll(payloads).exports.Some?
    requires var exports := CollectAll(payloads).exports.value;
      i < |exports| && exports[i].Ok? && !exports[i].value.kind.TagExport?
    ensures j < |symbols|
    ensures var parts := CollectAll(payloads);
      var s, e, imported := symbols[j], parts.exports.value[i].value, ImportedFunctions(ImportsOf(parts));
      && s.name == e.name && s.scope.Dynamic? && !s.weak
      && (e.kind.FuncExport? ==> s.kind.Text? && s.section == InSection(10))
      && (!e.kind.FuncExport? ==> s.kind.Data? && s.section == InSection(11) && s.size == 0)
      && (e.kind.FuncExport? ==> FunctionAt(payloads, imported, e.index, p, s.address, s.size))
      && (e.kind.TableExport? || e.kind.MemoryExport? ==> s.address == 0)
      && (e.kind.GlobalExport? ==>
           if e.index < |AllGlobals(payloads)| then ConstantOf(AllGlobals(payloads)[e.index], s.address)
           else s.address == 0)
  {
    hide CollectAll, SymbolsOf, ImportedNames, FunctionAt, BodyOf, ConstantOf;
    GlobalsCollected(payloads);
    var parts := CollectAll(payloads);
    j := ExportPosition(parts, kinds, symbols, i);
    p := BodyAt(payloads, ImportsOf(parts), ContextOf(parts), parts.exports.value[i].value.index);
  }

  lemma ExportPosition(parts: Parts, kinds: seq<FunctionKind>, symbols: seq<Symbol>, i: nat) returns (j: nat)
    requires PartsAccepted(parts) && SymbolsOf(parts, kinds, symbols) && parts.linking.None? && parts.exports.Some?
    requires var exports := parts.exports.value;
      i < |exports| && exports[i].Ok? && !exports[i].value.kind.TagExport?
    ensures j < |symbols| && symbols[j] == ExportSymbol(parts.exports.value[i].value, ContextOf(parts))
  {
    hide ImportSymbols, NameSymbols, Marks, ImportedNames, Namings, NamesAccepted, ExportSymbol;
    var k := ExportPlace(Values(parts.exports.value), ContextOf(parts), i);
    j := |ImportSymbols(ImportsOf(parts))| + 1 + k;
  }

  lemma {:induction false} ExportPlace(exports: seq<Export>, c: Context, i: nat) returns (k: nat)
    requires i < |exports| && !exports[i].kind.TagExport?
    ensures k < |ExportSymbols(exports, c)| && ExportSymbols(exports, c)[k] == ExportSymbol(exports[i], c)
    ensures k == |ExportSymbols(exports[..i], c)|
    decreases |exports|
  {
    hide ExportSymbol;
    var front := exports[..|exports| - 1];
    if i < |front| {
      k := ExportPlace(front, c, i);
      assert front[..i] == exports[..i];
    } else {
      k := |ExportSymbols(front, c)|;
    }
  }

  /**
   A symbol from the name section: text in the code section, of local scope, with the range of the
   body that its index counts to.
   */
  lemma NamedSymbol(payloads: seq<Result<Payload>>, kinds: seq<FunctionKind>, symbols: seq<Symbol>, k: nat)
    returns (m: nat, j: nat, p: nat)
    requires Unlinked(payloads, kinds, symbols) && CollectAll(payloads).names.Some?
    requires k < |NameSymbols(Namings(CollectAll(payloads).names.value), ContextOf(CollectAll(payloads)), kinds)|
    ensures var parts := CollectAll(payloads);
      && m < |Namings(parts.names.value)| && j < |symbols|
      && var s, naming, imported := symbols[j], Namings(parts.names.value)[m], ImportedFunctions(ImportsOf(parts));
        && s.name == naming.name && s.kind.Text? && s.section == InSection(10) && s.scope.Compilation? && !s.weak
        && imported <= naming.index && naming.index - imported < CountEntries(payloads)
        && FunctionAt(payloads, imported, naming.index, p, s.address, s.size)
  {
    hide CollectAll, ImportSymbols, ExportSymbols, Marks, ImportedNames, Namings, FunctionAt, BodyOf, ExportInRange;
    var parts := CollectAll(payloads);
    var c, namings := ContextOf(parts), Namings(parts.names.value);
    FunctionsCounted(ImportsOf(parts));
    RangesCounted(payloads);
    m := NamePlace(namings, c, kinds, k);
    p := BodyAt(payloads, ImportsOf(parts), c, namings[m].index);
    var exports := if parts.exports.Some? then Values(parts.exports.value) else [];
    j := |ImportSymbols(ImportsOf(parts))| + 1 + |ExportSymbols(exports, c)| + k;
  }

  lemma {:induction false} NamePlace(namings: seq<Naming>, c: Context, kinds: seq<FunctionKind>, k: nat)
    returns (m: nat)
    requires k < |NameSymbols(namings, c, kinds)|
    ensures m < |namings| && NameSymbols(namings, c, kinds)[k] == NameSymbol(namings[m], c)
    ensures |c.funcNames| <= namings[m].index && namings[m].index - |c.funcNames| < |c.codeRanges|
  {
    hide NameSymbol;
    var front := namings[..|namings| - 1];
    if k < |NameSymbols(front, c, kinds)| {
      m := NamePlace(front, c, kinds, k);
    } else {
      m := |namings| - 1;
    }
  }

  /** The symbol of an import: undefined, without address and size, of the kind of what is imported. */
  lemma ImportedSymbol(payloads: seq<Result<Payload>>, kinds: seq<FunctionKind>, symbols: seq<Symbol>, i: nat)
    returns (j: nat)
    requires Unlinked(payloads, kinds, symbols) && i < |ImportsOf(CollectAll(payloads))|
    ensures j < |symbols|
    ensures var s, x := symbols[j], ImportsOf(CollectAll(payloads))[i];
      && s.name == x.name && s.address == 0 && s.size == 0 && s.section.Undefined? && s.scope.Dynamic? && !s.weak
      && (s.kind.Text? <==> x.ty.FuncType?)
      && (s.kind.Data? <==> x.ty.TableType? || x.ty.MemoryType? || x.ty.GlobalType?)
      && (s.kind.UnknownKind? <==> x.ty.TagType?)
  {
    hide CollectAll, ExportSymbols, NameSymbols, Marks, ImportedNames, Namings, NamesAccepted, ExportsAccepted;
    j := ImportPlace(ImportsOf(CollectAll(payloads)), i);
  }

  lemma {:induction false} ImportPlace(imports: seq<Import>, i: nat) returns (j: nat)
    requires i < |imports|
    ensures j < |ImportSymbols(imports)| && ImportSymbols(imports)[j] == ImportSymbol(imports[i])
    decreases |imports|
  {
    hide ImportSymbol, ModuleSymbol;
    if i < |imports| - 1 {
      j := ImportPlace(imports[..|imports| - 1], i);
    } else {
      j := |ImportSymbols(imports)| - 1;
    }
  }

  function NameOr(name: Option<string>): string
  {
    match name case None => "" case Some(s) => s
  }

  /** The name of import number `k` among those of one type. */
  function ImportedName(imports: seq<Import>, ty: TypeRef, k: nat): Option<string>
  {
    if imports == [] then None
    else if imports[0].ty != ty then ImportedName(imports[1..], ty, k)
    else if k == 0 then Some(imports[0].name)
    else ImportedName(imports[1..], ty, k - 1)
  }

  lemma {:induction false} NameOfImport(imports: seq<Import>, ty: TypeRef, k: nat)
    ensures ImportedName(imports, ty, k) ==
            if k < |ImportedNames(imports, ty)| then Some(ImportedNames(imports, ty)[k]) else None
    decreases |imports|
  {
    if imports != [] {
      NamesFromFront(imports, ty);
      NameOfImport(imports[1..], ty, if imports[0].ty == ty && k > 0 then k - 1 else k);
    }
  }

  lemma {:induction false} NamesFromFront(imports: seq<Import>, ty: TypeRef)
    requires imports != []
    ensures ImportedNames(imports, ty) ==
            (if imports[0].ty == ty then [imports[0].name] else []) + ImportedNames(imports[1..], ty)
    decreases |imports|
  {
    if |imports| > 1 {
      var front := imports[..|imports| - 1];
      NamesFromFront(front, ty);
      assert front[1..] == imports[1..][..|imports| - 2];
    } else {
      assert imports[..0] == [] && imports[1..] == [];
    }
  }

  /** The number of imports of another module than the import before. */
  function ModuleChanges(imports: seq<Import>): nat
  {
    if imports == [] then 0
    else if |imports| == 1 || imports[0].module_ != imports[1].module_ then 1 + ModuleChanges(imports[1..])
    else ModuleChanges(imports[1..])
  }

  /** One symbol for each import, and one for each change of module. */
  lemma {:induction false} ImportsCounted(imports: seq<Import>)
    ensures |ImportSymbols(imports)| == |imports| + ModuleChanges(imports)
  {
    hide ImportSymbol, ModuleSymbol;
    if imports != [] {
      var front := imports[..|imports| - 1];
      ImportsCounted(front);
      ChangesSnoc(imports);
    }
  }

  /**
   File symbols have no place and no extent. Those among the imports are modules, of dynamic scope; one
   behind them is that of the main file, without a name and of local scope.
   */
  lemma FileSymbols(payloads: seq<Result<Payload>>, kinds: seq<FunctionKind>, symbols: seq<Symbol>, j: nat)
    requires Unlinked(payloads, kinds, symbols) && j < |symbols| && symbols[j].kind.File?
    ensures var s, imports := symbols[j], ImportsOf(CollectAll(payloads));
      && s.address == 0 && s.size == 0 && s.section.NoPlace? && !s.weak
      && if j < |imports| + ModuleChanges(imports) then s.scope.Dynamic? && exists i :: Imports(imports, i, s.name)
         else s.scope.Compilation? && s.name == ""
  {
    hide CollectAll, ExportSymbols, NameSymbols, ImportSymbols, Marks, ImportedNames, Namings, NamesAccepted,
         ExportInRange;
    var parts := CollectAll(payloads);
    var c, imports := ContextOf(parts), ImportsOf(parts);
    ImportsCounted(imports);
    ExportsAreNotFiles(if parts.exports.Some? then Values(parts.exports.value) else [], c);
    NamesAreNotFiles(if parts.names.Some? then Namings(parts.names.value) else [], c, kinds);
    if j < |ImportSymbols(imports)| {
      ModuleSymbols(imports, j);
    }
  }

  /** Import `i` is from a module. */
  predicate Imports(imports: seq<Import>, i: int, module_: string)
  {
    0 <= i < |imports| && imports[i].module_ == module_
  }

  lemma {:induction false} ModuleSymbols(imports: seq<Import>, j: nat)
    requires j < |ImportSymbols(imports)| && ImportSymbols(imports)[j].kind.File?
    ensures var s := ImportSymbols(imports)[j];
      && s.address == 0 && s.size == 0 && s.section.NoPlace? && !s.weak && s.scope.Dynamic?
      && exists i :: Imports(imports, i, s.name)
  {
    var n, front := |imports| - 1, imports[..|imports| - 1];
    if j < |ImportSymbols(front)| {
      ModuleSymbols(front, j);
      var i :| Imports(front, i, ImportSymbols(front)[j].name);
      assert Imports(imports, i, ImportSymbols(imports)[j].name);
    } else {
      assert Imports(imports, n, imports[n].module_);
    }
  }

  lemma {:induction false} ChangesSnoc(imports: seq<Import>)
    requires imports != []
    ensures var n := |imports|;
      ModuleChanges(imports) == ModuleChanges(imports[..n - 1]) +
        if n > 1 && imports[n - 2].module_ == imports[n - 1].module_ then 0 else 1
    decreases |imports|
  {
    if |imports| > 1 {
      var rest := imports[1..];
      ChangesSnoc(rest);
      assert rest[..|rest| - 1] == imports[..|imports| - 1][1..];
    }
  }

  /**
   The symbol of an entry of the linking symbol table: its scope and weakness follow the flags, a
   function has the range of the body that its index counts to, and defined data what the entry says.
   */
  lemma LinkedSymbol(payloads: seq<Result<Payload>>, kinds: seq<FunctionKind>, symbols: seq<Symbol>, k: nat)
    returns (p: nat)
    requires FileAccepted(payloads) && CollectAll(payloads).linking.Some?
    requires SymbolsOf(CollectAll(payloads), kinds, symbols) && k < |symbols|
    ensures var parts := CollectAll(payloads);
      && |parts.linking.value| == |symbols| && parts.linking.value[k].Ok?
      && var s, x, imported := symbols[k], parts.linking.value[k].value, ImportedFunctions(ImportsOf(parts));
        && (s.scope.Compilation? <==> x.flags.local) && (s.scope.Linkage? <==> !x.flags.local && x.flags.hidden)
        && s.weak == x.flags.weak
        && (s.section.Undefined? <==> x.flags.undefined)
        && (s.section.Absolute? <==> x.flags.absolute && !x.flags.undefined)
        && (s.kind.Tls? <==> x.flags.tls)
        && (!x.flags.tls ==>
             && (s.kind.Text? <==> x.LinkFunc?)
             && (s.kind.Data? <==> x.LinkData? || x.LinkGlobal? || x.LinkTable?)
             && (s.kind.SectionKind? <==> x.LinkSection?) && (s.kind.UnknownKind? <==> x.LinkEvent?))
        && (x.LinkFunc? ==> FunctionAt(payloads, imported, x.index, p, s.address, s.size))
        && (x.LinkData? ==> s.name == x.name) && (x.LinkSection? ==> s.name == "")
        && (x.LinkGlobal? && !x.flags.explicitName ==>
             s.name == NameOr(ImportedName(ImportsOf(parts), GlobalType, x.index)))
        && (x.LinkGlobal? && x.flags.explicitName ==> s.name == NameOr(x.maybeName))
        && (x.LinkEvent? || x.LinkTable? ==> s.name == NameOr(x.maybeName))
        && (x.LinkFunc? ==> s.name == NameOr(
             if x.index < imported && !x.flags.explicitName then ImportedName(ImportsOf(parts), FuncType, x.index)
             else x.maybeName))
        && (x.LinkData? && x.defined.Some? ==> (s.address, s.size) == x.defined.value)
        && (!x.LinkFunc? && !(x.LinkData? && x.defined.Some?) ==> s.address == 0 && s.size == 0)
  {
    hide CollectAll, ImportedNames, FunctionAt, BodyOf, ImportedName;
    var parts := CollectAll(payloads);
    var c, x := ContextOf(parts), Values(parts.linking.value)[k];
    p := 0;
    FunctionsCounted(ImportsOf(parts));
    if x.LinkFunc? || x.LinkGlobal? {
      NameOfImport(ImportsOf(parts), FuncType, x.index);
      NameOfImport(ImportsOf(parts), GlobalType, x.index);
    }
    if x.LinkFunc? {
      p := BodyAt(payloads, ImportsOf(parts), c, x.index);
    }
  }
}
