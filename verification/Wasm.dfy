/**
 The WebAssembly reader: sections by identifier, and the symbols collected from imports, the linking
 section, exports and the name section. The payloads come from a separate parser; they are a list
 whose items, like the items inside them, may be read errors.
 */
module Wasm {
  import opened Prelude

  // ---------------------------------------------------------------------------------------------
  // Payloads.

  type SectionId = n: nat | n <= 13

  const CUSTOM: SectionId := 0
  const TYPE: SectionId := 1
  const IMPORT: SectionId := 2
  const FUNCTION: SectionId := 3
  const TABLE: SectionId := 4
  const MEMORY: SectionId := 5
  const GLOBAL: SectionId := 6
  const EXPORT: SectionId := 7
  const START: SectionId := 8
  const ELEMENT: SectionId := 9
  const CODE: SectionId := 10
  const DATA: SectionId := 11
  const DATA_COUNT: SectionId := 12
  const TAG: SectionId := 13

  type Range = r: (nat, nat) | r.0 <= r.1 witness (0, 0)

  datatype TypeRef = FuncType | TableType | MemoryType(memory64: bool) | GlobalType | TagType

  datatype Import = Import(module_: string, name: string, ty: TypeRef)

  datatype ExternalKind = FuncExport | TableExport | MemoryExport | GlobalExport | TagExport

  datatype Export = Export(name: string, kind: ExternalKind, index: nat)

  datatype Operator = Const(value: int) | OtherOperator

  datatype Global = Global(mutable: bool, init: Result<Operator>)

  datatype Naming = Naming(index: nat, name: string)

  datatype NameMap = FunctionNames(namings: seq<Result<Naming>>) | OtherNames

  datatype LinkFlags = LinkFlags(
    tls: bool, undefined: bool, absolute: bool, local: bool, hidden: bool, weak: bool, explicitName: bool)

  datatype LinkInfo =
    | LinkFunc(flags: LinkFlags, index: nat, maybeName: Option<string>)
    | LinkData(flags: LinkFlags, name: string, defined: Option<(nat, nat)>)
    | LinkGlobal(flags: LinkFlags, index: nat, maybeName: Option<string>)
    | LinkSection(flags: LinkFlags)
    | LinkEvent(flags: LinkFlags, maybeName: Option<string>)
    | LinkTable(flags: LinkFlags, maybeName: Option<string>)

  datatype Linking = SymbolTable(symbols: seq<Result<LinkInfo>>) | OtherLinking

  datatype Payload =
    | Version(isModule: bool)
    | TypeSection(range: Range)
    | ImportSection(range: Range, imports: seq<Result<Import>>)
    | FunctionSection(range: Range, count: nat)
    | TableSection(range: Range)
    | MemorySection(range: Range, memories: seq<Result<bool>>)
    | GlobalSection(range: Range, globals: seq<Result<Global>>)
    | ExportSection(range: Range, exports: seq<Result<Export>>)
    | StartSection(range: Range)
    | ElementSection(range: Range)
    | CodeSectionStart(range: Range)
    | CodeSectionEntry(range: Range)
    | DataSection(range: Range)
    | DataCountSection(range: Range)
    | TagSection(range: Range)
    | CustomSection(range: Range, name: string, names: seq<Result<NameMap>>, linking: Result<seq<Result<Linking>>>)
    | OtherPayload

  ghost predicate AllOk<T>(s: seq<Result<T>>)
  {
    forall i :: 0 <= i < |s| ==> s[i].Ok?
  }

  // ---------------------------------------------------------------------------------------------
  // Symbols.

  datatype Kind = UnknownKind | Text | Data | SectionKind | File | Tls

  datatype Place = NoPlace | UnknownPlace | Undefined | Absolute | InSection(id: SectionId)

  datatype Scope = Compilation | Linkage | Dynamic

  datatype Symbol = Symbol(name: string, address: nat, size: nat, kind: Kind, section: Place, scope: Scope, weak: bool)

  const MAIN_FILE: Symbol := Symbol("", 0, 0, File, NoPlace, Compilation, false)

  function ModuleSymbol(module_: string): Symbol
  {
    Symbol(module_, 0, 0, File, NoPlace, Dynamic, false)
  }

  function ImportSymbol(i: Import): Symbol
  {
    var kind := match i.ty
      case FuncType => Text
      case TableType | MemoryType(_) | GlobalType => Data
      case TagType => UnknownKind;
    Symbol(i.name, 0, 0, kind, Undefined, Dynamic, false)
  }

  // ---------------------------------------------------------------------------------------------
  // What a reader of the symbol list makes of it: each symbol belongs to the last file symbol before it.

  function LastFile(s: seq<Symbol>): Option<string>
  {
    if s == [] then None
    else if s[|s| - 1].kind.File? then Some(s[|s| - 1].name)
    else LastFile(s[..|s| - 1])
  }

  function Attributed(s: seq<Symbol>): seq<(Option<string>, Symbol)>
  {
    if s == [] then []
    else
      var front, last := s[..|s| - 1], s[|s| - 1];
      Attributed(front) + if last.kind.File? then [] else [(LastFile(front), last)]
  }

  lemma AttributedSnoc(s: seq<Symbol>, x: Symbol)
    ensures Attributed(s + [x]) == Attributed(s) + if x.kind.File? then [] else [(LastFile(s), x)]
    ensures LastFile(s + [x]) == if x.kind.File? then Some(x.name) else LastFile(s)
  {
    assert (s + [x])[..|s|] == s;
  }

  function CountMain(s: seq<Symbol>): nat
  {
    if s == [] then 0 else CountMain(s[..|s| - 1]) + if s[|s| - 1] == MAIN_FILE then 1 else 0
  }

  lemma CountMainSnoc(s: seq<Symbol>, x: Symbol)
    ensures CountMain(s + [x]) == CountMain(s) + if x == MAIN_FILE then 1 else 0
  {
    assert (s + [x])[..|s|] == s;
  }

  /** `s` in order, each symbol attributed to the same file. */
  function AllOf(file: Option<string>, s: seq<Symbol>): seq<(Option<string>, Symbol)>
  {
    seq(|s|, i requires 0 <= i < |s| => (file, s[i]))
  }

  /** Symbols that are not file symbols all belong to the file before them. */
  lemma {:induction false} AttributedAppend(s: seq<Symbol>, more: seq<Symbol>)
    requires forall i :: 0 <= i < |more| ==> !more[i].kind.File?
    ensures Attributed(s + more) == Attributed(s) + AllOf(LastFile(s), more)
    ensures LastFile(s + more) == LastFile(s)
    ensures CountMain(s + more) == CountMain(s)
  {
    hide Attributed, LastFile, CountMain;
    if more == [] {
      assert s + more == s;
    } else {
      var front, x := more[..|more| - 1], more[|more| - 1];
      AttributedAppend(s, front);
      assert s + more == (s + front) + [x];
      AttributedSnoc(s + front, x);
      CountMainSnoc(s + front, x);
    }
  }

  // ---------------------------------------------------------------------------------------------
  // Imports.

  function Values<T>(s: seq<Result<T>>): (r: seq<T>)
    requires AllOk(s)
    ensures |r| == |s|
  {
    seq(|s|, i requires 0 <= i < |s| => s[i].value)
  }

  /** A file symbol whenever the module changes, and then the symbol of the import. */
  function ImportSymbols(imports: seq<Import>): seq<Symbol>
  {
    if imports == [] then []
    else
      var front, last := imports[..|imports| - 1], imports[|imports| - 1];
      ImportSymbols(front) +
      (if front != [] && front[|front| - 1].module_ == last.module_ then [] else [ModuleSymbol(last.module_)]) +
      [ImportSymbol(last)]
  }

  /** Every import is attributed to its own module. */
  lemma {:induction false} ImportsAttributed(imports: seq<Import>)
    ensures Attributed(ImportSymbols(imports)) ==
            seq(|imports|, i requires 0 <= i < |imports| => (Some(imports[i].module_), ImportSymbol(imports[i])))
    ensures LastFile(ImportSymbols(imports)) == if imports == [] then None else Some(imports[|imports| - 1].module_)
    ensures CountMain(ImportSymbols(imports)) == 0
  {
    hide Attributed, LastFile, CountMain;
    if imports == [] {
      NoSymbols();
    } else {
      var front, last := imports[..|imports| - 1], imports[|imports| - 1];
      ImportsAttributed(front);
      var s, file, x := ImportSymbols(front), ModuleSymbol(last.module_), ImportSymbol(last);
      if front != [] && front[|front| - 1].module_ == last.module_ {
        assert ImportSymbols(imports) == s + [x];
        AttributedSnoc(s, x);
        CountMainSnoc(s, x);
      } else {
        assert ImportSymbols(imports) == s + [file] + [x];
        AttributedSnoc(s, file);
        CountMainSnoc(s, file);
        AttributedSnoc(s + [file], x);
        CountMainSnoc(s + [file], x);
      }
    }
  }

  lemma NoSymbols()
    ensures Attributed([]) == [] && LastFile([]) == None && CountMain([]) == 0
  {
  }

  /** The names of imported functions, or of imported globals: these come first in their index space. */
  function ImportedNames(imports: seq<Import>, ty: TypeRef): seq<string>
  {
    if imports == [] then []
    else
      ImportedNames(imports[..|imports| - 1], ty) +
      if imports[|imports| - 1].ty == ty then [imports[|imports| - 1].name] else []
  }

  // ---------------------------------------------------------------------------------------------
  // What the payload loop collects.

  datatype Parts = Parts(
    localFuncs: nat, codeStart: nat, codeRanges: seq<(nat, nat)>, globals: seq<Option<nat>>,
    imports: Option<seq<Result<Import>>>, exports: Option<seq<Result<Export>>>,
    names: Option<seq<Result<NameMap>>>, linking: Option<seq<Result<LinkInfo>>>)

  const NO_PARTS := Parts(0, 0, [], [], None, None, None, None)

  /** The constant of an immutable global, as an unsigned 64-bit number. */
  function GlobalValue(g: Global): Option<nat>
  {
    if !g.mutable && g.init.Ok? && g.init.value.Const? then Some(g.init.value.value % 0x1_0000_0000_0000_0000) else None
  }

  ghost predicate GlobalAccepted(g: Result<Global>)
  {
    g.Ok? && (g.value.mutable || g.value.init.Ok?)
  }

  /** The last symbol table among the subsections. */
  function LastSymbolTable(before: Option<seq<Result<LinkInfo>>>, subsections: seq<Result<Linking>>)
    : Option<seq<Result<LinkInfo>>>
  {
    if subsections == [] then before
    else
      var last := subsections[|subsections| - 1];
      if last.Ok? && last.value.SymbolTable? then Some(last.value.symbols)
      else LastSymbolTable(before, subsections[..|subsections| - 1])
  }

  ghost predicate Accepted(p: Payload)
  {
    match p
    case Version(isModule) => isModule
    case MemorySection(_, memories) => AllOk(memories)
    case GlobalSection(_, globals) => forall i :: 0 <= i < |globals| ==> GlobalAccepted(globals[i])
    case CustomSection(_, name, _, linking) => name == "linking" ==> linking.Ok? && AllOk(linking.value)
    case _ => true
  }

  /** The address of a function body is relative to the code section, in 64-bit arithmetic. */
  function CodeRange(range: Range, start: nat): (nat, nat)
  {
    ((range.0 - start) % 0x1_0000_0000_0000_0000, range.1 - range.0)
  }

  function GlobalValues(globals: seq<Result<Global>>): (r: seq<Option<nat>>)
    ensures |r| == |globals|
  {
    seq(|globals|, i requires 0 <= i < |globals| => if globals[i].Ok? then GlobalValue(globals[i].value) else None)
  }

  function Collect(before: Parts, p: Payload): Parts
  {
    match p
    case ImportSection(_, imports) => before.(imports := Some(imports))
    case FunctionSection(_, count) => before.(localFuncs := count)
    case GlobalSection(_, globals) => before.(globals := before.globals + GlobalValues(globals))
    case ExportSection(_, exports) => before.(exports := Some(exports))
    case CodeSectionStart(range) => before.(codeStart := range.0)
    case CodeSectionEntry(range) => before.(codeRanges := before.codeRanges + [CodeRange(range, before.codeStart)])
    case CustomSection(_, name, names, linking) =>
      if name == "name" then before.(names := Some(names))
      else if name == "linking" && linking.Ok? then before.(linking := LastSymbolTable(before.linking, linking.value))
      else before
    case _ => before
  }

  function CollectAll(payloads: seq<Result<Payload>>): Parts
  {
    if payloads == [] then NO_PARTS
    else
      var front, last := CollectAll(payloads[..|payloads| - 1]), payloads[|payloads| - 1];
      if last.Ok? then Collect(front, last.value) else front
  }

  datatype SectionHeader = SectionHeader(id: SectionId, range: Range, name: string)

  /** The section that a payload adds. */
  function HeaderOf(p: Payload): seq<SectionHeader>
  {
    match p
    case Version(_) | CodeSectionEntry(_) | OtherPayload => []
    case TypeSection(range) => [SectionHeader(TYPE, range, "")]
    case ImportSection(range, _) => [SectionHeader(IMPORT, range, "")]
    case FunctionSection(range, _) => [SectionHeader(FUNCTION, range, "")]
    case TableSection(range) => [SectionHeader(TABLE, range, "")]
    case MemorySection(range, _) => [SectionHeader(MEMORY, range, "")]
    case GlobalSection(range, _) => [SectionHeader(GLOBAL, range, "")]
    case ExportSection(range, _) => [SectionHeader(EXPORT, range, "")]
    case StartSection(range) => [SectionHeader(START, range, "")]
    case ElementSection(range) => [SectionHeader(ELEMENT, range, "")]
    case CodeSectionStart(range) => [SectionHeader(CODE, range, "")]
    case DataSection(range) => [SectionHeader(DATA, range, "")]
    case DataCountSection(range) => [SectionHeader(DATA_COUNT, range, "")]
    case TagSection(range) => [SectionHeader(TAG, range, "")]
    case CustomSection(range, name, _, _) => [SectionHeader(CUSTOM, range, name)]
  }

  function Headers(payloads: seq<Result<Payload>>): seq<SectionHeader>
  {
    if payloads == [] then []
    else
      var last := payloads[|payloads| - 1];
      Headers(payloads[..|payloads| - 1]) + if last.Ok? then HeaderOf(last.value) else []
  }

  /** The last section with an identifier, by a search from the end. */
  function LastWithId(sections: seq<SectionHeader>, id: nat): Option<SectionHeader>
  {
    if sections == [] then None
    else if sections[|sections| - 1].id == id then Some(sections[|sections| - 1])
    else LastWithId(sections[..|sections| - 1], id)
  }

  lemma {:induction false} LastWithIdAt(sections: seq<SectionHeader>, id: nat, k: nat)
    requires k < |sections| && sections[k].id == id
    requires forall j :: k < j < |sections| ==> sections[j].id != id
    ensures LastWithId(sections, id) == Some(sections[k])
    decreases |sections|
  {
    if k < |sections| - 1 {
      LastWithIdAt(sections[..|sections| - 1], id, k);
    }
  }

  lemma {:induction false} LastWithIdNone(sections: seq<SectionHeader>, id: nat)
    requires forall j :: 0 <= j < |sections| ==> sections[j].id != id
    ensures LastWithId(sections, id) == None
  {
    if sections != [] {
      LastWithIdNone(sections[..|sections| - 1], id);
    }
  }

  // ---------------------------------------------------------------------------------------------
  // Exports, names and the linking section.

  /** What the symbol stages know about functions and globals. */
  datatype Context = Context(
    funcNames: seq<string>, globalNames: seq<string>, localFuncs: nat,
    codeRanges: seq<(nat, nat)>, globals: seq<Option<nat>>)

  function BodyOf(c: Context, index: nat): (nat, nat)
  {
    if index >= |c.funcNames| && index - |c.funcNames| < |c.codeRanges|
    then c.codeRanges[index - |c.funcNames|]
    else (0, 0)
  }

  function ExportAddress(e: Export, c: Context): (nat, nat)
  {
    match e.kind
    case GlobalExport => (ConstantAt(e.index, c), 0)
    case FuncExport => BodyOf(c, e.index)
    case _ => (0, 0)
  }

  /** The constant of a global, in the index space that counts imported globals first. */
  function OwnConstant(index: nat, c: Context): nat
  {
    if index < |c.globalNames| then 0 else ConstantAt(index - |c.globalNames|, c)
  }

  /** The constant of a defined global, and zero where there is none. */
  function ConstantAt(i: nat, c: Context): nat
  {
    if i < |c.globals| && c.globals[i].Some? then c.globals[i].value else 0
  }

  /** Every exported global has the address that is its own constant. */
  ghost predicate GlobalsAtTheirAddress(c: Context)
  {
    forall e: Export :: e.kind.GlobalExport? ==> ExportAddress(e, c).0 == OwnConstant(e.index, c)
  }

  /**
   Exported globals have the addresses that are their own constants if and only if no global is
   imported, or there is no constant other than zero.
   */
  lemma ExportedGlobalAddress(c: Context)
    ensures GlobalsAtTheirAddress(c) <==> c.globalNames == [] || forall i: nat :: ConstantAt(i, c) == 0
  {
    if c.globalNames != [] && GlobalsAtTheirAddress(c) {
      forall i: nat
        ensures ConstantAt(i, c) == 0
      {
        NoConstant(c, i);
      }
    }
  }

  lemma {:induction false} NoConstant(c: Context, i: nat)
    requires c.globalNames != [] && GlobalsAtTheirAddress(c)
    ensures ConstantAt(i, c) == 0
  {
    var e := Export("", GlobalExport, i);
    assert ExportAddress(e, c).0 == OwnConstant(i, c);
    if i >= |c.globalNames| {
      NoConstant(c, i - |c.globalNames|);
    }
  }

  /** With an imported global, it can have the address that is the constant of another. */
  lemma ImportedGlobalShifts(c: Context)
    requires c.globalNames != []
    ensures var c' := c.(globals := [Some(0x100), None]);
      var e := Export("g", GlobalExport, 0);
      ExportAddress(e, c') == (0x100, 0) && OwnConstant(0, c') == 0 && OwnConstant(|c.globalNames|, c') == 0x100
  {
  }

  function ExportSymbol(e: Export, c: Context): Symbol
  {
    var r := ExportAddress(e, c);
    if e.kind.FuncExport? then Symbol(e.name, r.0, r.1, Text, InSection(CODE), Dynamic, false)
    else Symbol(e.name, r.0, r.1, Data, InSection(DATA), Dynamic, false)
  }

  /** Tags get no symbol. */
  function ExportSymbols(exports: seq<Export>, c: Context): seq<Symbol>
  {
    if exports == [] then []
    else
      var last := exports[|exports| - 1];
      ExportSymbols(exports[..|exports| - 1], c) + if last.kind.TagExport? then [] else [ExportSymbol(last, c)]
  }

  /** An exported function that is not imported must be a local function. */
  predicate ExportInRange(e: Export, c: Context)
  {
    e.kind.FuncExport? && e.index >= |c.funcNames| ==> e.index - |c.funcNames| < c.localFuncs
  }

  /** Whether some export is the local function `l`. */
  ghost predicate IsExported(exports: seq<Export>, c: Context, l: nat)
  {
    exists k :: 0 <= k < |exports| && exports[k].kind.FuncExport? && exports[k].index == |c.funcNames| + l
  }

  datatype FunctionKind = Unknown | Exported

  /** The record of exported functions matches the exports. */
  ghost predicate Marks(kinds: seq<FunctionKind>, exports: seq<Export>, c: Context)
  {
    |kinds| == c.localFuncs && forall l :: 0 <= l < |kinds| ==> (kinds[l].Exported? <==> IsExported(exports, c, l))
  }

  /** Names are used for local functions with a body that are not exported. */
  predicate NameUsed(n: Naming, c: Context, kinds: seq<FunctionKind>)
  {
    && n.index >= |c.funcNames|
    && var l := n.index - |c.funcNames|;
      l < |kinds| && kinds[l].Unknown? && l < |c.codeRanges|
  }

  function NameSymbol(n: Naming, c: Context): Symbol
  {
    Symbol(n.name, BodyOf(c, n.index).0, BodyOf(c, n.index).1, Text, InSection(CODE), Compilation, false)
  }

  function NameSymbols(namings: seq<Naming>, c: Context, kinds: seq<FunctionKind>): seq<Symbol>
  {
    if namings == [] then []
    else
      var last := namings[|namings| - 1];
      NameSymbols(namings[..|namings| - 1], c, kinds) + if NameUsed(last, c, kinds) then [NameSymbol(last, c)] else []
  }

  /** Each symbol from the name section is that of a local function that no export mentions. */
  lemma {:induction false} NameSymbolSource(namings: seq<Naming>, c: Context, kinds: seq<FunctionKind>,
                                            exports: seq<Export>, k: nat)
    returns (m: nat)
    requires Marks(kinds, exports, c) && k < |NameSymbols(namings, c, kinds)|
    ensures m < |namings| && NameSymbols(namings, c, kinds)[k] == NameSymbol(namings[m], c)
    ensures |c.funcNames| <= namings[m].index < |c.funcNames| + c.localFuncs
    ensures forall e :: 0 <= e < |exports| && exports[e].kind.FuncExport? ==> exports[e].index != namings[m].index
  {
    hide NameSymbol;
    var front := namings[..|namings| - 1];
    if k < |NameSymbols(front, c, kinds)| {
      m := NameSymbolSource(front, c, kinds, exports, k);
    } else {
      m := |namings| - 1;
      var l := namings[m].index - |c.funcNames|;
      assert !IsExported(exports, c, l);
    }
  }

  /** Conversely, the name of every such function with a body is used. */
  lemma {:induction false} NamingKept(namings: seq<Naming>, c: Context, kinds: seq<FunctionKind>, exports: seq<Export>,
                                      m: nat)
    requires Marks(kinds, exports, c) && m < |namings|
    requires |c.funcNames| <= namings[m].index
    requires namings[m].index - |c.funcNames| < c.localFuncs && namings[m].index - |c.funcNames| < |c.codeRanges|
    requires !IsExported(exports, c, namings[m].index - |c.funcNames|)
    ensures NameSymbol(namings[m], c) in NameSymbols(namings, c, kinds)
    decreases |namings|
  {
    hide NameSymbol, IsExported;
    if m < |namings| - 1 {
      NamingKept(namings[..|namings| - 1], c, kinds, exports, m);
    }
  }

  /** All function namings, in order. */
  function Namings(names: seq<Result<NameMap>>): seq<Naming>
    requires NamesAccepted(names)
  {
    if names == [] then []
    else
      var last := names[|names| - 1].value;
      Namings(names[..|names| - 1]) + if last.FunctionNames? then Values(last.namings) else []
  }

  ghost predicate NamesAccepted(names: seq<Result<NameMap>>)
  {
    && AllOk(names)
    && forall i :: 0 <= i < |names| ==> (names[i].value.FunctionNames? ==> AllOk(names[i].value.namings))
  }

  function LinkKind(info: LinkInfo): Kind
  {
    if info.flags.tls then Tls
    else match info
      case LinkFunc(_, _, _) => Text
      case LinkData(_, _, _) | LinkGlobal(_, _, _) | LinkTable(_, _) => Data
      case LinkSection(_) => SectionKind
      case LinkEvent(_, _) => UnknownKind
  }

  function LinkPlace(info: LinkInfo): Place
  {
    if info.flags.undefined then Undefined
    else if info.flags.absolute then Absolute
    else if info.LinkFunc? then InSection(CODE)
    else UnknownPlace
  }

  /** Imported functions and globals without an explicit name take that of the import. */
  function LinkName(info: LinkInfo, c: Context): Option<string>
  {
    match info
    case LinkFunc(flags, index, name) =>
      if index < |c.funcNames| && !flags.explicitName then Some(c.funcNames[index]) else name
    case LinkData(_, name, _) => Some(name)
    case LinkGlobal(flags, index, name) =>
      if flags.explicitName then name
      else if index < |c.globalNames| then Some(c.globalNames[index]) else None
    case LinkSection(_) => None
    case LinkEvent(_, name) => name
    case LinkTable(_, name) => name
  }

  function LinkAddress(info: LinkInfo, c: Context): (nat, nat)
  {
    match info
    case LinkFunc(_, index, _) => BodyOf(c, index)
    case LinkData(_, _, Some(defined)) => defined
    case _ => (0, 0)
  }

  function LinkSymbol(info: LinkInfo, c: Context): Symbol
  {
    var name := match LinkName(info, c) { case Some(s) => s case None => "" };
    var scope := if info.flags.local then Compilation else if info.flags.hidden then Linkage else Dynamic;
    Symbol(name, LinkAddress(info, c).0, LinkAddress(info, c).1, LinkKind(info), LinkPlace(info), scope,
           info.flags.weak)
  }

  function LinkSymbols(infos: seq<LinkInfo>, c: Context): (r: seq<Symbol>)
    ensures |r| == |infos| && forall k :: 0 <= k < |r| ==> r[k] == LinkSymbol(infos[k], c)
  {
    if infos == [] then [] else LinkSymbols(infos[..|infos| - 1], c) + [LinkSymbol(infos[|infos| - 1], c)]
  }

  /** An unnamed reference to an imported function has the name of that import: the one that the index counts to. */
  lemma {:induction false} ImportedNamesAt(imports: seq<Import>, ty: TypeRef, k: nat) returns (i: nat)
    requires k < |ImportedNames(imports, ty)|
    ensures i < |imports| && imports[i].ty == ty && imports[i].name == ImportedNames(imports, ty)[k]
    ensures |ImportedNames(imports[..i], ty)| == k
  {
    var front := imports[..|imports| - 1];
    if k < |ImportedNames(front, ty)| {
      i := ImportedNamesAt(front, ty, k);
      assert front[..i] == imports[..i];
    } else {
      i := |imports| - 1;
    }
  }

  /**
   A symbol table entry for function `index`: an imported function has the name of its import, unless
   the entry has its own, and no address; a defined one has the range of its body, if there is one.
   */
  lemma LinkedFunction(info: LinkInfo, imports: seq<Import>, c: Context) returns (i: nat)
    requires info.LinkFunc? && c.funcNames == ImportedNames(imports, FuncType)
    ensures var s, n := LinkSymbol(info, c), |c.funcNames|;
      && (s.kind.Tls? <==> info.flags.tls) && (s.kind.Text? <==> !info.flags.tls)
      && (s.section.Undefined? <==> info.flags.undefined)
      && (s.section == InSection(CODE) <==> !info.flags.undefined && !info.flags.absolute)
      && if info.index < n then
           && i < |imports| && imports[i].ty == FuncType && |ImportedNames(imports[..i], FuncType)| == info.index
           && (!info.flags.explicitName ==> s.name == imports[i].name) && (s.address, s.size) == (0, 0)
         else
           (s.address, s.size) ==
             if info.index - n < |c.codeRanges| then c.codeRanges[info.index - n] else (0, 0)
  {
    i := 0;
    if info.index < |c.funcNames| {
      i := ImportedNamesAt(imports, FuncType, info.index);
    }
  }

  /** No symbol table entry becomes a file symbol: with a symbol table, no symbol belongs to any file. */
  lemma {:induction false} LinkedAttributed(infos: seq<LinkInfo>, c: Context)
    ensures Attributed(LinkSymbols(infos, c)) == AllOf(None, LinkSymbols(infos, c))
    ensures CountMain(LinkSymbols(infos, c)) == 0
  {
    hide Attributed, LastFile, CountMain, LinkName, LinkAddress, LinkPlace;
    var s := LinkSymbols(infos, c);
    NoSymbols();
    forall k | 0 <= k < |s|
      ensures !s[k].kind.File?
    {
      assert s[k] == LinkSymbol(infos[k], c);
    }
    AttributedAppend([], s);
    assert [] + s == s;
  }

  // ---------------------------------------------------------------------------------------------
  // The whole file.

  ghost predicate ExportsAccepted(exports: seq<Result<Export>>, c: Context)
  {
    AllOk(exports) && forall i :: 0 <= i < |exports| ==> ExportInRange(exports[i].value, c)
  }

  function ContextOf(p: Parts): Context
    requires p.imports.Some? ==> AllOk(p.imports.value)
  {
    var imports := if p.imports.Some? then Values(p.imports.value) else [];
    Context(ImportedNames(imports, FuncType), ImportedNames(imports, GlobalType), p.localFuncs, p.codeRanges, p.globals)
  }

  /** A symbol table in the linking section replaces exports and names, so their errors go unseen. */
  ghost predicate PartsAccepted(p: Parts)
  {
    && (p.imports.Some? ==> AllOk(p.imports.value))
    && if p.linking.Some? then AllOk(p.linking.value)
       else (p.exports.Some? ==> ExportsAccepted(p.exports.value, ContextOf(p))) &&
            (p.names.Some? ==> NamesAccepted(p.names.value))
  }

  /** What the four symbol stages leave, given which functions the exports mention. */
  ghost predicate SymbolsOf(p: Parts, kinds: seq<FunctionKind>, symbols: seq<Symbol>)
    requires PartsAccepted(p)
  {
    var c := ContextOf(p);
    var imports := if p.imports.Some? then Values(p.imports.value) else [];
    if p.linking.Some? then symbols == LinkSymbols(Values(p.linking.value), c)
    else
      var exports := if p.exports.Some? then Values(p.exports.value) else [];
      var namings := if p.names.Some? then Namings(p.names.value) else [];
      Marks(kinds, exports, c) &&
      symbols == ImportSymbols(imports) + (if p.exports.Some? || p.names.Some? then [MAIN_FILE] else []) +
                 ExportSymbols(exports, c) + NameSymbols(namings, c, kinds)
  }

  lemma {:induction false} ExportsAreNotFiles(exports: seq<Export>, c: Context)
    ensures forall i :: 0 <= i < |ExportSymbols(exports, c)| ==> !ExportSymbols(exports, c)[i].kind.File?
  {
    hide ExportAddress;
    if exports != [] {
      ExportsAreNotFiles(exports[..|exports| - 1], c);
    }
  }

  lemma {:induction false} NamesAreNotFiles(namings: seq<Naming>, c: Context, kinds: seq<FunctionKind>)
    ensures forall i :: 0 <= i < |NameSymbols(namings, c, kinds)| ==> !NameSymbols(namings, c, kinds)[i].kind.File?
  {
    hide NameUsed;
    if namings != [] {
      NamesAreNotFiles(namings[..|namings| - 1], c, kinds);
    }
  }

  /**
   Without a linking symbol table, a reader of the symbol list attributes every import to its own
   module, and every export and name to the main file, whose symbol occurs once if there are exports
   or names and not otherwise.
   */
  lemma SymbolsAttributed(p: Parts, kinds: seq<FunctionKind>, symbols: seq<Symbol>)
    requires PartsAccepted(p) && p.linking.None? && SymbolsOf(p, kinds, symbols)
    ensures var c := ContextOf(p);
      var imports := if p.imports.Some? then Values(p.imports.value) else [];
      var exports := if p.exports.Some? then Values(p.exports.value) else [];
      var namings := if p.names.Some? then Namings(p.names.value) else [];
      Attributed(symbols) ==
        seq(|imports|, i requires 0 <= i < |imports| => (Some(imports[i].module_), ImportSymbol(imports[i]))) +
        AllOf(Some(""), ExportSymbols(exports, c) + NameSymbols(namings, c, kinds))
    ensures CountMain(symbols) == if p.exports.Some? || p.names.Some? then 1 else 0
  {
    hide Attributed, LastFile, CountMain, ImportSymbols, ExportSymbols, NameSymbols, ContextOf, Marks, ImportSymbol,
         NamesAccepted, Namings, Values, AllOk, AllOf;
    var imports := if p.imports.Some? then Values(p.imports.value) else [];
    var exports := if p.exports.Some? then Values(p.exports.value) else [];
    var namings := if p.names.Some? then Namings(p.names.value) else [];
    StagesAttributed(imports, exports, namings, ContextOf(p), kinds, p.exports.Some? || p.names.Some?);
  }

  lemma StagesAttributed(imports: seq<Import>, exports: seq<Export>, namings: seq<Naming>, c: Context,
                         kinds: seq<FunctionKind>, main: bool)
    requires !main ==> exports == [] && namings == []
    ensures var symbols := ImportSymbols(imports) + (if main then [MAIN_FILE] else []) +
                           ExportSymbols(exports, c) + NameSymbols(namings, c, kinds);
      Attributed(symbols) ==
        seq(|imports|, i requires 0 <= i < |imports| => (Some(imports[i].module_), ImportSymbol(imports[i]))) +
        AllOf(Some(""), ExportSymbols(exports, c) + NameSymbols(namings, c, kinds)) &&
      CountMain(symbols) == if main then 1 else 0
  {
    hide *;
    var s, x, n := ImportSymbols(imports), ExportSymbols(exports, c), NameSymbols(namings, c, kinds);
    ImportsAttributed(imports);
    ExportsAreNotFiles(exports, c);
    NamesAreNotFiles(namings, c, kinds);
    if main {
      MainAttributed(s, x, n);
    } else {
      NoExports(c);
      NoNames(c, kinds);
      NothingAttributed(s);
    }
  }

  /** Symbols after the main file symbol belong to it. */
  lemma MainAttributed(s: seq<Symbol>, x: seq<Symbol>, n: seq<Symbol>)
    requires forall i :: 0 <= i < |x| ==> !x[i].kind.File?
    requires forall i :: 0 <= i < |n| ==> !n[i].kind.File?
    ensures Attributed(s + [MAIN_FILE] + x + n) == Attributed(s) + AllOf(Some(""), x + n)
    ensures CountMain(s + [MAIN_FILE] + x + n) == CountMain(s) + 1
  {
    hide Attributed, LastFile, CountMain, AllOf;
    AttributedSnoc(s, MAIN_FILE);
    CountMainSnoc(s, MAIN_FILE);
    AppendTwo(s + [MAIN_FILE], x, n);
  }

  lemma AppendTwo(s: seq<Symbol>, x: seq<Symbol>, n: seq<Symbol>)
    requires forall i :: 0 <= i < |x| ==> !x[i].kind.File?
    requires forall i :: 0 <= i < |n| ==> !n[i].kind.File?
    ensures Attributed(s + x + n) == Attributed(s) + AllOf(LastFile(s), x + n)
    ensures CountMain(s + x + n) == CountMain(s)
  {
    hide *;
    Regroup(s, x, n);
    NoFiles(x, n);
    AttributedAppend(s, x + n);
  }

  lemma NoFiles(x: seq<Symbol>, n: seq<Symbol>)
    requires forall i :: 0 <= i < |x| ==> !x[i].kind.File?
    requires forall i :: 0 <= i < |n| ==> !n[i].kind.File?
    ensures forall i :: 0 <= i < |x + n| ==> !(x + n)[i].kind.File?
  {
  }

  lemma NothingAttributed(s: seq<Symbol>)
    ensures s + [] + [] + [] == s
    ensures Attributed(s) + AllOf(Some(""), [] + []) == Attributed(s)
  {
    hide Attributed;
  }

  class WasmFile {
    var sections: seq<SectionHeader>
    const idSections: array<Option<nat>>
    var symbols: seq<Symbol>

    /** Each identifier refers to the last section that has it. */
    ghost predicate Valid()
      reads `sections, idSections
    {
      idSections.Length == 14 && forall id: SectionId :: RefersToLast(id, idSections[id])
    }

    ghost predicate RefersToLast(id: SectionId, r: Option<nat>)
      reads `sections
    {
      match r
      case None => forall k :: 0 <= k < |sections| ==> sections[k].id != id
      case Some(k) => k < |sections| && sections[k].id == id && forall j :: k < j < |sections| ==> sections[j].id != id
    }

    constructor ()
      ensures Valid() && fresh(idSections) && sections == [] && symbols == []
    {
      idSections := new Option<nat>[14](_ => None);
      sections, symbols := [], [];
    }

    method AddSection(id: SectionId, range: Range, name: string)
      requires Valid()
      modifies this`sections, idSections
      ensures Valid()
      ensures sections == old(sections) + [SectionHeader(id, range, name)]
    {
      idSections[id] := Some(|sections|);
      sections := sections + [SectionHeader(id, range, name)];
    }

    /** `section_by_index`: the last section with an identifier, and an error if there is none. */
    method SectionByIndex(index: nat) returns (r: Result<SectionHeader>)
      requires Valid()
      ensures r == match LastWithId(sections, index) { case None => Err case Some(h) => Ok(h) }
    {
      if index >= idSections.Length || idSections[index].None? {
        assert index < 14 ==> RefersToLast(index, idSections[index]);
        LastWithIdNone(sections, index);
        return Err;
      }
      var k := idSections[index].value;
      assert RefersToLast(index, idSections[index]);
      LastWithIdAt(sections, index, k);
      return Ok(sections[k]);
    }
  
    /** One payload: its section, and what it contributes to the later stages. */
    method ReadPayload(p: Payload, before: Parts) returns (ok: bool, parts: Parts)
      requires Valid()
      modifies this`sections, idSections
      ensures Valid()
      ensures ok <==> Accepted(p)
      ensures ok ==> sections == old(sections) + HeaderOf(p) && parts == Collect(before, p)
    {
      hide Valid;
      parts, ok := before, true;
      match p {
        case Version(isModule) => ok := isModule;
        case TypeSection(range) => AddSection(TYPE, range, "");
        case ImportSection(range, imports) =>
          AddSection(IMPORT, range, "");
          parts := parts.(imports := Some(imports));
        case FunctionSection(range, count) =>
          AddSection(FUNCTION, range, "");
          parts := parts.(localFuncs := count);
        case TableSection(range) => AddSection(TABLE, range, "");
        case MemorySection(range, memories) =>
          AddSection(MEMORY, range, "");
          ok := AllRead(memories);
        case GlobalSection(range, globals) =>
          AddSection(GLOBAL, range, "");
          var values;
          ok, values := ReadGlobals(globals);
          parts := parts.(globals := parts.globals + values);
        case ExportSection(range, exports) =>
          AddSection(EXPORT, range, "");
          parts := parts.(exports := Some(exports));
        case StartSection(range) => AddSection(START, range, "");
        case ElementSection(range) => AddSection(ELEMENT, range, "");
        case CodeSectionStart(range) =>
          parts := parts.(codeStart := range.0);
          AddSection(CODE, range, "");
        case CodeSectionEntry(range) =>
          parts := parts.(codeRanges := parts.codeRanges + [CodeRange(range, parts.codeStart)]);
        case DataSection(range) => AddSection(DATA, range, "");
        case DataCountSection(range) => AddSection(DATA_COUNT, range, "");
        case TagSection(range) => AddSection(TAG, range, "");
        case CustomSection(range, name, names, linking) =>
          AddSection(CUSTOM, range, name);
          if name == "name" {
            parts := parts.(names := Some(names));
          } else if name == "linking" {
            if linking.Err? {
              return false, parts;
            }
            var table;
            ok, table := ReadLinking(linking.value, parts.linking);
            parts := parts.(linking := table);
          }
        case OtherPayload =>
      }
    }

    /** The payload loop. */
    method ReadPayloads(payloads: seq<Result<Payload>>) returns (ok: bool, parts: Parts)
      requires Valid() && sections == []
      modifies this`sections, idSections
      ensures Valid()
      ensures ok <==> AllOk(payloads) && forall i :: 0 <= i < |payloads| ==> Accepted(payloads[i].value)
      ensures ok ==> sections == Headers(payloads) && parts == CollectAll(payloads)
    {
      hide Valid, Accepted, HeaderOf, Collect;
      parts := NO_PARTS;
      for i := 0 to |payloads|
        invariant Valid()
        invariant forall j :: 0 <= j < i ==> payloads[j].Ok? && Accepted(payloads[j].value)
        invariant sections == Headers(payloads[..i]) && parts == CollectAll(payloads[..i])
      {
        if payloads[i].Err? {
          return false, parts;
        }
        assert payloads[..i + 1][..i] == payloads[..i];
        var accepted;
        accepted, parts := ReadPayload(payloads[i].value, parts);
        if !accepted {
          return false, parts;
        }
      }
      assert payloads[..|payloads|] == payloads;
      ok := true;
    }

    /** The import stage: symbols are added only when there is no linking symbol table. */
    method AddImports(imports: seq<Result<Import>>, linked: bool)
      returns (ok: bool, funcs: seq<string>, globals: seq<string>)
      requires symbols == []
      modifies this`symbols
      ensures ok <==> AllOk(imports)
      ensures ok ==> symbols == if linked then [] else ImportSymbols(Values(imports))
      ensures ok ==>
        funcs == ImportedNames(Values(imports), FuncType) && globals == ImportedNames(Values(imports), GlobalType)
    {
      hide ImportSymbol, ModuleSymbol, ImportSymbols, ImportedNames;
      NoImports();
      assert Values(imports[..0]) == [];
      funcs, globals := [], [];
      var lastModule: Option<string> := None;
      for i := 0 to |imports|
        invariant AllOk(imports[..i])
        invariant symbols == if linked then [] else ImportSymbols(Values(imports[..i]))
        invariant funcs == ImportedNames(Values(imports[..i]), FuncType)
        invariant globals == ImportedNames(Values(imports[..i]), GlobalType)
        invariant !linked ==> lastModule == if i == 0 then None else Some(imports[i - 1].value.module_)
      {
        if imports[i].Err? {
          return false, funcs, globals;
        }
        var import_ := imports[i].value;
        ImportsStep(imports, i);
        if import_.ty == FuncType {
          funcs := funcs + [import_.name];
        } else if import_.ty == GlobalType {
          globals := globals + [import_.name];
        }
        if linked {
          continue;
        }
        if lastModule != Some(import_.module_) {
          symbols := symbols + [ModuleSymbol(import_.module_)];
          lastModule := Some(import_.module_);
        }
        symbols := symbols + [ImportSymbol(import_)];
      }
      assert imports[..|imports|] == imports;
      ok := true;
    }

    /** The linking stage: one symbol for each entry of the symbol table. */
    method AddLinking(infos: seq<Result<LinkInfo>>, c: Context) returns (ok: bool)
      modifies this`symbols
      ensures ok <==> AllOk(infos)
      ensures ok ==> symbols == old(symbols) + LinkSymbols(Values(infos), c)
    {
      hide LinkSymbol;
      for i := 0 to |infos|
        invariant AllOk(infos[..i])
        invariant symbols == old(symbols) + LinkSymbols(Values(infos[..i]), c)
      {
        if infos[i].Err? {
          return false;
        }
        ValuesSnoc(infos, i);
        symbols := symbols + [LinkSymbol(infos[i].value, c)];
      }
      assert infos[..|infos|] == infos;
      ok := true;
    }

    /** The export stage: marks local functions as exported, and adds symbols for all but tags. */
    method AddExports(exports: seq<Result<Export>>, c: Context, kinds: seq<FunctionKind>)
      returns (ok: bool, kinds': seq<FunctionKind>)
      requires Marks(kinds, [], c)
      modifies this`symbols
      ensures ok <==> ExportsAccepted(exports, c)
      ensures ok ==> symbols == old(symbols) + ExportSymbols(Values(exports), c) && Marks(kinds', Values(exports), c)
    {
      hide ExportSymbol, Marks;
      kinds' := kinds;
      for i := 0 to |exports|
        invariant AllOk(exports[..i])
        invariant forall j :: 0 <= j < i ==> ExportInRange(exports[j].value, c)
        invariant Marks(kinds', Values(exports[..i]), c)
        invariant symbols == old(symbols) + ExportSymbols(Values(exports[..i]), c)
      {
        if exports[i].Err? {
          return false, kinds';
        }
        var export_ := exports[i].value;
        ValuesSnoc(exports, i);
        MarksStep(kinds', Values(exports[..i]), c, export_);
        if export_.kind.FuncExport? && export_.index >= |c.funcNames| {
          var l := export_.index - |c.funcNames|;
          if l >= |kinds'| {
            return false, kinds';
          }
          kinds' := kinds'[l := Exported];
        }
        if export_.kind.TagExport? {
          continue;
        }
        symbols := symbols + [ExportSymbol(export_, c)];
      }
      assert exports[..|exports|] == exports;
      ok := true;
    }

    /** The names of one map. */
    method AddNamings(namings: seq<Result<Naming>>, c: Context, kinds: seq<FunctionKind>) returns (ok: bool)
      modifies this`symbols
      ensures ok <==> AllOk(namings)
      ensures ok ==> symbols == old(symbols) + NameSymbols(Values(namings), c, kinds)
    {
      hide NameSymbol;
      for i := 0 to |namings|
        invariant AllOk(namings[..i])
        invariant symbols == old(symbols) + NameSymbols(Values(namings[..i]), c, kinds)
      {
        if namings[i].Err? {
          return false;
        }
        ValuesSnoc(namings, i);
        var naming := namings[i].value;
        if naming.index < |c.funcNames| {
          continue;
        }
        var l := naming.index - |c.funcNames|;
        if l >= |kinds| || kinds[l].Exported? {
          continue;
        }
        if l >= |c.codeRanges| {
          continue;
        }
        symbols := symbols + [NameSymbol(naming, c)];
      }
      assert namings[..|namings|] == namings;
      ok := true;
    }

    /** The name stage. */
    method AddNames(names: seq<Result<NameMap>>, c: Context, kinds: seq<FunctionKind>) returns (ok: bool)
      modifies this`symbols
      ensures ok <==> NamesAccepted(names)
      ensures ok ==> symbols == old(symbols) + NameSymbols(Namings(names), c, kinds)
    {
      hide NameUsed, NameSymbol, NameSymbols;
      NoNames(c, kinds);
      for i := 0 to |names|
        invariant NamesAccepted(names[..i])
        invariant symbols == old(symbols) + NameSymbols(Namings(names[..i]), c, kinds)
      {
        if names[i].Err? {
          return false;
        }
        NamingsSnoc(names, i);
        if names[i].value.FunctionNames? {
          var namings := names[i].value.namings;
          var read := AddNamings(namings, c, kinds);
          if !read {
            return false;
          }
          NameSymbolsConcat(Namings(names[..i]), Values(namings), c, kinds);
        }
      }
      assert names[..|names|] == names;
      ok := true;
    }
  }

  method AllRead(items: seq<Result<bool>>) returns (ok: bool)
    ensures ok <==> AllOk(items)
  {
    for i := 0 to |items|
      invariant AllOk(items[..i])
    {
      if items[i].Err? {
        return false;
      }
    }
    ok := true;
  }

  method ReadGlobals(globals: seq<Result<Global>>) returns (ok: bool, values: seq<Option<nat>>)
    ensures ok <==> forall i :: 0 <= i < |globals| ==> GlobalAccepted(globals[i])
    ensures ok ==> values == GlobalValues(globals)
  {
    values := [];
    for i := 0 to |globals|
      invariant forall j :: 0 <= j < i ==> GlobalAccepted(globals[j])
      invariant |values| == i && forall j :: 0 <= j < i ==> values[j] == GlobalValue(globals[j].value)
    {
      if globals[i].Err? {
        return false, values;
      }
      if !globals[i].value.mutable && globals[i].value.init.Err? {
        return false, values;
      }
      values := values + [GlobalValue(globals[i].value)];
    }
    ok := true;
  }

  method ReadLinking(subsections: seq<Result<Linking>>, before: Option<seq<Result<LinkInfo>>>)
    returns (ok: bool, table: Option<seq<Result<LinkInfo>>>)
    ensures ok <==> AllOk(subsections)
    ensures ok ==> table == LastSymbolTable(before, subsections)
  {
    table := before;
    for i := 0 to |subsections|
      invariant AllOk(subsections[..i])
      invariant table == LastSymbolTable(before, subsections[..i])
    {
      if subsections[i].Err? {
        return false, table;
      }
      assert subsections[..i + 1][..i] == subsections[..i];
      if subsections[i].value.SymbolTable? {
        table := Some(subsections[i].value.symbols);
      }
    }
    assert subsections[..|subsections|] == subsections;
    ok := true;
  }

  lemma ValuesSnoc<T>(s: seq<Result<T>>, i: nat)
    requires i < |s| && AllOk(s[..i]) && s[i].Ok?
    ensures AllOk(s[..i + 1]) && Values(s[..i + 1]) == Values(s[..i]) + [s[i].value]
    ensures Values(s[..i + 1])[..i] == Values(s[..i])
  {
  }

  lemma ImportsStep(imports: seq<Result<Import>>, i: nat)
    requires i < |imports| && AllOk(imports[..i]) && imports[i].Ok?
    ensures AllOk(imports[..i + 1])
    ensures var before, now, x := Values(imports[..i]), Values(imports[..i + 1]), imports[i].value;
      && ImportSymbols(now) ==
        ImportSymbols(before) +
        (if i > 0 && imports[i - 1].value.module_ == x.module_ then [] else [ModuleSymbol(x.module_)]) +
        [ImportSymbol(x)]
      && ImportedNames(now, FuncType) == ImportedNames(before, FuncType) + (if x.ty == FuncType then [x.name] else [])
      && ImportedNames(now, GlobalType) ==
        ImportedNames(before, GlobalType) + (if x.ty == GlobalType then [x.name] else [])
  {
    hide ImportSymbol, ModuleSymbol;
    ValuesSnoc(imports, i);
  }

  lemma MarksStep(kinds: seq<FunctionKind>, exports: seq<Export>, c: Context, e: Export)
    requires Marks(kinds, exports, c)
    ensures |kinds| == c.localFuncs
    ensures var l := e.index - |c.funcNames|;
      if e.kind.FuncExport? && l >= 0
      then l < |kinds| ==> Marks(kinds[l := Exported], exports + [e], c)
      else Marks(kinds, exports + [e], c)
  {
    forall l | 0 <= l < |kinds|
      ensures IsExported(exports + [e], c, l) <==>
              IsExported(exports, c, l) || (e.kind.FuncExport? && e.index == |c.funcNames| + l)
    {
      if IsExported(exports, c, l) {
        var k :| 0 <= k < |exports| && exports[k].kind.FuncExport? && exports[k].index == |c.funcNames| + l;
        assert (exports + [e])[k] == exports[k];
      }
      assert (exports + [e])[|exports|] == e;
    }
  }

  lemma NoNames(c: Context, kinds: seq<FunctionKind>)
    ensures NameSymbols([], c, kinds) == []
  {
  }

  lemma {:induction false} NameSymbolsConcat(a: seq<Naming>, b: seq<Naming>, c: Context, kinds: seq<FunctionKind>)
    ensures NameSymbols(a + b, c, kinds) == NameSymbols(a, c, kinds) + NameSymbols(b, c, kinds)
  {
    hide NameUsed, NameSymbol;
    if b == [] {
      assert a + b == a;
    } else {
      NameSymbolsConcat(a, b[..|b| - 1], c, kinds);
      assert (a + b)[..|a + b| - 1] == a + b[..|b| - 1];
    }
  }

  lemma NamingsSnoc(names: seq<Result<NameMap>>, i: nat)
    requires i < |names| && NamesAccepted(names[..i]) && names[i].Ok?
    ensures names[i].value.OtherNames? ==>
      NamesAccepted(names[..i + 1]) && Namings(names[..i + 1]) == Namings(names[..i])
    ensures names[i].value.FunctionNames? && AllOk(names[i].value.namings) ==>
              NamesAccepted(names[..i + 1]) &&
              Namings(names[..i + 1]) == Namings(names[..i]) + Values(names[i].value.namings)
  {
    assert names[..i + 1][..i] == names[..i];
  }

  ghost predicate FileAccepted(payloads: seq<Result<Payload>>)
  {
    && AllOk(payloads) && (forall i :: 0 <= i < |payloads| ==> Accepted(payloads[i].value))
    && PartsAccepted(CollectAll(payloads))
  }

  lemma NoMarks(c: Context, kinds: seq<FunctionKind>)
    requires |kinds| == c.localFuncs && forall l :: 0 <= l < |kinds| ==> kinds[l].Unknown?
    ensures Marks(kinds, [], c)
  {
  }

  /** `WasmFile::parse` */
  method Parse(payloads: seq<Result<Payload>>) returns (ok: bool, file: WasmFile)
    ensures ok <==> FileAccepted(payloads)
    ensures ok ==> fresh(file) && fresh(file.idSections) && file.Valid() && file.sections == Headers(payloads)
    ensures ok ==> exists kinds :: SymbolsOf(CollectAll(payloads), kinds, file.symbols)
  {
    hide Accepted, Marks, ImportSymbols, ExportSymbols, NameSymbols, LinkSymbols, ImportedNames, CollectAll, Headers,
         WasmFile.Valid, Values, AllOk, Namings, NamesAccepted, ExportsAccepted;
    file := new WasmFile();
    var read, p := file.ReadPayloads(payloads);
    if !read {
      return false, file;
    }
    var funcs: seq<string>, globals: seq<string> := [], [];
    NoImports();
    if p.imports.Some? {
      read, funcs, globals := file.AddImports(p.imports.value, p.linking.Some?);
      if !read {
        return false, file;
      }
    }
    var c := Context(funcs, globals, p.localFuncs, p.codeRanges, p.globals);
    assert c == ContextOf(p);
    var kinds := seq(p.localFuncs, _ => Unknown);
    NoMarks(c, kinds);
    NoExports(c);
    if p.linking.Some? {
      read := file.AddLinking(p.linking.value, c);
      if !read {
        return false, file;
      }
      assert SymbolsOf(p, kinds, file.symbols);
      return true, file;
    }
    if p.exports.Some? || p.names.Some? {
      file.symbols := file.symbols + [MAIN_FILE];
    }
    if p.exports.Some? {
      read, kinds := file.AddExports(p.exports.value, c, kinds);
      if !read {
        return false, file;
      }
    }
    NoNames(c, kinds);
    if p.names.Some? {
      read := file.AddNames(p.names.value, c, kinds);
      if !read {
        return false, file;
      }
    }
    assert SymbolsOf(p, kinds, file.symbols);
    ok := true;
  }

  lemma NoImports()
    ensures ImportSymbols([]) == [] && ImportedNames([], FuncType) == [] && ImportedNames([], GlobalType) == []
  {
  }

  lemma NoExports(c: Context)
    ensures ExportSymbols([], c) == []
  {
  }
}
