/** What adding a thread-local variable changes, and what it leaves alone. */
module MachOThreadVars {
  import opened Prelude
  import opened MachO
  import opened MachOLayout
  import opened MachOBuilder
  import Bits

  /**
   A thread-local variable: its symbol only moves to a new place in the thread variable section, and a
   new local symbol with a longer name, still undefined, is there for its initial value. The place is
   aligned, behind everything that was in the section, and three zeroed pointers long.
   */
  lemma VariableMoved(o: Object, prefix: seq<byte>, before: State, id: nat)
    requires Usable(o, before, id) && before.symbols[id].kind.TlsSymbol?
    ensures var after, n, p := WithThreadVar(o, prefix, before, id), |before.symbols|, o.AddressBytes();
      var v := if before.threadVars.Some? then before.threadVars.value else |before.sections|;
      var held := if before.threadVars.Some? then before.sections[v].data else [];
      && n < |after.symbols| && v < |after.sections| && after.threadVars == Some(v)
      && var symbol, start := after.symbols[id], after.symbols[id].value;
        && symbol == before.symbols[id].(value := start, section := InSection(v))
        && after.symbols[n].name == before.symbols[id].name + Ascii("$tlv$init")
        && after.symbols[n] ==
           Symbol(after.symbols[n].name, 0, TlsSymbol, Compilation, false, Undefined, NoSymbolFlags)
        && start % p == 0 && |held| <= start < |held| + p
        && |after.sections[v].data| == start + 3 * p == after.sections[v].size
        && after.sections[v].data[..|held|] == held
        && (forall k :: |held| <= k < start + 3 * p ==> after.sections[v].data[k] == 0)
  {
    hide Translate, Align;
    Spelled();
  }

  /** The first and the third pointer are relocated, to the bootstrap symbol and to the initial value. */
  lemma PointersRelocated(o: Object, prefix: seq<byte>, before: State, id: nat)
    requires Usable(o, before, id) && before.symbols[id].kind.TlsSymbol?
    ensures var after, n, p := WithThreadVar(o, prefix, before, id), |before.symbols|, o.AddressBytes();
      var v := if before.threadVars.Some? then before.threadVars.value else |before.sections|;
      var held := if before.threadVars.Some? then before.sections[v].relocations else [];
      && v < |after.sections| && |after.sections[v].relocations| == |held| + 2
      && after.sections[v].relocations[..|held|] == held && after.tlvBootstrap.Some?
      && var first, third := after.sections[v].relocations[|held|], after.sections[v].relocations[|held| + 1];
        && first.offset == after.symbols[id].value && third.offset == first.offset + 2 * p
        && first.symbol == after.tlvBootstrap.value && third.symbol == n
        && first.addend == third.addend == 0 && first.flags == third.flags
        && first.flags.MachORelocation? && first.flags.r_type == 0 && !first.flags.r_pcrel
        && first.flags.r_length < 4 && Bits.Pow2(first.flags.r_length) == p
  {
    hide Align, Translate, HasThreadVars, Bits.Pow2;
    PointerMeaning(o);
  }

  lemma PointerMeaning(o: Object)
    requires HasThreadVars(o)
    ensures var f := PointerFlags(o);
      && f.MachORelocation? && f.r_type == 0 && !f.r_pcrel
      && f.r_length < 4 && Bits.Pow2(f.r_length) == o.AddressBytes()
  {
    Powers();
  }

  /** Nothing else changes, but that the bootstrap symbol and the section are made if they are missing. */
  lemma NothingElse(o: Object, prefix: seq<byte>, before: State, id: nat)
    requires Usable(o, before, id) && before.symbols[id].kind.TlsSymbol?
    ensures var after, n := WithThreadVar(o, prefix, before, id), |before.symbols|;
      var v := if before.threadVars.Some? then before.threadVars.value else |before.sections|;
      && (forall i :: 0 <= i < n && i != id ==> after.symbols[i] == before.symbols[i])
      && (forall i :: 0 <= i < |before.sections| && i != v ==> after.sections[i] == before.sections[i])
      && (before.tlvBootstrap.Some? ==> after.tlvBootstrap == before.tlvBootstrap && |after.symbols| == n + 1)
      && (before.tlvBootstrap.None? ==>
           && after.tlvBootstrap == Some(n + 1) && |after.symbols| == n + 2
           && after.symbols[n + 1] ==
              Symbol(prefix + Ascii("_tlv_bootstrap"), 0, TextSymbol, Dynamic, false, Undefined, NoSymbolFlags))
      && v < |after.sections| && after.sections[v].kind.TlsVariables? == (
           before.threadVars.None? || before.sections[v].kind.TlsVariables?)
      && (before.threadVars.None? ==>
           && |after.sections| == |before.sections| + 1
           && after.sections[v].segment == Ascii("__DATA") && after.sections[v].name == Ascii("__thread_vars")
           && after.sections[v].flags.NoSectionFlags?)
      && (before.threadVars.Some? ==> |after.sections| == |before.sections|)
  {
    hide Translate, Align;
    Spelled();
  }

  lemma Spelled()
    ensures TLV_INIT == Ascii("$tlv$init") && TLV_BOOTSTRAP == Ascii("_tlv_bootstrap")
    ensures DATA_SEGMENT == Ascii("__DATA") && THREAD_VARS == Ascii("__thread_vars")
  {
  }

  lemma Powers()
    ensures Bits.Pow2(0) == 1 && Bits.Pow2(1) == 2 && Bits.Pow2(2) == 4 && Bits.Pow2(3) == 8
  {
  }
}
