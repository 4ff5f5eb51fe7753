/** The packed relocation words of Mach-O and of MIPS64 ELF. */
module RelocCodec {

  const R_SCATTERED: bv32 := 0x8000_0000
  const CPU_TYPE_X86_64: bv32 := 0x0100_0007

  /** The two words of a Mach-O relocation, read in the byte order of the file. */
  datatype Relocation = Relocation(r_word0: bv32, r_word1: bv32)

  datatype RelocationInfo = RelocationInfo(
    r_address: bv32, r_symbolnum: bv32, r_pcrel: bool, r_length: bv8, r_extern: bool, r_type: bv8)

  datatype ScatteredRelocationInfo = ScatteredRelocationInfo(
    r_address: bv32, r_type: bv8, r_length: bv8, r_pcrel: bool, r_value: bv32)

  function Bit(b: bool): bv32
  {
    if b then 1 else 0
  }

  function PlainWord(info: RelocationInfo, little: bool): bv32
  {
    if little then
      (info.r_symbolnum & 0x00ff_ffff)
      | (Bit(info.r_pcrel) << 24)
      | (((info.r_length & 0x3) as bv32) << 25)
      | (Bit(info.r_extern) << 27)
      | ((info.r_type as bv32) << 28)
    else
      (info.r_symbolnum >> 8)
      | (Bit(info.r_pcrel) << 7)
      | (((info.r_length & 0x3) as bv32) << 5)
      | (Bit(info.r_extern) << 4)
      | ((info.r_type as bv32) & 0xf)
  }

  /** `RelocationInfo::relocation` */
  function PlainEncode(info: RelocationInfo, little: bool): Relocation
  {
    Relocation(info.r_address, PlainWord(info, little))
  }

  function Low8(w: bv32): bv8
  {
    (w & 0xff) as bv8
  }

  /** `Relocation::info` */
  function PlainDecode(r: Relocation, little: bool): RelocationInfo
  {
    var w := r.r_word1;
    if little then
      RelocationInfo(r.r_word0, w & 0x00ff_ffff, (w >> 24) & 0x1 != 0, Low8((w >> 25) & 0x3),
                     (w >> 27) & 0x1 != 0, Low8(w >> 28))
    else
      RelocationInfo(r.r_word0, w >> 8, (w >> 7) & 0x1 != 0, Low8((w >> 5) & 0x3),
                     (w >> 4) & 0x1 != 0, Low8(w & 0xf))
  }

  /** Every 32-bit number is the value of some word. */
  ghost function WordOf(x: nat): (w: bv32)
    requires x < 0x1_0000_0000
    ensures w as nat == x
  {
    if x == 0 then 0
    else
      var h := WordOf(x / 2);
      assert h as nat < 0x8000_0000;
      DoubleWord(h);
      if x % 2 == 0 then h << 1 else (h << 1) | 1
  }

  lemma DoubleWord(h: bv32)
    requires h as nat < 0x8000_0000
    ensures (h << 1) as nat == 2 * (h as nat) && ((h << 1) | 1) as nat == 2 * (h as nat) + 1
  {
    assert h < 0x8000_0000;
  }

  /** Converting a number to a word loses nothing below the width. */
  lemma NumberOfWord(x: nat)
    requires x < 0x1_0000_0000
    ensures (x as bv32) as nat == x
  {
    SameWord(WordOf(x));
  }

  lemma SameWord(w: bv32)
    ensures w as nat < 0x1_0000_0000 && (w as nat) as bv32 == w
  {
  }

  /** Little endian: the fields survive exactly when each fits its bit width. */
  lemma PlainLittleRoundTrip(info: RelocationInfo)
    ensures PlainDecode(PlainEncode(info, true), true) == info <==>
            info.r_symbolnum < 0x100_0000 && info.r_length < 4 && info.r_type < 16
  {
  }

  /** Little endian: every pair of words is the encoding of its fields. */
  lemma PlainLittleOnto(r: Relocation)
    ensures PlainEncode(PlainDecode(r, true), true) == r
  {
  }

  /**
   Big endian: the encoder shifts the symbol number right where the decoder expects it shifted
   left, so only symbol number zero survives.
   */
  lemma PlainBigRoundTrip(info: RelocationInfo)
    ensures PlainDecode(PlainEncode(info, false), false) == info <==>
            info.r_symbolnum == 0 && info.r_length < 4 && info.r_type < 16
  {
  }

  /** What is read back instead: the symbol number without its low sixteen bits. */
  lemma PlainBigSymbol(info: RelocationInfo)
    ensures PlainDecode(PlainEncode(info, false), false).r_symbolnum == info.r_symbolnum >> 16
    ensures PlainDecode(PlainEncode(info, false), false).r_address == info.r_address
  {
  }

  /** Symbol 256 of a big-endian file reads back as symbol 0 with the wrong type. */
  lemma PlainBigCounterexample()
    ensures PlainDecode(PlainEncode(RelocationInfo(0, 0x100, false, 2, true, 0), false), false)
            == RelocationInfo(0, 0, false, 2, true, 1)
  {
  }

  /** `Relocation::r_scattered` */
  predicate IsScattered(r: Relocation, cputype: bv32)
  {
    cputype != CPU_TYPE_X86_64 && r.r_word0 & R_SCATTERED != 0
  }

  /** A plain relocation with an address of 2^31 or more is taken for a scattered one, except on x86-64. */
  lemma PlainScattered(info: RelocationInfo, little: bool, cputype: bv32)
    ensures IsScattered(PlainEncode(info, little), cputype) <==>
            cputype != CPU_TYPE_X86_64 && info.r_address >= R_SCATTERED
  {
  }

  /** Little endian: a symbol number is read back without the bits that do not fit. */
  lemma PlainLittleMasked(info: RelocationInfo)
    requires info.r_length < 4 && info.r_type < 16
    ensures PlainDecode(PlainEncode(info, true), true) == info.(r_symbolnum := info.r_symbolnum & 0x00ff_ffff)
  {
    var masked := info.(r_symbolnum := info.r_symbolnum & 0x00ff_ffff);
    assert PlainWord(masked, true) == PlainWord(info, true);
    hide PlainWord, PlainDecode;
    MaskedSmall(info.r_symbolnum);
    PlainLittleRoundTrip(masked);
  }

  lemma MaskedSmall(w: bv32)
    ensures w & 0x00ff_ffff < 0x100_0000
  {
  }

  function Join(high: bv32, low: bv32): bv32
  {
    (high << 24) | low
  }

  lemma JoinWords(high: bv32, low: bv32)
    requires high < 0x100 && low < 0x100_0000
    ensures Join(high, low) as nat == 0x100_0000 * (high as nat) + (low as nat)
  {
    JoinNumber(high, low);
  }

  lemma JoinNumber(high: bv32, low: bv32)
    requires high < 0x100 && low < 0x100_0000
    ensures ((high << 24) | low) as nat == 0x100_0000 * (high as nat) + (low as nat)
  {
  }

  lemma JoinMask(high: bv32, low: bv32)
    requires high < 0x100 && low < 0x100_0000
    ensures Join(high, low) & 0x00ff_ffff == low
  {
  }

  lemma SmallWords(high: bv32, low: bv32)
    requires high as nat < 0x100 && low as nat < 0x100_0000
    ensures high < 0x100 && low < 0x100_0000
  {
  }

  /** Order of words is order of numbers, here for the scattered bit. */
  lemma HighWord(w: bv32)
    ensures w >= R_SCATTERED <==> w as nat >= 0x8000_0000
  {
    if w < R_SCATTERED {
      TwiceWord(w);
      SameWord(w << 1);
    } else if w as nat < 0x8000_0000 {
      LowNumber(w);
    }
  }

  lemma TwiceWord(w: bv32)
    requires w < 0x8000_0000
    ensures (w << 1) as nat == 2 * (w as nat)
  {
  }

  lemma LowNumber(w: bv32)
    requires w as nat < 0x8000_0000
    ensures w < 0x8000_0000
  {
  }

  /** A word is that of the number that it denotes. */
  lemma WordIs(x: nat, w: bv32)
    requires w as nat == x
    ensures x < 0x1_0000_0000 && x as bv32 == w
  {
    SameWord(w);
  }

  /** Keeping the low 24 bits of a number is the remainder modulo 2^24. */
  lemma LowBits(x: nat)
    requires x < 0x1_0000_0000
    ensures ((x as bv32) & 0x00ff_ffff) as nat == x % 0x100_0000
  {
    hide Join;
    var h, l := x / 0x100_0000, x % 0x100_0000;
    var a, b := WordOf(h), WordOf(l);
    SmallWords(a, b);
    JoinWords(a, b);
    JoinMask(a, b);
    WordIs(x, Join(a, b));
  }

  /** The 24-bit field of an addend entry, with its sign. */
  function SignExtend24(n: nat): int
  {
    if n % 0x100_0000 < 0x80_0000 then n % 0x100_0000 else n % 0x100_0000 - 0x100_0000
  }

  /** An addend survives its 24-bit field exactly when it is in the signed range of the field. */
  lemma AddendSurvives(addend: int)
    ensures SignExtend24(addend % 0x1_0000_0000) == addend <==> -0x80_0000 <= addend < 0x80_0000
  {
    var n := addend % 0x1_0000_0000;
    assert n % 0x100_0000 == addend % 0x100_0000;
  }

  /** An addend of 2^24 is written as zero. */
  lemma AddendCounterexample()
    ensures SignExtend24(0x100_0000 % 0x1_0000_0000) == 0
  {
  }

  /** `ScatteredRelocationInfo::relocation`; the byte order plays no part in the words. */
  function ScatteredEncode(info: ScatteredRelocationInfo): Relocation
  {
    Relocation(
      (info.r_address & 0x00ff_ffff)
      | (((info.r_type & 0xf) as bv32) << 24)
      | (((info.r_length & 0x3) as bv32) << 28)
      | (Bit(info.r_pcrel) << 30)
      | R_SCATTERED,
      info.r_value)
  }

  /** `Relocation::scattered_info` */
  function ScatteredDecode(r: Relocation): ScatteredRelocationInfo
  {
    var w := r.r_word0;
    ScatteredRelocationInfo(w & 0x00ff_ffff, Low8((w >> 24) & 0xf), Low8((w >> 28) & 0x3),
                            (w >> 30) & 0x1 != 0, r.r_word1)
  }

  lemma ScatteredRoundTrip(info: ScatteredRelocationInfo)
    ensures ScatteredDecode(ScatteredEncode(info)) == info <==>
            info.r_address < 0x100_0000 && info.r_type < 16 && info.r_length < 4
    ensures forall cputype :: IsScattered(ScatteredEncode(info), cputype) <==> cputype != CPU_TYPE_X86_64
  {
  }

  /** Exactly the words marked as scattered are encodings of their fields. */
  lemma ScatteredOnto(r: Relocation)
    ensures ScatteredEncode(ScatteredDecode(r)) == r <==> r.r_word0 & R_SCATTERED != 0
  {
  }

  /** The storage order of MIPS64 little endian: the symbol below, the type bytes reversed above. */
  function ToMips64El(t: bv64): bv64
  {
    (t >> 32)
    | ((t & 0xff00_0000) << 8)
    | ((t & 0x00ff_0000) << 24)
    | ((t & 0x0000_ff00) << 40)
    | ((t & 0x0000_00ff) << 56)
  }

  function FromMips64El(t: bv64): bv64
  {
    (t << 32)
    | ((t >> 8) & 0xff00_0000)
    | ((t >> 24) & 0x00ff_0000)
    | ((t >> 40) & 0x0000_ff00)
    | ((t >> 56) & 0x0000_00ff)
  }

  lemma Mips64ElInverse(t: bv64)
    ensures FromMips64El(ToMips64El(t)) == t
  {
  }

  lemma Mips64ElOnto(t: bv64)
    ensures ToMips64El(FromMips64El(t)) == t
  {
  }

  function Pack(sym: bv32, typ: bv32): bv64
  {
    ((sym as bv64) << 32) | (typ as bv64)
  }

  function High(t: bv64): bv32
  {
    (t >> 32) as bv32
  }

  function Low(t: bv64): bv32
  {
    (t & 0xffff_ffff) as bv32
  }

  lemma PackInverse(sym: bv32, typ: bv32)
    ensures High(Pack(sym, typ)) == sym && Low(Pack(sym, typ)) == typ
  {
  }

  lemma PackOnto(t: bv64)
    ensures Pack(High(t), Low(t)) == t
  {
  }

  /** `Rela64::r_info` */
  function RInfo(mips64el: bool, sym: bv32, typ: bv32): bv64
  {
    if mips64el then ToMips64El(Pack(sym, typ)) else Pack(sym, typ)
  }

  /** `Rela64::get_r_info` */
  function GetRInfo(mips64el: bool, info: bv64): bv64
  {
    if mips64el then FromMips64El(info) else info
  }

  function RSym(mips64el: bool, info: bv64): bv32
  {
    High(GetRInfo(mips64el, info))
  }

  function RType(mips64el: bool, info: bv64): bv32
  {
    Low(GetRInfo(mips64el, info))
  }

  /** The symbol and type of every relocation survive, in both layouts. */
  lemma RInfoRoundTrip(mips64el: bool, sym: bv32, typ: bv32)
    ensures RSym(mips64el, RInfo(mips64el, sym, typ)) == sym
    ensures RType(mips64el, RInfo(mips64el, sym, typ)) == typ
  {
    Mips64ElInverse(Pack(sym, typ));
    PackInverse(sym, typ);
  }

  /** Every stored field is the encoding of its symbol and type. */
  lemma RInfoOnto(mips64el: bool, info: bv64)
    ensures RInfo(mips64el, RSym(mips64el, info), RType(mips64el, info)) == info
  {
    Mips64ElOnto(info);
    PackOnto(GetRInfo(mips64el, info));
  }

  /** The MIPS64EL layout: the symbol in the low half, the four type bytes reversed above it. */
  lemma RInfoLayout(sym: bv32, typ: bv32)
    ensures RInfo(true, sym, typ) & 0xffff_ffff == sym as bv64
    ensures RInfo(true, sym, typ) >> 56 == (typ & 0xff) as bv64
    ensures (RInfo(true, sym, typ) >> 48) & 0xff == ((typ >> 8) & 0xff) as bv64
    ensures (RInfo(true, sym, typ) >> 40) & 0xff == ((typ >> 16) & 0xff) as bv64
    ensures (RInfo(true, sym, typ) >> 32) & 0xff == (typ >> 24) as bv64
  {
  }
}
