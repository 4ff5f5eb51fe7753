/** Symbol-name hashes of ELF hash tables. */
module ElfHash {
  import opened Prelude
  import opened Bits

  const WORD: nat := 0x1_0000_0000

  /** The end of a round in the System V gABI, chapter 5, section "Hash Table". */
  function StandardFold(h: nat): nat
    requires h < WORD
  {
    var g := And(h, 0xf000_0000);
    And(if g != 0 then Xor(h, g / 0x100_0000) else h, Not32(g))
  }

  /** The complement of a 32-bit word. */
  function Not32(g: nat): nat
  {
    if g < WORD then WORD - 1 - g else 0
  }

  /** That hashing function, in 32-bit arithmetic. */
  function StandardHash(name: seq<byte>): nat
  {
    if name == [] then 0
    else StandardFold((StandardHash(name[..|name| - 1]) * 16 + name[|name| - 1]) % WORD)
  }

  /** `hash ^= (hash >> 24) & 0xf0`: the top nibble is folded down but stays in place. */
  function FastFold(h: nat): nat
  {
    Xor(h, And(h / 0x100_0000, 0xf0))
  }

  /** Both folds extract the top nibble `t`, in place or shifted down to bit 4. */
  lemma TopNibble(t: nat, l: nat)
    requires t < 16 && l < 0x1000_0000
    ensures And(t * 0x1000_0000 + l, 0xf000_0000) == t * 0x1000_0000
  {
    hide And;
    Pow2Values();
    AndMask(t, 4);
    AndHigh(t * 0x1000_0000 + l, t, l, 0xf000_0000, 15, t, 28, 0x1000_0000);
  }

  lemma ShiftedNibble(t: nat, l: nat)
    requires t < 16 && l < 0x10
    ensures And(t * 0x10 + l, 0xf0) == t * 0x10
  {
    hide And;
    Pow2Small();
    AndMask(t, 4);
    AndHigh(t * 0x10 + l, t, l, 0xf0, 15, t, 4, 0x10);
  }

  /** Folding changes only the low 28 bits. */
  lemma FoldLow(t: nat, l: nat)
    requires t < 16 && l < 0x1000_0000
    ensures Xor(l, t * 16) < 0x1000_0000
    ensures Xor(t * 0x1000_0000 + l, t * 16) == t * 0x1000_0000 + Xor(l, t * 16)
  {
    hide Xor;
    Pow2Values();
    XorLow(t * 0x1000_0000 + l, t, l, t * 16, 28, 0x1000_0000);
    XorBound(l, t * 16, 28);
  }

  /** Clearing the bits of the top nibble `t` leaves the low 28 bits. */
  lemma ClearTop(t: nat, m: nat)
    requires t < 16 && m < 0x1000_0000
    ensures And(t * 0x1000_0000 + m, 0xffff_ffff - t * 0x1000_0000) == m
  {
    hide And;
    Pow2Values();
    AndComplement(t, 4);
    AndLow(t * 0x1000_0000 + m, t, m, 0xffff_ffff - t * 0x1000_0000, 15 - t, 28, 0x1000_0000);
  }

  lemma FastFoldMeaning(t: nat, l: nat)
    requires t < 16 && l < 0x1000_0000
    ensures FastFold(t * 0x1000_0000 + l) < WORD
    ensures FastFold(t * 0x1000_0000 + l) % 0x1000_0000 == Xor(l, t * 16)
  {
    NibbleArithmetic(t, l);
    ShiftedNibble(t, l / 0x100_0000);
    FoldLow(t, l);
    NibbleArithmetic(t, Xor(l, t * 16));
  }

  lemma NibbleArithmetic(t: nat, l: nat)
    requires t < 16 && l < 0x1000_0000
    ensures l / 0x100_0000 < 0x10
    ensures (t * 0x1000_0000 + l) / 0x100_0000 == t * 0x10 + l / 0x100_0000
    ensures t * 0x1000_0000 + l < WORD && (t * 0x1000_0000 + l) % 0x1000_0000 == l
  {
  }

  lemma StandardFoldMeaning(t: nat, l: nat)
    requires t < 16 && l < 0x1000_0000
    ensures StandardFold(t * 0x1000_0000 + l) == Xor(l, t * 16)
  {
    var g := t * 0x1000_0000;
    TopNibble(t, l);
    FoldLow(t, l);
    ClearTop(t, Xor(l, t * 16));
    if g == 0 {
      XorZero(l);
    } else {
      assert g / 0x100_0000 == t * 16;
    }
  }

  /** Clearing the top nibble of the fast fold gives the standard fold. */
  lemma FoldAgrees(h: nat)
    requires h < WORD
    ensures FastFold(h) < WORD
    ensures FastFold(h) % 0x1000_0000 == StandardFold(h)
  {
    FastFoldMeaning(h / 0x1000_0000, h % 0x1000_0000);
    StandardFoldMeaning(h / 0x1000_0000, h % 0x1000_0000);
  }

  lemma XorZero(h: nat)
    ensures Xor(h, 0) == h
  {
  }

  /** Clearing the top nibble commutes with a round, so it can wait until the end. */
  lemma RoundAgrees(fast: nat, c: byte)
    ensures (fast * 16 % WORD + c) % WORD == (fast % 0x1000_0000 * 16 + c) % WORD
  {
    var q, r := fast / 0x1000_0000, fast % 0x1000_0000;
    assert fast * 16 == r * 16 + q * WORD;
    AddMultiple(r * 16, q);
  }

  /** `hash`: the standard hash of every byte string, and below 2^28. */
  method Hash(name: seq<byte>) returns (result: nat)
    ensures result == StandardHash(name)
    ensures result < 0x1000_0000
  {
    var hash: nat := 0;
    for i := 0 to |name|
      invariant 0 <= hash < WORD
      invariant hash % 0x1000_0000 == StandardHash(name[..i])
    {
      StandardHashSnoc(name, i);
      RoundAgrees(hash, name[i]);
      hash := (hash * 16 % WORD + name[i]) % WORD;
      FoldAgrees(hash);
      hash := FastFold(hash);
    }
    assert name[..|name|] == name;
    result := And(hash, 0xfff_ffff);
    MaskTop(hash);
  }

  lemma StandardHashSnoc(name: seq<byte>, i: nat)
    requires i < |name|
    ensures StandardHash(name[..i + 1]) == StandardFold((StandardHash(name[..i]) * 16 + name[i]) % WORD)
  {
    assert name[..i + 1][..i] == name[..i];
  }

  lemma MaskTop(h: nat)
    ensures And(h, 0xfff_ffff) == h % 0x1000_0000
  {
    Pow2Values();
    AndMask(h, 28);
  }

  function Pow33(n: nat): nat
  {
    if n == 0 then 1 else 33 * Pow33(n - 1)
  }

  /** The bytes as digits in base 33, the first weighing most. */
  function Polynomial(name: seq<byte>): nat
  {
    if name == [] then 0 else name[0] * Pow33(|name| - 1) + Polynomial(name[1..])
  }

  lemma {:induction false} PolynomialSnoc(name: seq<byte>, b: byte)
    ensures Polynomial(name + [b]) == 33 * Polynomial(name) + b
  {
    if name == [] {
      assert [b][1..] == [];
      assert [] + [b] == [b];
    } else {
      PolynomialSnoc(name[1..], b);
      assert (name + [b])[1..] == name[1..] + [b];
    }
  }

  lemma WrappingRound(h: nat, x: nat, b: byte)
    requires h == x % WORD
    ensures (h * 33 % WORD + b) % WORD == (33 * x + b) % WORD
  {
    var q := x / WORD;
    assert 33 * x + b == (h * 33 + b) + 33 * q * WORD;
    AddMultiple(h * 33 + b, 33 * q);
    AddMultiple(h * 33 % WORD + b, h * 33 / WORD);
  }

  lemma AddMultiple(r: nat, q: nat)
    ensures (r + q * WORD) % WORD == r % WORD
  {
  }

  /** `gnu_hash`: the base-33 polynomial with seed 5381, modulo 2^32. */
  method GnuHash(name: seq<byte>) returns (hash: nat)
    ensures hash == (5381 * Pow33(|name|) + Polynomial(name)) % WORD
  {
    hash := 5381;
    for i := 0 to |name|
      invariant hash == (5381 * Pow33(i) + Polynomial(name[..i])) % WORD
    {
      PolynomialSnoc(name[..i], name[i]);
      assert name[..i + 1] == name[..i] + [name[i]];
      WrappingRound(hash, 5381 * Pow33(i) + Polynomial(name[..i]), name[i]);
      hash := (hash * 33 % WORD + name[i]) % WORD;
    }
    assert name[..|name|] == name;
  }
}
