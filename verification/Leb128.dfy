/**
 The LEB128 codecs: what a byte sequence means (section 7.6 of DWARF Version 5), and the
 encoders and lemmas that go with it. Bit patterns of an `i64` are numbers below `2^64`.
 */
module Leb128 {
  import opened Prelude
  import opened Bits

  /** The first `n` bytes of `s` are one complete encoding: only the last clears the top bit. */
  ghost predicate Terminates(s: seq<byte>, n: nat)
  {
    0 < n <= |s| && s[n - 1] < 0x80 && forall i :: 0 <= i < n - 1 ==> s[i] >= 0x80
  }

  /** The base-128 number with the low seven bits of `s` as digits, least significant first. */
  ghost function Value(s: seq<byte>): nat
  {
    if s == [] then 0 else s[0] % 0x80 + 0x80 * Value(s[1..])
  }

  /** The same number read in two's complement: bit 6 of the last byte is the sign. */
  ghost function SignedValue(s: seq<byte>): int
    requires s != []
  {
    if |s| == 1 then if s[0] % 0x80 >= 0x40 then s[0] % 0x80 - 0x80 else s[0] % 0x80
    else s[0] % 0x80 + 0x80 * SignedValue(s[1..])
  }

  ghost predicate FitsI64(v: int)
  {
    -0x8000_0000_0000_0000 <= v < 0x8000_0000_0000_0000
  }

  function ToI64(bits: nat): int
  {
    if bits >= 0x8000_0000_0000_0000 then bits - 0x1_0000_0000_0000_0000 else bits
  }

  lemma {:induction false} ValueBound(s: seq<byte>)
    ensures Value(s) < Pow2(7 * |s|)
  {
    if s != [] {
      ValueBound(s[1..]);
      Pow2Add(7, 7 * |s[1..]|);
      Pow2Values();
    }
  }

  /** One more byte adds a digit at the top. */
  lemma {:induction false} ValueSnoc(s: seq<byte>, b: byte)
    ensures Value(s + [b]) == Value(s) + b % 0x80 * Pow2(7 * |s|)
  {
    if s == [] {
      assert s + [b] == [b];
      assert [b][1..] == [];
    } else {
      var d, p := b % 0x80, Pow2(7 * |s[1..]|);
      ValueSnoc(s[1..], b);
      assert (s + [b])[1..] == s[1..] + [b];
      assert Pow2(7 * |s|) == 0x80 * p by {
        Pow2Add(7, 7 * |s[1..]|);
        Pow2Values();
      }
      assert 0x80 * (d * p) == d * (0x80 * p);
    }
  }

  /** The signed reading differs from the unsigned one by the weight of the sign. */
  lemma {:induction false} SignedIsOffset(s: seq<byte>)
    requires s != []
    ensures SignedValue(s) == Value(s) - (if s[|s| - 1] % 0x80 >= 0x40 then Pow2(7 * |s|) else 0)
  {
    Pow2Values();
    if |s| == 1 {
      assert s[1..] == [];
    } else {
      SignedIsOffset(s[1..]);
      Pow2Add(7, 7 * |s[1..]|);
    }
  }

  lemma LowSeven(v: nat)
    ensures And(v, 0x7f) == v % 0x80
  {
    Pow2Values();
    AndMask(v, 7);
  }

  lemma TopBit(b: byte)
    ensures And(b, 0x80) == 0 <==> b < 0x80
  {
    Pow2Values();
    AndBit(b, 7);
  }

  lemma SignBit(b: byte)
    ensures And(b, 0x40) != 0 <==> b % 0x80 >= 0x40
  {
    Pow2Values();
    AndBit(b, 6);
  }

  /** What `result |= (byte & 0x7f) << shift` does to the digits read so far. */
  lemma AccumulateDigit(s: seq<byte>, b: byte)
    requires |s| < 9
    ensures Or(Value(s), Shl64(b % 0x80, 7 * |s|)) == Value(s + [b])
  {
    ValueBound(s);
    ValueSnoc(s, b);
    ShiftDigit(b % 0x80, |s|);
    OrDisjoint(Value(s), b % 0x80, 7 * |s|, Pow2(7 * |s|));
  }

  lemma ShiftDigit(d: nat, k: nat)
    requires d < 0x80 && k < 9
    ensures Shl64(d, 7 * k) == d * Pow2(7 * k) < Pow2(63)
  {
    Pow2Values();
    var p := Pow2(7 * k);
    Pow2Add(7, 7 * k);
    Pow2Monotone(7 * k + 7, 63);
    MulBound(d, p);
  }

  lemma MulBound(d: nat, p: nat)
    requires d < 0x80 && p > 0
    ensures d * p < 0x80 * p
  {
  }

  /** The tenth byte has room for one bit only. */
  lemma AccumulateTenth(s: seq<byte>, b: byte)
    requires |s| == 9 && (b == 0x00 || b == 0x01 || b == 0x7f)
    ensures Or(Value(s), Shl64(b, 63)) == Value(s) + (if b == 0 then 0 else 0x8000_0000_0000_0000)
  {
    Pow2Values();
    ValueBound(s);
    ShiftTenth(b);
    if b == 0 {
      OrDisjoint(Value(s), 0, 63, 0x8000_0000_0000_0000);
    } else {
      OrDisjoint(Value(s), 1, 63, 0x8000_0000_0000_0000);
    }
  }

  lemma ShiftTenth(b: byte)
    requires b == 0x00 || b == 0x01 || b == 0x7f
    ensures Shl64(b, 63) == if b == 0 then 0 else 0x8000_0000_0000_0000
  {
    Pow2Values();
  }

  /** An encoding of at most nine bytes always fits. */
  lemma ShortFits(e: seq<byte>)
    requires 0 < |e| <= 9
    ensures Value(e) < Pow2(63)
    ensures FitsI64(SignedValue(e))
  {
    ValueBound(e);
    SignedIsOffset(e);
    Pow2Monotone(7 * |e|, 63);
    Pow2Values();
  }

  /** The tenth byte decides whether ten bytes fit. */
  lemma TenthFits(h: seq<byte>, b: byte)
    requires |h| == 9 && b < 0x80
    ensures Value(h + [b]) == Value(h) + b * 0x8000_0000_0000_0000
    ensures Value(h + [b]) <= U64_MAX <==> b <= 0x01
    ensures SignedValue(h + [b]) == Value(h) + (if b >= 0x40 then b - 0x80 else b) * 0x8000_0000_0000_0000
    ensures FitsI64(SignedValue(h + [b])) <==> b == 0x00 || b == 0x7f
  {
    hide And, Or, Pow2;
    Pow2Values();
    ValueBound(h);
    ValueSnoc(h, b);
    SignedIsOffset(h + [b]);
    Pow2Add(7, 63);
  }

  lemma ShiftOnes(k: nat)
    requires 0 < k <= 9
    ensures Shl64(U64_MAX, 7 * k) == (Pow2(64 - 7 * k) - 1) * Pow2(7 * k)
    ensures Pow2(64 - 7 * k) * Pow2(7 * k) == 0x1_0000_0000_0000_0000
  {
    Pow2Values();
    Pow2Add(64 - 7 * k, 7 * k);
    ShiftedComplement(Pow2(64 - 7 * k), Pow2(7 * k));
  }

  lemma ShiftedComplement(c: nat, p: nat)
    requires p > 0 && c > 0 && c * p == 0x1_0000_0000_0000_0000
    ensures U64_MAX * p % 0x1_0000_0000_0000_0000 == (c - 1) * p
  {
    assert (c - 1) * p == c * p - p;
    assert p <= c * p;
    DivModUnique(U64_MAX * p, 0x1_0000_0000_0000_0000, p - 1, 0x1_0000_0000_0000_0000 - p);
  }

  /** Sign extension of a short encoding: `result |= !0 << shift`. */
  lemma SignExtend(e: seq<byte>)
    requires 0 < |e| <= 9 && e[|e| - 1] % 0x80 >= 0x40
    ensures ToI64(Or(Value(e), Shl64(U64_MAX, 7 * |e|))) == SignedValue(e)
  {
    hide And, Or, Pow2;
    ValueBound(e);
    SignedIsOffset(e);
    ShiftOnes(|e|);
    OrOnes(Value(e), 7 * |e|);
    SignedNegative(e);
    ShortFits(e);
  }

  lemma OrOnes(v: nat, k: nat)
    requires k < 64 && v < Pow2(k) && Pow2(64 - k) * Pow2(k) == 0x1_0000_0000_0000_0000
    ensures Or(v, (Pow2(64 - k) - 1) * Pow2(k)) == v + 0x1_0000_0000_0000_0000 - Pow2(k)
  {
    OrDisjoint(v, Pow2(64 - k) - 1, k, Pow2(k));
    Distribute(Pow2(64 - k), Pow2(k));
  }

  lemma Distribute(c: nat, p: nat)
    requires c > 0
    ensures (c - 1) * p == c * p - p
  {
  }

  lemma {:induction false} SignedNegative(e: seq<byte>)
    requires e != []
    ensures SignedValue(e) < 0 <==> e[|e| - 1] % 0x80 >= 0x40
  {
    if |e| > 1 {
      SignedNegative(e[1..]);
    }
  }

  // ---------------------------------------------------------------------------------------------
  // What a decoder must return.

  /**
   `r` and the remaining bytes `rest` are what decoding the unsigned number at the start of `s`
   yields: success exactly when some encoding of at most ten bytes fits in 64 bits.
   */
  ghost predicate UlebReads(s: seq<byte>, r: Result<nat>, rest: seq<byte>)
  {
    if r.Ok?
    then exists n: nat :: n <= 10 && Terminates(s, n) && r.value == Value(s[..n]) <= U64_MAX && rest == s[n..]
    else forall n: nat :: n <= 10 && Terminates(s, n) ==> Value(s[..n]) > U64_MAX
  }

  ghost predicate SlebReads(s: seq<byte>, r: Result<int>, rest: seq<byte>)
  {
    if r.Ok?
    then exists n: nat ::
      n <= 10 && Terminates(s, n) && r.value == SignedValue(s[..n]) && FitsI64(r.value) && rest == s[n..]
    else forall n: nat :: n <= 10 && Terminates(s, n) ==> !FitsI64(SignedValue(s[..n]))
  }

  ghost predicate Continues(s: seq<byte>, k: nat)
  {
    k <= |s| && forall i :: 0 <= i < k ==> s[i] >= 0x80
  }

  /** One turn of the unsigned loop at byte `k`, when the tenth-byte test lets it pass. */
  lemma UlebStep(s: seq<byte>, k: nat)
    requires k <= 9 && k < |s| && Continues(s, k)
    requires k == 9 ==> s[9] == 0x00 || s[9] == 0x01
    ensures Or(Value(s[..k]), Shl64(And(s[k], 0x7f), 7 * k)) == Value(s[..k + 1]) <= U64_MAX
    ensures And(s[k], 0x80) == 0 <==> Terminates(s, k + 1)
  {
    var h := s[..k];
    assert s[..k + 1] == h + [s[k]];
    LowSeven(s[k]);
    TopBit(s[k]);
    if k == 9 {
      AccumulateTenth(h, s[k]);
      TenthFits(h, s[k]);
    } else {
      AccumulateDigit(h, s[k]);
      ShortFits(h + [s[k]]);
      Pow2Values();
    }
  }

  lemma UlebOverflow(s: seq<byte>)
    requires |s| > 9 && Continues(s, 9) && s[9] != 0x00 && s[9] != 0x01
    ensures forall n: nat :: n <= 10 && Terminates(s, n) ==> Value(s[..n]) > U64_MAX
  {
    if s[9] < 0x80 {
      TenthFits(s[..9], s[9]);
      assert s[..10] == s[..9] + [s[9]];
    }
  }

  /** The number that the signed loop has accumulated after a terminating byte, before sign extension. */
  ghost function SignedBits(s: seq<byte>, k: nat): nat
    requires k <= 10 && k <= |s|
  {
    if k == 10 then Value(s[..9]) + (if s[9] == 0 then 0 else 0x8000_0000_0000_0000) else Value(s[..k])
  }

  lemma SlebStep(s: seq<byte>, k: nat)
    requires k <= 9 && k < |s| && Continues(s, k)
    requires k == 9 ==> s[9] == 0x00 || s[9] == 0x7f
    ensures Or(Value(s[..k]), Shl64(And(s[k], 0x7f), 7 * k)) == SignedBits(s, k + 1)
    ensures And(s[k], 0x80) == 0 <==> Terminates(s, k + 1)
  {
    hide And, Or, Pow2;
    var h := s[..k];
    assert s[..k + 1] == h + [s[k]];
    LowSeven(s[k]);
    TopBit(s[k]);
    if k == 9 {
      AccumulateTenth(h, s[k]);
    } else {
      AccumulateDigit(h, s[k]);
    }
  }

  /** How the loop finishes: sign extension only while the shift is below 64. */
  lemma SlebFinish(s: seq<byte>, n: nat)
    requires n <= 10 && Terminates(s, n)
    requires n == 10 ==> s[9] == 0x00 || s[9] == 0x7f
    ensures FitsI64(SignedValue(s[..n]))
    ensures SignedValue(s[..n]) ==
            ToI64(if 7 * n < 64 && And(s[n - 1], 0x40) != 0
                  then Or(SignedBits(s, n), Shl64(U64_MAX, 7 * n))
                  else SignedBits(s, n))
  {
    var e := s[..n];
    SignBit(s[n - 1]);
    if n == 10 {
      assert e == s[..9] + [s[9]];
      TenthFits(s[..9], s[9]);
      ValueBound(s[..9]);
      Pow2Values();
    } else {
      ShortFits(e);
      Pow2Values();
      if e[n - 1] % 0x80 >= 0x40 {
        SignExtend(e);
      } else {
        SignedIsOffset(e);
      }
    }
  }

  lemma SlebOverflow(s: seq<byte>)
    requires |s| > 9 && Continues(s, 9) && s[9] != 0x00 && s[9] != 0x7f
    ensures forall n: nat :: n <= 10 && Terminates(s, n) ==> !FitsI64(SignedValue(s[..n]))
  {
    if s[9] < 0x80 {
      TenthFits(s[..9], s[9]);
      assert s[..10] == s[..9] + [s[9]];
    }
  }

  // ---------------------------------------------------------------------------------------------
  // Encodings.

  /** The minimal unsigned encoding. */
  function Uleb(v: nat): (e: seq<byte>)
    ensures e != [] && e[|e| - 1] < 0x80
  {
    if v < 0x80 then [v] else [v % 0x80 + 0x80] + Uleb(v / 0x80)
  }

  /** The minimal signed encoding. */
  function Sleb(v: int): seq<byte>
    decreases if v < 0 then -v else v
  {
    if -0x40 <= v < 0x40 then [v % 0x80] else [v % 0x80 + 0x80] + Sleb(v / 0x80)
  }

  /** An encoded number is one complete encoding of that number, whatever follows it. */
  lemma {:induction false} UlebMeaning(v: nat, rest: seq<byte>)
    ensures Terminates(Uleb(v) + rest, |Uleb(v)|)
    ensures Value(Uleb(v)) == v
  {
    var e := Uleb(v);
    if v < 0x80 {
      assert e[1..] == [];
    } else {
      UlebMeaning(v / 0x80, rest);
      Prepend(v % 0x80 + 0x80, Uleb(v / 0x80), rest);
      assert e[1..] == Uleb(v / 0x80);
    }
  }

  lemma {:induction false} SlebMeaning(v: int, rest: seq<byte>)
    ensures Terminates(Sleb(v) + rest, |Sleb(v)|)
    ensures SignedValue(Sleb(v)) == v
    decreases if v < 0 then -v else v
  {
    if !(-0x40 <= v < 0x40) {
      hide Terminates, SignedValue;
      var t := Sleb(v / 0x80);
      SlebMeaning(v / 0x80, rest);
      Prepend(v % 0x80 + 0x80, t, rest);
      SignedPrepend(v % 0x80 + 0x80, t);
      assert Sleb(v) == [v % 0x80 + 0x80] + t;
    }
  }

  lemma SignedPrepend(b: byte, t: seq<byte>)
    requires t != []
    ensures SignedValue([b] + t) == b % 0x80 + 0x80 * SignedValue(t)
  {
    assert ([b] + t)[1..] == t;
  }

  lemma Prepend(b: byte, t: seq<byte>, rest: seq<byte>)
    requires b >= 0x80 && Terminates(t + rest, |t|)
    ensures Terminates([b] + t + rest, |t| + 1)
  {
    var s := [b] + t + rest;
    assert forall i :: 0 < i < |s| ==> s[i] == (t + rest)[i - 1];
  }

  /** A minimal encoding takes the fewest bytes that can hold the number. */
  lemma {:induction false} UlebLength(v: nat, k: nat)
    requires v < Pow2(7 * (k + 1))
    ensures |Uleb(v)| <= k + 1
  {
    if v >= 0x80 {
      Pow2Values();
      if k > 0 {
        Pow2Add(7, 7 * k);
        UlebLength(v / 0x80, k - 1);
      }
    }
  }

  lemma {:induction false} SlebLength(v: int, k: nat)
    requires 0 - Pow2(7 * k + 6) <= v < Pow2(7 * k + 6)
    ensures |Sleb(v)| <= k + 1
    decreases k
  {
    if !(-0x40 <= v < 0x40) {
      Pow2Values();
      if k > 0 {
        Pow2Add(7, 7 * (k - 1) + 6);
        SlebLength(v / 0x80, k - 1);
      }
    }
  }

  /** Decoding undoes encoding: nothing but the number itself can be read back. */
  lemma UlebRoundTrip(v: nat, tail: seq<byte>, r: Result<nat>, rest: seq<byte>)
    requires v <= U64_MAX
    requires UlebReads(Uleb(v) + tail, r, rest)
    ensures r == Ok(v) && rest == tail
  {
    var e := Uleb(v);
    UlebMeaning(v, tail);
    Pow2Values();
    Pow2Monotone(64, 70);
    UlebLength(v, 9);
    assert (e + tail)[..|e|] == e;
    assert (e + tail)[|e|..] == tail;
  }

  lemma SlebRoundTrip(v: int, tail: seq<byte>, r: Result<int>, rest: seq<byte>)
    requires FitsI64(v)
    requires SlebReads(Sleb(v) + tail, r, rest)
    ensures r == Ok(v) && rest == tail
  {
    var e := Sleb(v);
    SlebMeaning(v, tail);
    Pow2Values();
    Pow2Monotone(63, 69);
    SlebLength(v, 9);
    assert (e + tail)[..|e|] == e;
    assert (e + tail)[|e|..] == tail;
  }

  /** `zeros` redundant digits after the minimal encoding. */
  function Padded(v: nat, zeros: nat): (e: seq<byte>)
    ensures e != [] && e[|e| - 1] < 0x80
  {
    if zeros == 0 then Uleb(v) else Pad(Padded(v, zeros - 1))
  }

  /** One more redundant digit. */
  function Pad(e: seq<byte>): (e': seq<byte>)
    requires e != [] && e[|e| - 1] < 0x80
    ensures e' != [] && e'[|e'| - 1] < 0x80
  {
    e[..|e| - 1] + [e[|e| - 1] + 0x80, 0]
  }

  lemma PadTerminates(e: seq<byte>)
    requires Terminates(e, |e|)
    ensures |Pad(e)| == |e| + 1 && Terminates(Pad(e), |e| + 1)
  {
  }

  lemma PadValue(h: seq<byte>, b: byte)
    requires b < 0x80
    ensures Value(h + [b + 0x80] + [0]) == Value(h + [b])
  {
    ContinuationBit(h, b);
    ZeroDigit(h + [b + 0x80]);
  }

  lemma ContinuationBit(h: seq<byte>, b: byte)
    requires b < 0x80
    ensures Value(h + [b + 0x80]) == Value(h + [b])
  {
    ValueSnoc(h, b);
    ValueSnoc(h, b + 0x80);
    assert (b + 0x80) % 0x80 == b % 0x80;
  }

  lemma ZeroDigit(h: seq<byte>)
    ensures Value(h + [0]) == Value(h)
  {
    ValueSnoc(h, 0);
  }

  lemma PadMeaning(e: seq<byte>)
    requires Terminates(e, |e|)
    ensures Terminates(Pad(e), |e| + 1) && |Pad(e)| == |e| + 1
    ensures Value(Pad(e)) == Value(e)
  {
    var h, b := e[..|e| - 1], e[|e| - 1];
    assert e == h + [b];
    assert Pad(e) == h + [b + 0x80] + [0];
    PadValue(h, b);
    PadTerminates(e);
  }

  lemma {:induction false} PaddedMeaning(v: nat, zeros: nat)
    ensures Value(Padded(v, zeros)) == v
    ensures |Padded(v, zeros)| == |Uleb(v)| + zeros
    ensures Terminates(Padded(v, zeros), |Padded(v, zeros)|)
  {
    if zeros == 0 {
      UlebMeaning(v, []);
      assert Uleb(v) + [] == Uleb(v);
    } else {
      PaddedMeaning(v, zeros - 1);
      PadMeaning(Padded(v, zeros - 1));
    }
  }

  /** Zero padding: any encoding of `v` padded to at most ten bytes reads back as `v`. */
  lemma UlebPadded(v: nat, zeros: nat, r: Result<nat>, rest: seq<byte>)
    requires v <= U64_MAX && |Uleb(v)| + zeros <= 10
    requires UlebReads(Padded(v, zeros), r, rest)
    ensures r == Ok(v) && rest == []
  {
    PaddedMeaning(v, zeros);
    var e := Padded(v, zeros);
    assert e[..|e|] == e;
  }

  /** `write_uleb128`: appends the encoding of `val` to `buf`. */
  method WriteUleb128(buf: seq<byte>, val: nat) returns (out: seq<byte>, len: nat)
    requires val <= U64_MAX
    ensures out == buf + Uleb(val) && len == |Uleb(val)|
  {
    hide And, Or;
    out, len := buf, 0;
    var v := val;
    while true
      invariant out + Uleb(v) == buf + Uleb(val)
      invariant len + |Uleb(v)| == |Uleb(val)|
      decreases v
    {
      ghost var was, before := v, out;
      UlebDigit(v);
      var b: byte := And(v, 0x7f);
      v := v / 0x80;
      var done := v == 0;
      if !done {
        b := Or(b, 0x80);
      }
      out, len := out + [b], len + 1;
      if done {
        return;
      }
      Regroup(before, [b], Uleb(v));
    }
  }

  /** `write_sleb128`: appends the encoding of `val` to `buf`. The shifts of an `i64` round down. */
  method WriteSleb128(buf: seq<byte>, val: int) returns (out: seq<byte>, len: nat)
    requires FitsI64(val)
    ensures out == buf + Sleb(val) && len == |Sleb(val)|
  {
    out, len := buf, 0;
    var v := val;
    while true
      invariant out + Sleb(v) == buf + Sleb(val)
      invariant len + |Sleb(v)| == |Sleb(val)|
      decreases if v < 0 then -v else v
    {
      ghost var was, before := v, out;
      SlebDigit(v);
      var b: byte := v % 0x100;
      v := v / 0x40;
      var done := v == 0 || v == -1;
      if done {
        b := And(b, 0x7f);
      } else {
        v := v / 2;
        b := Or(b, 0x80);
      }
      out, len := out + [b], len + 1;
      if done {
        return;
      }
      Regroup(before, [b], Sleb(v));
    }
  }

  /** One turn of the unsigned writer. */
  lemma UlebDigit(v: nat)
    ensures And(v, 0x7f) == v % 0x80
    ensures Or(v % 0x80, 0x80) == v % 0x80 + 0x80
  {
    hide And, Or;
    LowSeven(v);
    SetHighBit(v % 0x80);
  }

  /** One turn of the signed writer. */
  lemma SlebDigit(v: int)
    ensures v / 0x40 == 0 || v / 0x40 == -1 <==> -0x40 <= v < 0x40
    ensures And(v % 0x100, 0x7f) == v % 0x80
    ensures Or(v % 0x100, 0x80) == v % 0x80 + 0x80
    ensures v / 0x40 / 2 == v / 0x80
  {
    LowSeven(v % 0x100);
    SetHighBit(v % 0x100);
    ByteDigit(v);
  }

  lemma ByteDigit(v: int)
    ensures v % 0x100 % 0x80 == v % 0x80
    ensures v / 0x40 / 2 == v / 0x80
  {
  }

  lemma SetHighBit(b: byte)
    ensures Or(b, 0x80) == b % 0x80 + 0x80
  {
    Pow2Values();
    if b < 0x80 {
      OrDisjoint(b, 1, 7, 0x80);
    } else {
      OrIdempotentBit(b, 7);
    }
  }

  lemma {:induction false} OrIdempotentBit(a: nat, k: nat)
    requires a / Pow2(k) == 1
    ensures Or(a, Pow2(k)) == a
  {
    if k == 0 {
      assert a == 1;
    } else {
      HalfQuotient(a, Pow2(k - 1));
      OrIdempotentBit(a / 2, k - 1);
    }
  }
}
