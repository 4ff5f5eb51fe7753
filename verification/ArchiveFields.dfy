/** The text fields of archive headers: digits and names. */
module ArchiveFields {
  import opened Prelude
  import opened ReadRef

  const SPACE: byte := 0x20
  const SLASH: byte := 0x2f

  function IsDigit(c: byte, radix: nat): bool
  {
    0x30 <= c < 0x30 + radix
  }

  predicate AllDigits(s: seq<byte>, radix: nat)
  {
    forall i :: 0 <= i < |s| ==> IsDigit(s[i], radix)
  }

  /** The number that a string of digits denotes, most significant first. */
  function Positional(s: seq<byte>, radix: nat): nat
    requires AllDigits(s, radix)
  {
    if s == [] then 0 else Positional(s[..|s| - 1], radix) * radix + (s[|s| - 1] - 0x30)
  }

  /** The part of a field before its first space. */
  function BeforeSpace(s: seq<byte>): seq<byte>
  {
    s[..FirstIndex(s, SPACE)]
  }

  /** The meaning of a numeric field: digits up to the first space, denoting a 64-bit number. */
  function DigitsValue(s: seq<byte>, radix: nat): (r: Option<u64>)
  {
    if s != [] && s[0] == SPACE then None
    else if !AllDigits(BeforeSpace(s), radix) then None
    else if Positional(BeforeSpace(s), radix) > U64_MAX then None
    else Some(Positional(BeforeSpace(s), radix))
  }

  /** More digits never denote less. */
  lemma {:induction false} PositionalGrows(s: seq<byte>, radix: nat, k: nat)
    requires radix > 0 && k <= |s| && AllDigits(s, radix)
    ensures Positional(s[..k], radix) <= Positional(s, radix)
  {
    if k < |s| {
      var t := s[..|s| - 1];
      PositionalGrows(t, radix, k);
      assert t[..k] == s[..k];
      GrowStep(Positional(t, radix), radix);
    } else {
      assert s[..k] == s;
    }
  }

  lemma GrowStep(x: nat, radix: nat)
    requires radix > 0
    ensures x <= x * radix
  {
  }

  /** A prefix of digits that is already too large decides the field. */
  lemma TooLarge(s: seq<byte>, radix: nat, k: nat)
    requires radix > 0 && k <= FirstIndex(s, SPACE) && AllDigits(s[..k], radix)
    requires Positional(s[..k], radix) > U64_MAX
    ensures DigitsValue(s, radix) == None
  {
    var f := BeforeSpace(s);
    if AllDigits(f, radix) {
      PositionalGrows(f, radix, k);
      assert f[..k] == s[..k];
    }
  }

  /** A byte before the first space that is no digit decides the field. */
  lemma NotADigit(s: seq<byte>, radix: nat, k: nat)
    requires k < FirstIndex(s, SPACE) && !IsDigit(s[k], radix)
    ensures DigitsValue(s, radix) == None
  {
    assert BeforeSpace(s)[k] == s[k];
  }

  /** `parse_u64_digits`, for the radices in use. */
  method ParseU64Digits(digits: seq<byte>, radix: nat) returns (r: Option<u64>)
    requires 2 <= radix <= 10
    ensures r == DigitsValue(digits, radix)
  {
    if digits != [] && digits[0] == SPACE {
      return None;
    }
    var result: nat := 0;
    for i := 0 to |digits|
      invariant i <= FirstIndex(digits, SPACE)
      invariant digits == [] || digits[0] != SPACE
      invariant AllDigits(digits[..i], radix) && result == Positional(digits[..i], radix) <= U64_MAX
    {
      var c := digits[i];
      if c == SPACE {
        FirstIndexUnique(digits, SPACE, i);
        return Some(result);
      }
      if !IsDigit(c, radix) {
        NotADigit(digits, radix, i);
        return None;
      }
      DigitStep(digits, radix, i);
      if result * radix > U64_MAX {
        return None;
      }
      result := result * radix;
      if result + (c - 0x30) > U64_MAX {
        return None;
      }
      result := result + (c - 0x30);
    }
    assert digits[..|digits|] == digits;
    r := Some(result);
  }

  lemma PositionalSnoc(s: seq<byte>, radix: nat, k: nat)
    requires k < |s| && AllDigits(s[..k], radix) && IsDigit(s[k], radix)
    ensures AllDigits(s[..k + 1], radix)
    ensures Positional(s[..k + 1], radix) == Positional(s[..k], radix) * radix + (s[k] - 0x30)
  {
    assert s[..k + 1][..k] == s[..k];
  }

  lemma DigitStep(s: seq<byte>, radix: nat, k: nat)
    requires radix > 0 && k < FirstIndex(s, SPACE) && AllDigits(s[..k], radix) && IsDigit(s[k], radix)
    ensures AllDigits(s[..k + 1], radix)
    ensures Positional(s[..k + 1], radix) == Positional(s[..k], radix) * radix + (s[k] - 0x30)
    ensures Positional(s[..k + 1], radix) > U64_MAX ==> DigitsValue(s, radix) == None
  {
    PositionalSnoc(s, radix, k);
    if Positional(s[..k + 1], radix) > U64_MAX {
      TooLarge(s, radix, k + 1);
    }
  }

  /** Printing without leading zeros. */
  function Print(v: nat, radix: nat): (s: seq<byte>)
    requires 2 <= radix <= 10
    ensures s != [] && AllDigits(s, radix)
  {
    if v < radix then [0x30 + v] else Print(v / radix, radix) + [0x30 + v % radix]
  }

  function Spaces(n: nat): (s: seq<byte>)
    ensures |s| == n && forall i :: 0 <= i < n ==> s[i] == SPACE
  {
    seq(n, _ => SPACE)
  }

  lemma DivMod(v: nat, radix: nat)
    requires radix > 0
    ensures v / radix * radix + v % radix == v
  {
  }

  lemma {:induction false} PrintMeaning(v: nat, radix: nat)
    requires 2 <= radix <= 10
    ensures Positional(Print(v, radix), radix) == v
  {
    hide Positional;
    var p := Print(v, radix);
    if v < radix {
      NoDigits(radix);
      OneMore([], v, radix);
      assert [] + [0x30 + v] == p;
    } else {
      var q := Print(v / radix, radix);
      PrintMeaning(v / radix, radix);
      OneMore(q, v % radix, radix);
      DivMod(v, radix);
    }
  }

  lemma NoDigits(radix: nat)
    ensures Positional([], radix) == 0
  {
  }

  /** A digit behind others. */
  lemma OneMore(q: seq<byte>, d: nat, radix: nat)
    requires radix <= 10 && d < radix && AllDigits(q, radix)
    ensures AllDigits(q + [0x30 + d], radix)
    ensures Positional(q + [0x30 + d], radix) == Positional(q, radix) * radix + d
  {
    var p := q + [0x30 + d];
    assert p[..|p| - 1] == q;
  }

  /** Parsing inverts left-justified, space-padded printing of every 64-bit number. */
  lemma DigitsRoundTrip(v: u64, radix: nat, pad: nat)
    requires 2 <= radix <= 10
    ensures DigitsValue(Print(v, radix) + Spaces(pad), radix) == Some(v)
  {
    var p := Print(v, radix);
    var s := p + Spaces(pad);
    FirstIndexUnique(s, SPACE, |p|);
    assert BeforeSpace(s) == p;
    PrintMeaning(v, radix);
  }

  /** Up to the first `x`, or everything. */
  function Until(s: seq<byte>, x: byte): seq<byte>
  {
    s[..FirstIndex(s, x)]
  }

  /** A name stored in the header itself: a slash allows embedded spaces. */
  function ShortName(name: seq<byte>): seq<byte>
  {
    if SLASH in name then Until(name, SLASH) else Until(name, SPACE)
  }

  const NEWLINE: byte := 0x0a
  const NUL: byte := 0x00

  /** The entry at the start of the rest of a name table: up to a slash and newline, or a null byte. */
  function EntryName(d: seq<byte>): Result<seq<byte>>
  {
    var len := Min(FirstIndex(d, NEWLINE), FirstIndex(d, NUL));
    if len == |d| then Err
    else if d[len] == NEWLINE then
      if len < 1 || d[len - 1] != SLASH then Err else Ok(d[..len - 1])
    else Ok(d[..len])
  }

  /** `parse_sysv_extended_name`: a decimal offset into the name table. */
  function SysvName(digits: seq<byte>, names: seq<byte>): (r: Result<seq<byte>>)
    ensures names == [] ==> r.Err?
  {
    var offset := DigitsValue(digits, 10);
    if offset.None? || offset.value > |names| then Err else EntryName(names[offset.value..])
  }

  /** GNU entries end in a slash and a newline, COFF entries in a null byte. */
  lemma EntryNameMeaning(name: seq<byte>, after: seq<byte>)
    requires NEWLINE !in name && NUL !in name
    ensures EntryName(name + [SLASH, NEWLINE] + after) == Ok(name)
    ensures EntryName(name + [NUL] + after) == Ok(name)
  {
    var d := name + [SLASH, NEWLINE] + after;
    FirstIndexUnique(d, NEWLINE, |name| + 1);
    assert FirstIndex(d, NUL) > |name| + 1;
    assert d[..|name|] == name;
    var c := name + [NUL] + after;
    FirstIndexUnique(c, NUL, |name|);
    assert FirstIndex(c, NEWLINE) > |name|;
    assert c[..|name|] == name;
  }

  /** A GNU name table entry at a printed offset reads back. */
  lemma SysvNameRoundTrip(before: seq<byte>, name: seq<byte>, after: seq<byte>, pad: nat)
    requires NEWLINE !in name && NUL !in name && |before| <= U64_MAX
    ensures SysvName(Print(|before|, 10) + Spaces(pad), before + (name + [SLASH, NEWLINE] + after)) == Ok(name)
  {
    DigitsRoundTrip(|before|, 10, pad);
    EntryNameMeaning(name, after);
    assert (before + (name + [SLASH, NEWLINE] + after))[|before|..] == name + [SLASH, NEWLINE] + after;
  }
}
