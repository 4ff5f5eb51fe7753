/** Values shared by the whole model: bytes, machine-word bounds, results, and first-occurrence search. */
module Prelude {

  /** One octet. */
  type byte = b: int | 0 <= b < 256

  type u64 = x: int | 0 <= x <= 0xffff_ffff_ffff_ffff

  const U32_MAX: nat := 0xffff_ffff
  const U64_MAX: nat := 0xffff_ffff_ffff_ffff

  datatype Option<+T> = None | Some(value: T)

  /** The outcome of a fallible read; the error text of the program is not modelled. */
  datatype Result<+T> = Ok(value: T) | Err

  /** Every value as the outcome of a successful read. */
  function Successes<T>(s: seq<T>): (r: seq<Result<T>>)
    ensures |r| == |s| && forall i :: 0 <= i < |s| ==> r[i] == Ok(s[i])
  {
    seq(|s|, i requires 0 <= i < |s| => Ok(s[i]))
  }

  /** The bytes of an ASCII literal. */
  function Ascii(s: string): (r: seq<byte>)
    ensures |r| == |s|
  {
    seq(|s|, i requires 0 <= i < |s| => s[i] as int % 0x100)
  }

  function Min(a: int, b: int): int
  {
    if a <= b then a else b
  }

  /** Copying `chunk` into `s` at a position. */
  function Overwrite(s: seq<byte>, at: nat, chunk: seq<byte>): (r: seq<byte>)
    requires at + |chunk| <= |s|
    ensures |r| == |s| && r[..at] == s[..at] && r[at + |chunk|..] == s[at + |chunk|..]
    ensures r[at..at + |chunk|] == r[at..][..|chunk|] == chunk && r[..at + |chunk|] == s[..at] + chunk
  {
    s[..at] + chunk + s[at + |chunk|..]
  }

  lemma Regroup<T>(a: seq<T>, b: seq<T>, c: seq<T>)
    ensures a + (b + c) == (a + b) + c
  {
  }

  lemma SliceOfSlice<T>(s: seq<T>, a: nat, b: nat, c: nat, d: nat)
    requires a <= b <= |s| && c <= d <= b - a
    ensures s[a..b][c..d] == s[a + c..a + d]
  {
    var t := s[a..b];
    forall i | 0 <= i < d - c
      ensures t[c..d][i] == s[a + c..a + d][i]
    {
      assert t[c + i] == s[a + (c + i)];
    }
  }

  /** The position of the first `x` in `s`, or `|s|` when there is none: the contract of `memchr`. */
  function FirstIndex(s: seq<byte>, x: byte): (k: nat)
    ensures k <= |s|
    ensures forall i :: 0 <= i < k ==> s[i] != x
    ensures k < |s| ==> s[k] == x
  {
    if s == [] || s[0] == x then 0 else 1 + FirstIndex(s[1..], x)
  }

  /** The three facts above determine the position. */
  lemma FirstIndexUnique(s: seq<byte>, x: byte, k: nat)
    requires k <= |s|
    requires forall i :: 0 <= i < k ==> s[i] != x
    requires k < |s| ==> s[k] == x
    ensures FirstIndex(s, x) == k
  {
    if FirstIndex(s, x) < k {
      assert false;
    }
  }

  /** The order of byte strings: by the first byte that differs, a prefix first. */
  predicate LexLe(a: seq<byte>, b: seq<byte>)
  {
    a == [] || (b != [] && (a[0] < b[0] || (a[0] == b[0] && LexLe(a[1..], b[1..]))))
  }

  /** One string is a prefix of the other, or the first byte that differs is smaller. */
  lemma {:induction false} LexLeMeaning(a: seq<byte>, b: seq<byte>)
    ensures LexLe(a, b) <==> a <= b || exists k :: Differ(a, b, k) && a[k] < b[k]
  {
    if a == [] || b == [] {
    } else if a[0] != b[0] {
      assert Differ(a, b, 0);
    } else {
      LexLeMeaning(a[1..], b[1..]);
      assert a == [a[0]] + a[1..] && b == [b[0]] + b[1..];
      assert a <= b <==> a[1..] <= b[1..];
      if k :| Differ(a[1..], b[1..], k) && a[1..][k] < b[1..][k] {
        assert a[..k + 1] == [a[0]] + a[1..][..k] && b[..k + 1] == [b[0]] + b[1..][..k];
        assert Differ(a, b, k + 1);
      }
      if k :| Differ(a, b, k) && a[k] < b[k] {
        assert a[1..][..k - 1] == a[..k][1..] && b[1..][..k - 1] == b[..k][1..];
        assert Differ(a[1..], b[1..], k - 1);
      }
    }
  }

  /** Byte `k` is the first that differs. */
  predicate Differ(a: seq<byte>, b: seq<byte>, k: int)
  {
    0 <= k < |a| && k < |b| && a[..k] == b[..k] && a[k] != b[k]
  }

  lemma {:induction false} LexLeTotal(a: seq<byte>, b: seq<byte>)
    ensures LexLe(a, b) || LexLe(b, a)
  {
    if a != [] && b != [] && a[0] == b[0] {
      LexLeTotal(a[1..], b[1..]);
    }
  }

  lemma {:induction false} LexLeAntisymmetric(a: seq<byte>, b: seq<byte>)
    requires LexLe(a, b) && LexLe(b, a)
    ensures a == b
  {
    if a != [] {
      LexLeAntisymmetric(a[1..], b[1..]);
      assert a == [a[0]] + a[1..] && b == [b[0]] + b[1..];
    }
  }

  lemma {:induction false} LexLeTransitive(a: seq<byte>, b: seq<byte>, c: seq<byte>)
    requires LexLe(a, b) && LexLe(b, c)
    ensures LexLe(a, c)
  {
    if a != [] && a[0] == b[0] && b[0] == c[0] {
      LexLeTransitive(a[1..], b[1..], c[1..]);
    }
  }
}
