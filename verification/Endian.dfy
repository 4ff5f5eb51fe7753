/** Fixed-width integers as bytes, in either byte order. */
module Endian {
  import opened Prelude
  import Bits

  datatype Endian = Little | Big

  function Capacity(w: nat): (c: nat)
    ensures c > 0
  {
    if w == 0 then 1 else 0x100 * Capacity(w - 1)
  }

  /** The low `w` bytes of `v`: writing truncates as an integer cast does. */
  function Put(e: Endian, v: nat, w: nat): (s: seq<byte>)
    ensures |s| == w
  {
    if w == 0 then []
    else match e
      case Little => [v % 0x100] + Put(e, v / 0x100, w - 1)
      case Big => Put(e, v / 0x100, w - 1) + [v % 0x100]
  }

  function Get(e: Endian, s: seq<byte>): nat
  {
    if s == [] then 0
    else match e
      case Little => s[0] + 0x100 * Get(e, s[1..])
      case Big => 0x100 * Get(e, s[..|s| - 1]) + s[|s| - 1]
  }

  /** What is read back is the number modulo the width. */
  lemma {:induction false} GetPut(e: Endian, v: nat, w: nat)
    ensures Get(e, Put(e, v, w)) == v % Capacity(w)
  {
    if w == 0 {
    } else {
      var s, t := Put(e, v, w), Put(e, v / 0x100, w - 1);
      GetPut(e, v / 0x100, w - 1);
      assert e.Little? ==> s[1..] == t;
      assert e.Big? ==> s[..|s| - 1] == t;
      SplitModulo(v, Capacity(w - 1));
    }
  }

  lemma SplitModulo(v: nat, c: nat)
    requires c > 0
    ensures v % (0x100 * c) == v % 0x100 + 0x100 * (v / 0x100 % c)
  {
    var h, d := v / 0x100, v % 0x100;
    var q, r := h / c, h % c;
    assert v == 0x100 * (c * q + r) + d;
    assert v == (0x100 * c) * q + (0x100 * r + d);
    Bits.DivModUnique(v, 0x100 * c, q, 0x100 * r + d);
  }

  lemma CapacityValues()
    ensures Capacity(1) == 0x100 && Capacity(2) == 0x1_0000
    ensures Capacity(4) == 0x1_0000_0000
    ensures Capacity(8) == 0x1_0000_0000_0000_0000
  {
    assert Capacity(2) == 0x1_0000;
    assert Capacity(4) == 0x1_0000 * Capacity(2);
    assert Capacity(6) == 0x1_0000 * Capacity(4);
    assert Capacity(8) == 0x1_0000 * Capacity(6);
  }

  /** Numbers within the width read back unchanged. */
  lemma GetPutFits(e: Endian, v: nat, w: nat)
    requires v < Capacity(w)
    ensures Get(e, Put(e, v, w)) == v
  {
    GetPut(e, v, w);
  }

  /** An array of `n` numbers of width `w`. */
  function Words(e: Endian, s: seq<byte>, w: nat, n: nat): (r: seq<nat>)
    requires n * w <= |s|
    ensures |r| == n
    decreases n
  {
    if n == 0 then []
    else
      assert w <= n * w && (n - 1) * w == n * w - w;
      [Get(e, s[..w])] + Words(e, s[w..], w, n - 1)
  }

  function PutWords(e: Endian, v: seq<nat>, w: nat): (s: seq<byte>)
    ensures |s| == |v| * w
  {
    if v == [] then [] else Put(e, v[0], w) + PutWords(e, v[1..], w)
  }

  lemma {:induction false} WordsOfPut(e: Endian, v: seq<nat>, w: nat, rest: seq<byte>)
    requires forall i :: 0 <= i < |v| ==> v[i] < Capacity(w)
    ensures Words(e, PutWords(e, v, w) + rest, w, |v|) == v
  {
    if v != [] {
      var head, tail := Put(e, v[0], w), PutWords(e, v[1..], w);
      var s := PutWords(e, v, w) + rest;
      assert s == head + (tail + rest);
      assert s[..w] == head && s[w..] == tail + rest;
      GetPutFits(e, v[0], w);
      WordsOfPut(e, v[1..], w, rest);
    }
  }
}
