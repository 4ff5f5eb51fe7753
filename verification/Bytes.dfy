/** The consuming byte-slice reader: every read shortens the slice, and a failed read empties it. */
module Bytes {
  import opened Prelude
  import opened Bits
  import opened Leb128

  class Bytes {
    var data: seq<byte>

    constructor (data: seq<byte>)
      ensures this.data == data
    {
      this.data := data;
    }

    method Skip(offset: nat) returns (r: Result<()>)
      modifies this
      ensures r.Ok? <==> offset <= |old(data)|
      ensures data == if r.Ok? then old(data)[offset..] else []
    {
      if offset <= |data| {
        data := data[offset..];
        return Ok(());
      }
      data := [];
      return Err;
    }

    method ReadBytes(count: nat) returns (r: Result<seq<byte>>)
      modifies this
      ensures r.Ok? <==> count <= |old(data)|
      ensures r.Ok? ==> |r.value| == count && r.value + data == old(data)
      ensures r.Err? ==> data == []
    {
      if count <= |data| {
        r := Ok(data[..count]);
        data := data[count..];
      } else {
        data := [];
        r := Err;
      }
    }

    /** `read::<u8>` */
    method ReadByte() returns (r: Result<byte>)
      modifies this
      ensures r.Ok? <==> old(data) != []
      ensures r.Ok? ==> r.value == old(data)[0] && data == old(data)[1..]
      ensures r.Err? ==> data == []
    {
      if data != [] {
        r := Ok(data[0]);
        data := data[1..];
      } else {
        r := Err;
      }
    }

    /** Reads up to the first null byte and past it. */
    method ReadString() returns (r: Result<seq<byte>>)
      modifies this
      ensures r.Ok? <==> 0 in old(data)
      ensures r.Ok? ==> 0 !in r.value && r.value + [0] + data == old(data)
      ensures r.Err? ==> data == []
    {
      hide FirstIndex;
      var n := FirstIndex(data, 0);
      ghost var before := data;
      if n < |data| {
        r := ReadBytes(n);
        var _ := Skip(1);
        assert before[..n] + [0] + before[n + 1..] == before;
      } else {
        data := [];
        r := Err;
      }
    }

    /**
     `read_uleb128`. A failure consumes everything when the data ends inside the encoding,
     and ten bytes when the tenth does not fit.
     */
    method ReadUleb128() returns (r: Result<nat>)
      modifies this
      ensures UlebReads(old(data), r, data)
      ensures r.Err? ==> data == if |old(data)| < 10 then [] else old(data)[10..]
    {
      var result, shift := 0, 0;
      ghost var s, k := data, 0;
      while true
        invariant k <= 9 && k <= |s| && shift == 7 * k
        invariant data == s[k..] && result == Value(s[..k])
        invariant Continues(s, k)
        decreases 10 - k
      {
        var b := ReadByte();
        if b.Err? {
          return Err;
        }
        if shift == 63 && b.value != 0x00 && b.value != 0x01 {
          UlebOverflow(s);
          return Err;
        }
        UlebStep(s, k);
        result := Or(result, Shl64(And(b.value, 0x7f), shift));
        shift, k := shift + 7, k + 1;
        if And(b.value, 0x80) == 0 {
          return Ok(result);
        }
      }
    }

    /** `read_sleb128`; `result` is the bit pattern of the signed accumulator. */
    method ReadSleb128() returns (r: Result<int>)
      modifies this
      ensures SlebReads(old(data), r, data)
      ensures r.Err? ==> data == if |old(data)| < 10 then [] else old(data)[10..]
    {
      var result, shift := 0, 0;
      ghost var s, k := data, 0;
      while true
        invariant k <= 9 && k <= |s| && shift == 7 * k
        invariant data == s[k..] && result == Value(s[..k])
        invariant Continues(s, k)
        decreases 10 - k
      {
        var b := ReadByte();
        if b.Err? {
          return Err;
        }
        if shift == 63 && b.value != 0x00 && b.value != 0x7f {
          SlebOverflow(s);
          return Err;
        }
        SlebStep(s, k);
        result := Or(result, Shl64(And(b.value, 0x7f), shift));
        shift, k := shift + 7, k + 1;
        if And(b.value, 0x80) == 0 {
          SlebFinish(s, k);
          if shift < 64 && And(b.value, 0x40) != 0 {
            result := Or(result, Shl64(U64_MAX, shift));
          }
          return Ok(ToI64(result));
        }
      }
    }
  }

  /** Writing any `u64` and reading it back, whatever surrounds it. */
  method RoundTripUnsigned(val: nat, tail: seq<byte>) returns (r: Result<nat>)
    requires val <= U64_MAX
    ensures r == Ok(val)
  {
    var out, _ := WriteUleb128([], val);
    var bytes := new Bytes(out + tail);
    assert out == Uleb(val);
    r := bytes.ReadUleb128();
    UlebRoundTrip(val, tail, r, bytes.data);
  }

  /** Writing any `i64` and reading it back. */
  method RoundTripSigned(val: int, tail: seq<byte>) returns (r: Result<int>)
    requires FitsI64(val)
    ensures r == Ok(val)
  {
    var out, _ := WriteSleb128([], val);
    var bytes := new Bytes(out + tail);
    assert out == Sleb(val);
    r := bytes.ReadSleb128();
    SlebRoundTrip(val, tail, r, bytes.data);
  }
}
