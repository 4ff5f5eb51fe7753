/** Reads of a byte slice: the specification that every other reader must agree with. */
module ReadRef {
  import opened Prelude

  /** `read_bytes_at` of a slice. */
  function BytesAt(data: seq<byte>, offset: nat, size: nat): (r: Result<seq<byte>>)
    ensures r.Ok? ==> |r.value| == size
  {
    if size == 0 then Ok([])
    else if offset + size <= |data| then Ok(data[offset..offset + size])
    else Err
  }

  /** `read_bytes_at_until` of a slice: the bytes before the first delimiter of the range. */
  function BytesUntil(data: seq<byte>, start: nat, end: nat, delimiter: byte): (r: Result<seq<byte>>)
    ensures r.Ok? <==> start <= end <= |data| && delimiter in data[start..end]
    ensures r.Ok? ==> Delimited(data, start, delimiter, r.value) && start + |r.value| < end
  {
    if start <= end <= |data| && FirstIndex(data[start..end], delimiter) < end - start then
      Ok(data[start..end][..FirstIndex(data[start..end], delimiter)])
    else Err
  }

  /** `s` is the string at `start`: it is in the data, free of the delimiter, and followed by it. */
  ghost predicate Delimited(data: seq<byte>, start: nat, delimiter: byte, s: seq<byte>)
  {
    start + |s| < |data| && data[start..start + |s|] == s && data[start + |s|] == delimiter && delimiter !in s
  }

  /** A position and a delimiter determine the string, whatever the range. */
  lemma DelimitedUnique(data: seq<byte>, start: nat, delimiter: byte, s: seq<byte>, t: seq<byte>)
    requires Delimited(data, start, delimiter, s) && Delimited(data, start, delimiter, t)
    ensures s == t
  {
    assert forall i :: 0 <= i < |s| ==> s[i] == data[start + i];
    assert forall i :: 0 <= i < |t| ==> t[i] == data[start + i];
  }

  /** A known string answers every range that reaches past its delimiter, and no other. */
  lemma UntilOfDelimited(data: seq<byte>, start: nat, end: nat, delimiter: byte, s: seq<byte>)
    requires Delimited(data, start, delimiter, s)
    ensures BytesUntil(data, start, end, delimiter) == if start + |s| < end <= |data| then Ok(s) else Err
  {
    var r := BytesUntil(data, start, end, delimiter);
    if r.Ok? {
      DelimitedUnique(data, start, delimiter, s, r.value);
    }
    if start + |s| < end <= |data| {
      assert data[start..end][|s|] == delimiter;
    }
  }
}
