/**
 The caching stream reader, and its restriction to a window of the stream. The stream may return
 short reads and may fail; whatever it does, the cache answers as the slice reader would, up to
 two documented differences for delimited strings that are stated exactly.
 */
module ReadCache {
  import opened Prelude
  import opened ReadRef

  /** A seekable stream over fixed contents, with `Read + Seek` behaviour. */
  class Stream {
    const data: seq<byte>
    var pos: nat
    /** How many calls failed with an I/O error. */
    var errors: nat

    constructor (data: seq<byte>)
      requires |data| < U64_MAX
      ensures this.data == data && errors == 0
    {
      this.data := data;
      pos, errors := 0, 0;
    }

    /** Seeks to the end. */
    method Len() returns (r: Result<u64>)
      requires |data| < U64_MAX
      modifies this
      ensures errors >= old(errors) && (r.Err? <==> errors > old(errors))
      ensures r.Ok? ==> r.value == |data|
    {
      if * {
        errors := errors + 1;
        return Err;
      }
      pos := |data|;
      return Ok(|data|);
    }

    method Seek(to: nat) returns (r: Result<nat>)
      modifies this
      ensures errors >= old(errors) && (r.Err? <==> errors > old(errors))
      ensures r.Ok? ==> pos == to
    {
      if * {
        errors := errors + 1;
        return Err;
      }
      pos := to;
      return Ok(to);
    }

    /** Returns any non-empty amount that is available, and nothing only at the end or for an empty buffer. */
    method Read(size: nat) returns (r: Result<seq<byte>>)
      modifies this
      ensures errors >= old(errors) && (r.Err? <==> errors > old(errors))
      ensures r.Ok? ==>
        var n := |r.value|;
        n <= size && (n == 0 <==> size == 0 || old(pos) >= |data|) &&
        (n > 0 ==> pos == old(pos) + n <= |data| && r.value == data[old(pos)..pos])
    {
      if * {
        errors := errors + 1;
        return Err;
      }
      if size == 0 || pos >= |data| {
        return Ok([]);
      }
      var n :| 0 < n <= size && pos + n <= |data|;
      r := Ok(data[pos..pos + n]);
      pos := pos + n;
    }

    /** Fills the buffer or fails; running out of data is not counted as an I/O error. */
    method ReadExact(size: nat) returns (r: Result<seq<byte>>)
      modifies this
      ensures errors >= old(errors)
      ensures r.Ok? ==> old(pos) + size <= |data| && r.value == data[old(pos)..old(pos) + size]
      ensures errors == old(errors) && old(pos) + size <= |data| ==> r.Ok?
    {
      if * {
        errors := errors + 1;
        return Err;
      }
      if pos + size > |data| {
        return Err;
      }
      r := Ok(data[pos..pos + size]);
      pos := pos + size;
    }
  }

  /** The vacant arm of `read_bytes_at_until`: reads in steps of 256 bytes until the delimiter appears. */
  method FillUntil(read: Stream, start: nat, maxCheck: nat, delimiter: byte) returns (r: Result<seq<byte>>)
    requires read.pos == start && start + maxCheck <= |read.data|
    modifies read
    ensures read.errors >= old(read.errors)
    ensures r.Ok? || read.errors == old(read.errors) ==>
      r == BytesUntil(read.data, start, start + maxCheck, delimiter)
  {
    hide BytesUntil, FirstIndex, Resize, Overwrite;
    var bytes: seq<byte>, checked := [], 0;
    while true
      invariant read.errors >= old(read.errors)
      invariant checked <= |bytes| <= maxCheck && |bytes| <= checked + 256
      invariant checked == maxCheck ==> maxCheck == 0
      invariant read.pos == start + checked
      invariant bytes[..checked] == read.data[start..start + checked]
      invariant delimiter !in read.data[start..start + checked]
      decreases maxCheck - checked
    {
      bytes := Resize(bytes, Min(checked + 256, maxCheck), checked);
      var chunk := read.Read(|bytes| - checked);
      if chunk.Err? {
        return Err;
      }
      var n := |chunk.value|;
      if n == 0 {
        return Err;
      }
      bytes := Overwrite(bytes, checked, chunk.value);
      assert bytes[checked..][..n] == chunk.value;
      var k := FirstIndex(bytes[checked..][..n], delimiter);
      ChunkStep(read.data, start, start + maxCheck, delimiter, checked, n, bytes);
      if k < n {
        bytes := bytes[..checked + k];
        return Ok(bytes);
      }
      checked := checked + n;
      if checked >= maxCheck {
        return Err;
      }
    }
  }

  type Strings = map<(u64, byte), seq<byte>>

  const MAX_STRING: nat := 4096

  /** What a delimited read returns when the stream does not fail, given the strings cached so far. */
  function CachedUntil(data: seq<byte>, strings: Strings, start: u64, end: u64, delimiter: byte): Result<seq<byte>>
  {
    if !(start <= end <= |data|) then Err
    else if (start, delimiter) in strings then Ok(strings[(start, delimiter)])
    else BytesUntil(data, start, Min(end, start + MAX_STRING), delimiter)
  }

  ghost predicate ValidStrings(data: seq<byte>, strings: Strings)
  {
    forall k :: k in strings ==> Delimited(data, k.0, k.1, strings[k]) && |strings[k]| < MAX_STRING
  }

  /** Remembering a result. */
  function Remember(strings: Strings, start: u64, delimiter: byte, r: Result<seq<byte>>): Strings
  {
    if r.Ok? then strings[(start, delimiter) := r.value] else strings
  }

  class ReadCache {
    const read: Stream
    var bufs: map<(u64, u64), seq<byte>>
    var strings: Strings
    var len: Option<u64>

    ghost predicate Valid()
      reads this
    {
      && |read.data| < U64_MAX
      && (len.Some? ==> len.value == |read.data|)
      && (forall k :: k in bufs ==> k.0 + k.1 <= |read.data| && bufs[k] == read.data[k.0..k.0 + k.1])
      && ValidStrings(read.data, strings)
    }

    constructor (read: Stream)
      requires |read.data| < U64_MAX
      ensures Valid() && this.read == read && bufs == map[] && strings == map[] && len == None
    {
      this.read := read;
      bufs, strings, len := map[], map[], None;
    }

    /** The length of the stream, memoized. */
    method Len() returns (r: Result<u64>)
      requires Valid()
      modifies this`len, read
      ensures Valid() && read.errors >= old(read.errors)
      ensures r.Ok? ==> r.value == |read.data|
      ensures r.Err? <==> read.errors > old(read.errors)
      ensures r.Ok? ==> len == Some(|read.data|)
    {
      match len {
        case Some(l) => r := Ok(l);
        case None =>
          r := read.Len();
          if r.Ok? {
            len := Some(r.value);
          }
      }
    }

    method RangeInBounds(start: u64, end: u64) returns (ok: bool)
      requires Valid()
      modifies this`len, read
      ensures Valid() && read.errors >= old(read.errors)
      ensures ok ==> start <= end <= |read.data|
      ensures read.errors == old(read.errors) ==> (ok <==> start <= end <= |read.data|)
    {
      if start > end {
        return false;
      }
      var l := Len();
      return l.Ok? && end <= l.value;
    }

    /** `read_bytes_at` */
    method ReadBytesAt(offset: u64, size: u64) returns (r: Result<seq<byte>>)
      requires Valid()
      modifies this`bufs, this`len, read
      ensures Valid() && read.errors >= old(read.errors)
      ensures r.Ok? || read.errors == old(read.errors) ==> r == BytesAt(read.data, offset, size)
    {
      if size == 0 {
        return Ok([]);
      }
      var inBounds := RangeInBounds(offset, Min(offset + size, U64_MAX));
      if !inBounds {
        return Err;
      }
      if (offset, size) in bufs {
        return Ok(bufs[(offset, size)]);
      }
      var sought := read.Seek(offset);
      if sought.Err? {
        return Err;
      }
      r := read.ReadExact(size);
      if r.Ok? {
        bufs := bufs[(offset, size) := r.value];
      }
    }

    /** `read_bytes_at_until` */
    method ReadBytesAtUntil(start: u64, end: u64, delimiter: byte) returns (r: Result<seq<byte>>)
      requires Valid()
      modifies this`strings, this`len, read
      ensures Valid() && read.errors >= old(read.errors)
      ensures r.Ok? || read.errors == old(read.errors) ==>
        r == CachedUntil(read.data, old(strings), start, end, delimiter)
      ensures strings == Remember(old(strings), start, delimiter, r)
    {
      hide BytesUntil, ValidStrings;
      RememberValid(read.data, strings, start, end, delimiter);
      var inBounds := RangeInBounds(start, end);
      if !inBounds {
        return Err;
      }
      if (start, delimiter) in strings {
        return Ok(strings[(start, delimiter)]);
      }
      var sought := read.Seek(start);
      if sought.Err? {
        return Err;
      }
      r := FillUntil(read, start, Min(end - start, MAX_STRING), delimiter);
      if r.Ok? {
        strings := strings[(start, delimiter) := r.value];
      }
    }

    /** `clear`: frees the buffers; the strings stay. */
    method Clear()
      requires Valid()
      modifies this`bufs
      ensures Valid() && bufs == map[]
    {
      bufs := map[];
    }
  }

  /** A view of the stream restricted to a window; the cache is shared. */
  class ReadCacheRange {
    const r: ReadCache
    const offset: u64
    const size: u64

    constructor (r: ReadCache, offset: u64, size: u64)
      ensures this.r == r && this.offset == offset && this.size == size
    {
      this.r, this.offset, this.size := r, offset, size;
    }

    /** `read_bytes_at` of a window */
    method ReadBytesAt(at: u64, count: u64) returns (res: Result<seq<byte>>)
      requires r.Valid()
      modifies r`bufs, r`len, r.read
      ensures r.Valid() && r.read.errors >= old(r.read.errors)
      ensures res.Ok? || r.read.errors == old(r.read.errors) ==>
        res == WindowBytes(r.read.data, offset, size, at, count)
    {
      if count == 0 {
        return Ok([]);
      }
      if at + count > U64_MAX {
        return Err;
      }
      if at + count > size {
        return Err;
      }
      if offset + at > U64_MAX {
        return Err;
      }
      res := r.ReadBytesAt(offset + at, count);
    }

    /** `read_bytes_at_until` of a window */
    method ReadBytesAtUntil(start: u64, end: u64, delimiter: byte) returns (res: Result<seq<byte>>)
      requires r.Valid()
      modifies r`strings, r`len, r.read
      ensures r.Valid() && r.read.errors >= old(r.read.errors)
      ensures res.Ok? || r.read.errors == old(r.read.errors) ==>
        res == WindowUntil(r.read.data, old(r.strings), offset, size, start, end, delimiter)
      ensures r.read.errors == old(r.read.errors) ==>
        r.strings == WindowStrings(r.read.data, old(r.strings), offset, start, end, delimiter)
    {
      hide CachedUntil, Remember;
      if offset + start > U64_MAX || offset + end > U64_MAX {
        return Err;
      }
      res := r.ReadBytesAtUntil(offset + start, offset + end, delimiter);
      if res.Err? {
        return Err;
      }
      if start + |res.value| > size {
        return Err;
      }
    }
  }

  /** What `read_bytes_at` of a window returns when the stream does not fail. */
  function WindowBytes(data: seq<byte>, offset: u64, size: u64, at: u64, count: u64): Result<seq<byte>>
  {
    if count == 0 then Ok([])
    else if at + count > size then Err
    else BytesAt(data, offset + at, count)
  }

  /** What `read_bytes_at_until` of a window returns when the stream does not fail. */
  function WindowUntil(data: seq<byte>, strings: Strings, offset: u64, size: u64, start: u64, end: u64,
                       delimiter: byte): Result<seq<byte>>
  {
    if offset + start > U64_MAX || offset + end > U64_MAX then Err
    else
      var r := CachedUntil(data, strings, offset + start, offset + end, delimiter);
      if r.Ok? && start + |r.value| > size then Err else r
  }

  /** The strings cached after a delimited read through a window, which remembers even what it rejects. */
  function WindowStrings(data: seq<byte>, strings: Strings, offset: u64, start: u64, end: u64, d: byte): Strings
  {
    if offset + start > U64_MAX || offset + end > U64_MAX then strings
    else Remember(strings, offset + start, d, CachedUntil(data, strings, offset + start, offset + end, d))
  }

  /** Zero-padding to a greater length. */
  function Resize(s: seq<byte>, n: nat, ghost keep: nat): (r: seq<byte>)
    requires keep <= |s| <= n
    ensures |r| == n && r[..keep] == s[..keep]
  {
    s + seq(n - |s|, _ => 0)
  }

  lemma Joined(data: seq<byte>, start: nat, m: nat, n: nat)
    requires start + m + n <= |data|
    ensures data[start..start + m] + data[start + m..start + m + n] == data[start..start + m + n]
  {
  }

  /** What searching the chunk at `m` shows about the whole range. */
  lemma ChunkStep(data: seq<byte>, start: nat, end: nat, delimiter: byte, m: nat, n: nat, buffer: seq<byte>)
    requires start + m + n <= end <= |data| && m + n <= |buffer|
    requires delimiter !in data[start..start + m]
    requires buffer[..m + n] == data[start..start + m] + data[start + m..start + m + n]
    ensures buffer[..m + n] == data[start..start + m + n]
    ensures var k := FirstIndex(data[start + m..start + m + n], delimiter);
      if k < n then BytesUntil(data, start, end, delimiter) == Ok(buffer[..m + k])
      else delimiter !in data[start..start + m + n]
  {
    Joined(data, start, m, n);
    var k := FirstIndex(data[start + m..start + m + n], delimiter);
    if k < n {
      SliceOfSlice(data, start, start + m + n, 0, m + k);
      assert buffer[..m + k] == buffer[..m + n][..m + k] == data[start..start + (m + k)];
      DelimiterFound(data, start, end, delimiter, m, k);
    }
  }

  lemma DelimiterFound(data: seq<byte>, start: nat, end: nat, delimiter: byte, m: nat, k: nat)
    requires start + m + k < end <= |data|
    requires delimiter !in data[start..start + m]
    requires delimiter !in data[start + m..start + m + k]
    requires data[start + m + k] == delimiter
    ensures BytesUntil(data, start, end, delimiter) == Ok(data[start..start + (m + k)])
  {
    Joined(data, start, m, k);
    UntilOfDelimited(data, start, end, delimiter, data[start..start + (m + k)]);
  }

  // ---------------------------------------------------------------------------------------------
  // Agreement with the slice reader.

  /**
   The two ways in which a cached string read may differ from the slice reader: the string is
   cached and its delimiter lies past the range, or it is not cached and too long to be found.
   */
  predicate Differs(data: seq<byte>, strings: Strings, start: u64, end: u64, delimiter: byte)
  {
    start <= end <= |data| &&
    if (start, delimiter) in strings
    then start + |strings[(start, delimiter)]| >= end
    else
      var r := BytesUntil(data, start, end, delimiter);
      r.Ok? && |r.value| >= 4096
  }

  lemma UntilAgreement(data: seq<byte>, strings: Strings, start: u64, end: u64, delimiter: byte)
    requires ValidStrings(data, strings)
    ensures CachedUntil(data, strings, start, end, delimiter) == BytesUntil(data, start, end, delimiter)
      <==> !Differs(data, strings, start, end, delimiter)
  {
    var cached := CachedUntil(data, strings, start, end, delimiter);
    var slice := BytesUntil(data, start, end, delimiter);
    if start <= end <= |data| {
      if (start, delimiter) in strings {
        UntilOfDelimited(data, start, end, delimiter, strings[(start, delimiter)]);
      } else if cached.Ok? {
        UntilOfDelimited(data, start, end, delimiter, cached.value);
      } else if slice.Ok? {
        UntilOfDelimited(data, start, Min(end, start + MAX_STRING), delimiter, slice.value);
      }
    }
  }

  /** The one-sided guarantees that hold whatever has been cached. */
  lemma UntilGuarantees(data: seq<byte>, strings: Strings, start: u64, end: u64, delimiter: byte)
    requires ValidStrings(data, strings)
    ensures var slice := BytesUntil(data, start, end, delimiter);
      slice.Ok? && |slice.value| < 4096 ==> CachedUntil(data, strings, start, end, delimiter) == slice
    ensures var cached := CachedUntil(data, strings, start, end, delimiter);
      cached.Ok? ==> Delimited(data, start, delimiter, cached.value) && |cached.value| < 4096
    ensures var cached := CachedUntil(data, strings, start, end, delimiter);
      cached.Ok? && start + |cached.value| < end ==> BytesUntil(data, start, end, delimiter) == cached
  {
    var cached := CachedUntil(data, strings, start, end, delimiter);
    var slice := BytesUntil(data, start, end, delimiter);
    if slice.Ok? {
      if cached.Ok? {
        DelimitedUnique(data, start, delimiter, cached.value, slice.value);
      } else {
        UntilOfDelimited(data, start, Min(end, start + MAX_STRING), delimiter, slice.value);
      }
    }
    if cached.Ok? {
      UntilOfDelimited(data, start, end, delimiter, cached.value);
    }
  }

  /** A string cached through a long range is returned for a range that ends before its delimiter. */
  lemma ShortRangeCounterexample()
    ensures var data := [1, 2, 0];
      var first := CachedUntil(data, map[], 0, 3, 0);
      first == Ok([1, 2]) &&
      CachedUntil(data, Remember(map[], 0, 0, first), 0, 1, 0) == Ok([1, 2]) &&
      BytesUntil(data, 0, 1, 0) == Err
  {
    var data: seq<byte> := [1, 2, 0];
    UntilOfDelimited(data, 0, 3, 0, [1, 2]);
  }

  /**
   When a string read through a window inside the file differs from the slice reader on the bytes of
   the window. A range that ends in the window differs as the cache does, unless the window refuses
   a cached string that reaches past it. A range that ends past the window, which the slice reader
   refuses, differs when the file is long enough and the string is found and ends in the window.
   */
  predicate WindowDiffers(data: seq<byte>, strings: Strings, window: u64, length: u64, start: u64, end: u64, d: byte)
    requires window + length <= |data| < U64_MAX
  {
    if end <= length then
      start <= end && Differs(data, strings, window + start, window + end, d) &&
      ((window + start, d) in strings ==> start + |strings[(window + start, d)]| <= length)
    else
      start <= end && window + end <= |data| &&
      if (window + start, d) in strings then start + |strings[(window + start, d)]| <= length
      else Found(data, window + start, window + end, d) && start + FirstIndex(data[window + start..], d) <= length
  }

  /** The search of an uncached read succeeds: the delimiter is in the range and close enough. */
  predicate Found(data: seq<byte>, start: nat, end: nat, d: byte)
    requires start <= end <= |data|
  {
    FirstIndex(data[start..], d) < Min(end - start, MAX_STRING)
  }

  lemma FoundMeaning(data: seq<byte>, start: nat, end: nat, d: byte)
    requires start <= end <= |data|
    ensures var r := BytesUntil(data, start, Min(end, start + MAX_STRING), d);
      && (r.Ok? <==> Found(data, start, end, d))
      && (r.Ok? ==> |r.value| == FirstIndex(data[start..], d))
  {
    var limit := Min(end, start + MAX_STRING);
    var k := FirstIndex(data[start..], d);
    if k < limit - start {
      FirstIndexUnique(data[start..limit], d, k);
    } else {
      FirstIndexUnique(data[start..limit], d, limit - start);
    }
  }

  /** A cached string, through a window. */
  lemma WindowAgreementCached(data: seq<byte>, strings: Strings, window: u64, length: u64, start: u64, end: u64,
                              d: byte)
    requires ValidStrings(data, strings) && window + length <= |data| < U64_MAX && start <= end
    requires window + end <= |data| && (window + start, d) in strings
    ensures WindowUntil(data, strings, window, length, start, end, d)
            == BytesUntil(data[window..window + length], start, end, d)
      <==> !WindowDiffers(data, strings, window, length, start, end, d)
  {
    hide BytesUntil, Delimited, Found;
    var v := strings[(window + start, d)];
    LongRangeRefused(data[window..window + length], start, end, d);
    if end <= length {
      WindowUntilOfSlice(data, window, length, start, end, d);
      UntilOfDelimited(data, window + start, window + end, d, v);
    }
  }

  lemma LongRangeRefused(data: seq<byte>, start: nat, end: nat, d: byte)
    ensures end > |data| || start > end ==> BytesUntil(data, start, end, d) == Err
  {
  }

  /** A string that is not cached, through a window that the range ends in. */
  lemma WindowAgreementInside(data: seq<byte>, strings: Strings, window: u64, length: u64, start: u64, end: u64,
                              d: byte)
    requires ValidStrings(data, strings) && window + length <= |data| < U64_MAX && start <= end <= length
    requires (window + start, d) !in strings
    ensures WindowUntil(data, strings, window, length, start, end, d)
            == BytesUntil(data[window..window + length], start, end, d)
      <==> !WindowDiffers(data, strings, window, length, start, end, d)
  {
    hide BytesUntil, ValidStrings, Differs;
    WindowUntilOfSlice(data, window, length, start, end, d);
    UntilAgreement(data, strings, window + start, window + end, d);
    BytesUntilLength(data, window + start, Min(window + end, window + start + MAX_STRING), d);
  }

  /** A string that is not cached, through a window that the range reaches past. */
  lemma WindowAgreementOutside(data: seq<byte>, strings: Strings, window: u64, length: u64, start: u64, end: u64,
                               d: byte)
    requires window + length <= |data| < U64_MAX && start <= end && length < end
    requires window + end <= |data| && (window + start, d) !in strings
    ensures WindowUntil(data, strings, window, length, start, end, d)
            == BytesUntil(data[window..window + length], start, end, d)
      <==> !WindowDiffers(data, strings, window, length, start, end, d)
  {
    hide BytesUntil, Found, FirstIndex, Differs;
    LongRangeRefused(data[window..window + length], start, end, d);
    FoundMeaning(data, window + start, window + end, d);
  }

  lemma BytesUntilLength(data: seq<byte>, start: nat, end: nat, d: byte)
    requires start <= end <= |data|
    ensures BytesUntil(data, start, end, d).Ok? ==> start + |BytesUntil(data, start, end, d).value| < end
  {
  }

  /**
   Exactly when a window agrees with the slice reader on its bytes, for every range and whatever
   has been cached.
   */
  lemma WindowAgreement(data: seq<byte>, strings: Strings, window: u64, length: u64, start: u64, end: u64, d: byte)
    requires ValidStrings(data, strings) && window + length <= |data| < U64_MAX
    ensures WindowUntil(data, strings, window, length, start, end, d)
            == BytesUntil(data[window..window + length], start, end, d)
      <==> !WindowDiffers(data, strings, window, length, start, end, d)
  {
    hide Differs, Found, BytesUntil, ValidStrings, FirstIndex;
    if start <= end && window + end <= |data| {
      if (window + start, d) in strings {
        WindowAgreementCached(data, strings, window, length, start, end, d);
      } else if end <= length {
        WindowAgreementInside(data, strings, window, length, start, end, d);
      } else {
        WindowAgreementOutside(data, strings, window, length, start, end, d);
      }
    } else {
      LongRangeRefused(data[window..window + length], start, end, d);
    }
  }

  /** A range that ends past the window can be answered with a string that ends in it. */
  lemma LongRangeCounterexample()
    ensures var data := [1, 2, 0];
      WindowUntil(data, map[], 0, 2, 0, 3, 0) == Ok([1, 2]) && BytesUntil(data[0..2], 0, 3, 0) == Err
  {
    var data: seq<byte> := [1, 2, 0];
    UntilOfDelimited(data, 0, 3, 0, [1, 2]);
  }

  // ---------------------------------------------------------------------------------------------
  // Whole runs.

  datatype Op =
    | ReadAt(offset: u64, size: u64)
    | ReadUntil(start: u64, end: u64, delimiter: byte)
    | RangeReadAt(window: u64, length: u64, offset: u64, size: u64)
    | RangeReadUntil(window: u64, length: u64, start: u64, end: u64, delimiter: byte)
    | Clear

  /** The answer to one operation: neither the buffers nor the short reads appear in it. */
  function Answer(data: seq<byte>, strings: Strings, op: Op): Result<seq<byte>>
  {
    match op
    case ReadAt(offset, size) => BytesAt(data, offset, size)
    case ReadUntil(start, end, d) => CachedUntil(data, strings, start, end, d)
    case RangeReadAt(window, length, offset, size) => WindowBytes(data, window, length, offset, size)
    case RangeReadUntil(window, length, start, end, d) => WindowUntil(data, strings, window, length, start, end, d)
    case Clear => Ok([])
  }

  /** The cached strings after one operation. */
  function StringsAfter(data: seq<byte>, strings: Strings, op: Op): Strings
  {
    match op
    case ReadUntil(start, end, d) => Remember(strings, start, d, CachedUntil(data, strings, start, end, d))
    case RangeReadUntil(window, _, start, end, d) => WindowStrings(data, strings, window, start, end, d)
    case _ => strings
  }

  /** The answers of a whole run. */
  function Replay(data: seq<byte>, strings: Strings, ops: seq<Op>): (r: seq<Result<seq<byte>>>)
    ensures |r| == |ops|
    decreases |ops|
  {
    if ops == [] then []
    else [Answer(data, strings, ops[0])] + Replay(data, StringsAfter(data, strings, ops[0]), ops[1..])
  }

  /** `r` is an answer of the slice reader, or differs from it in a permitted way. */
  ghost predicate Agrees(data: seq<byte>, op: Op, r: Result<seq<byte>>)
  {
    match op
    case ReadAt(offset, size) => r == BytesAt(data, offset, size)
    case ReadUntil(start, end, d) => UntilAgrees(data, start, end, d, r)
    case RangeReadAt(window, length, offset, size) =>
      window + length <= |data| ==> r == BytesAt(data[window..window + length], offset, size)
    case RangeReadUntil(window, length, start, end, d) =>
      window + length <= |data| ==>
        && (r.Ok? ==> start + |r.value| <= length &&
                      r.value == data[window..window + length][start..start + |r.value|])
        && (end <= length ==> UntilAgreesShort(data[window..window + length], start, end, d, r))
        && (end > length && r.Ok? && start + |r.value| < length ==>
             r == BytesUntil(data[window..window + length], start, length, d))
    case Clear => true
  }

  /** Equal whenever the slice reader finds a short string, or the answer ends inside the range. */
  ghost predicate UntilAgreesShort(data: seq<byte>, start: u64, end: u64, d: byte, r: Result<seq<byte>>)
  {
    var slice := BytesUntil(data, start, end, d);
    && (slice.Ok? && |slice.value| < 4096 ==> r == slice)
    && (r.Ok? && start + |r.value| < end ==> r == slice)
  }

  ghost predicate UntilAgrees(data: seq<byte>, start: u64, end: u64, d: byte, r: Result<seq<byte>>)
  {
    UntilAgreesShort(data, start, end, d, r) && (r.Ok? ==> Delimited(data, start, d, r.value))
  }

  lemma WindowOfSlice(data: seq<byte>, window: u64, length: u64, offset: u64, size: u64)
    requires window + length <= |data| < U64_MAX
    ensures WindowBytes(data, window, length, offset, size) == BytesAt(data[window..window + length], offset, size)
  {
    if offset + size <= length {
      SliceOfSlice(data, window, window + length, offset, offset + size);
    }
  }

  lemma WindowUntilOfSlice(data: seq<byte>, window: u64, length: u64, start: u64, end: u64, d: byte)
    requires window + length <= |data| && end <= length
    ensures BytesUntil(data[window..window + length], start, end, d) ==
            BytesUntil(data, window + start, window + end, d)
  {
    if start <= end {
      SliceOfSlice(data, window, window + length, start, end);
    }
  }

  /** An accepted string lies inside the window. */
  lemma WindowUntilInside(data: seq<byte>, strings: Strings, window: u64, length: u64, start: u64, end: u64, d: byte)
    requires ValidStrings(data, strings) && window + length <= |data| < U64_MAX
    ensures var r := WindowUntil(data, strings, window, length, start, end, d);
      r.Ok? ==> start + |r.value| <= length &&
                r.value == data[window..window + length][start..start + |r.value|]
  {
    hide BytesUntil, CachedUntil;
    var r := WindowUntil(data, strings, window, length, start, end, d);
    if r.Ok? {
      UntilGuarantees(data, strings, window + start, window + end, d);
      SliceOfSlice(data, window, window + length, start, start + |r.value|);
      assert window + start + |r.value| == window + (start + |r.value|);
    }
  }

  lemma WindowUntilAgrees(data: seq<byte>, strings: Strings, window: u64, length: u64, start: u64, end: u64, d: byte)
    requires ValidStrings(data, strings) && window + length <= |data| < U64_MAX && end <= length
    ensures UntilAgreesShort(data[window..window + length], start, end, d,
                             WindowUntil(data, strings, window, length, start, end, d))
  {
    WindowUntilOfSlice(data, window, length, start, end, d);
    if window + start <= U64_MAX {
      WindowUntilShort(data, strings, window, length, start, end, d,
                       BytesUntil(data, window + start, window + end, d));
    }
  }

  lemma WindowUntilShort(data: seq<byte>, strings: Strings, window: u64, length: u64, start: u64, end: u64, d: byte,
                         slice: Result<seq<byte>>)
    requires ValidStrings(data, strings) && window + start <= U64_MAX && window + end <= U64_MAX && end <= length
    requires slice == BytesUntil(data, window + start, window + end, d)
    ensures var r := WindowUntil(data, strings, window, length, start, end, d);
      && (slice.Ok? && |slice.value| < 4096 ==> r == slice)
      && (r.Ok? && start + |r.value| < end ==> r == slice)
  {
    UntilGuarantees(data, strings, window + start, window + end, d);
  }

  lemma RangeUntilAgrees(data: seq<byte>, strings: Strings, window: u64, length: u64, start: u64, end: u64, d: byte)
    requires ValidStrings(data, strings) && |data| < U64_MAX
    ensures Agrees(data, RangeReadUntil(window, length, start, end, d),
                   WindowUntil(data, strings, window, length, start, end, d))
  {
    if window + length <= |data| {
      WindowUntilInside(data, strings, window, length, start, end, d);
      if end <= length {
        WindowUntilAgrees(data, strings, window, length, start, end, d);
      } else {
        WindowUntilLong(data, strings, window, length, start, end, d);
      }
    }
  }

  /** A string that ends inside the window is the one in the window, however long the range is. */
  lemma WindowUntilLong(data: seq<byte>, strings: Strings, window: u64, length: u64, start: u64, end: u64, d: byte)
    requires ValidStrings(data, strings) && window + length <= |data| < U64_MAX
    ensures var r := WindowUntil(data, strings, window, length, start, end, d);
      r.Ok? && start + |r.value| < length ==> r == BytesUntil(data[window..window + length], start, length, d)
  {
    hide CachedUntil, BytesUntil, Delimited;
    var r := WindowUntil(data, strings, window, length, start, end, d);
    if r.Ok? && start + |r.value| < length {
      UntilGuarantees(data, strings, window + start, window + end, d);
      UntilOfDelimited(data, window + start, window + length, d, r.value);
      WindowUntilOfSlice(data, window, length, start, length, d);
    }
  }

  lemma RememberValid(data: seq<byte>, strings: Strings, start: u64, end: u64, d: byte)
    requires ValidStrings(data, strings)
    ensures ValidStrings(data, Remember(strings, start, d, CachedUntil(data, strings, start, end, d)))
  {
    UntilGuarantees(data, strings, start, end, d);
  }

  lemma AnswerAgrees(data: seq<byte>, strings: Strings, op: Op)
    requires ValidStrings(data, strings) && |data| < U64_MAX
    ensures Agrees(data, op, Answer(data, strings, op))
  {
    match op
    case ReadAt(offset, size) =>
    case ReadUntil(start, end, d) => UntilGuarantees(data, strings, start, end, d);
    case RangeReadAt(window, length, offset, size) =>
      if window + length <= |data| {
        WindowOfSlice(data, window, length, offset, size);
      }
    case RangeReadUntil(window, length, start, end, d) =>
      RangeUntilAgrees(data, strings, window, length, start, end, d);
    case Clear =>
  }

  lemma WindowStringsValid(data: seq<byte>, strings: Strings, window: u64, start: u64, end: u64, d: byte)
    requires ValidStrings(data, strings)
    ensures ValidStrings(data, WindowStrings(data, strings, window, start, end, d))
  {
    if window + start <= U64_MAX && window + end <= U64_MAX {
      RememberValid(data, strings, window + start, window + end, d);
    }
  }

  lemma StringsAfterValid(data: seq<byte>, strings: Strings, op: Op)
    requires ValidStrings(data, strings)
    ensures ValidStrings(data, StringsAfter(data, strings, op))
  {
    match op
    case ReadUntil(start, end, d) => RememberValid(data, strings, start, end, d);
    case RangeReadUntil(window, _, start, end, d) => WindowStringsValid(data, strings, window, start, end, d);
    case _ =>
  }

  /** Every answer of every run agrees with the slice reader. */
  lemma {:induction false} ReplayAgrees(data: seq<byte>, strings: Strings, ops: seq<Op>, i: nat)
    requires ValidStrings(data, strings) && |data| < U64_MAX && i < |ops|
    ensures Agrees(data, ops[i], Replay(data, strings, ops)[i])
    decreases |ops|
  {
    AnswerAgrees(data, strings, ops[0]);
    StringsAfterValid(data, strings, ops[0]);
    if i > 0 {
      ReplayAgrees(data, StringsAfter(data, strings, ops[0]), ops[1..], i - 1);
    }
  }

  lemma {:induction false} ReplaySnoc(data: seq<byte>, strings: Strings, ops: seq<Op>, op: Op)
    ensures Replay(data, strings, ops + [op]) ==
            Replay(data, strings, ops) + [Answer(data, After(data, strings, ops), op)]
    ensures After(data, strings, ops + [op]) == StringsAfter(data, After(data, strings, ops), op)
    decreases |ops|
  {
    if ops == [] {
      assert [op][1..] == [] && ops + [op] == [op];
    } else {
      ReplaySnoc(data, StringsAfter(data, strings, ops[0]), ops[1..], op);
      assert (ops + [op])[1..] == ops[1..] + [op];
    }
  }

  /** The cached strings after a whole run. */
  function After(data: seq<byte>, strings: Strings, ops: seq<Op>): Strings
    decreases |ops|
  {
    if ops == [] then strings else After(data, StringsAfter(data, strings, ops[0]), ops[1..])
  }

  /** The answer of the slice reader, on the whole file or on the bytes of a window inside it. */
  function SliceAnswer(data: seq<byte>, op: Op): Result<seq<byte>>
    requires InFile(data, op)
  {
    match op
    case ReadAt(offset, size) => BytesAt(data, offset, size)
    case ReadUntil(start, end, d) => BytesUntil(data, start, end, d)
    case RangeReadAt(window, length, offset, size) => BytesAt(data[window..window + length], offset, size)
    case RangeReadUntil(window, length, start, end, d) => BytesUntil(data[window..window + length], start, end, d)
    case Clear => Ok([])
  }

  predicate InFile(data: seq<byte>, op: Op)
  {
    match op
    case RangeReadAt(window, length, _, _) => window + length <= |data|
    case RangeReadUntil(window, length, _, _, _) => window + length <= |data|
    case _ => true
  }

  /** The operation searches the file for a string at `start` and finds it, even if a window then refuses it. */
  predicate Finds(data: seq<byte>, op: Op, start: u64, d: byte)
  {
    match op
    case ReadUntil(from, end, c) => from == start && c == d && from <= end <= |data| && Found(data, from, end, d)
    case RangeReadUntil(window, _, from, end, c) =>
      && window + from == start && c == d && from <= end && window + end <= |data|
      && Found(data, window + from, window + end, d)
    case _ => false
  }

  /** Some operation of the history has found the string. */
  ghost predicate FoundBefore(data: seq<byte>, history: seq<Op>, start: u64, d: byte)
  {
    exists i :: 0 <= i < |history| && Finds(data, history[i], start, d)
  }

  /** What one string read adds to the cached strings. */
  lemma RememberStep(data: seq<byte>, strings: Strings, from: u64, end: u64, c: byte, start: u64, d: byte)
    requires ValidStrings(data, strings)
    ensures (start, d) in Remember(strings, from, c, CachedUntil(data, strings, from, end, c)) <==>
      (start, d) in strings || (from == start && c == d && from <= end <= |data| && Found(data, from, end, d))
  {
    hide BytesUntil, Found, ValidStrings;
    if from <= end <= |data| {
      FoundMeaning(data, from, end, c);
    }
  }

  /** What one operation adds to the cached strings. */
  lemma StringsStep(data: seq<byte>, strings: Strings, op: Op, start: u64, d: byte)
    requires ValidStrings(data, strings) && |data| < U64_MAX
    ensures (start, d) in StringsAfter(data, strings, op) <==> (start, d) in strings || Finds(data, op, start, d)
  {
    hide Found, ValidStrings, Remember, CachedUntil;
    match op
    case ReadUntil(from, end, c) => RememberStep(data, strings, from, end, c, start, d);
    case RangeReadUntil(window, _, from, end, c) =>
      if window + from <= U64_MAX && window + end <= U64_MAX {
        RememberStep(data, strings, window + from, window + end, c, start, d);
      }
    case _ =>
  }

  /** A string is cached after a run exactly when some operation of the run has found it. */
  lemma {:induction false} CachedIffFound(data: seq<byte>, history: seq<Op>, start: u64, d: byte)
    requires |data| < U64_MAX
    ensures ValidStrings(data, After(data, map[], history))
    ensures (start, d) in After(data, map[], history) <==> FoundBefore(data, history, start, d)
  {
    hide StringsAfter, Finds, ValidStrings;
    if history == [] {
      EmptyValid(data);
    } else {
      var front, op := history[..|history| - 1], history[|history| - 1];
      CachedIffFound(data, front, start, d);
      assert history == front + [op];
      ReplaySnoc(data, map[], front, op);
      StringsAfterValid(data, After(data, map[], front), op);
      StringsStep(data, After(data, map[], front), op, start, d);
      if FoundBefore(data, history, start, d) {
        var i :| 0 <= i < |history| && Finds(data, history[i], start, d);
        assert i < |front| ==> Finds(data, front[i], start, d);
      }
      if FoundBefore(data, front, start, d) {
        var i :| 0 <= i < |front| && Finds(data, front[i], start, d);
        assert Finds(data, history[i], start, d);
      }
    }
  }

  lemma EmptyValid(data: seq<byte>)
    ensures ValidStrings(data, map[])
  {
  }

  /**
   Exactly when an answer of a run differs from the slice reader, in terms of the file and of the
   operations before it: a string found before is not measured against its range again, and one not
   found before must be short. A window measures every string against its own end, and nothing else.
   */
  ghost predicate RunDiffers(data: seq<byte>, history: seq<Op>, op: Op)
    requires InFile(data, op) && |data| < U64_MAX
  {
    match op
    case ReadUntil(start, end, d) =>
      start <= end <= |data| && NewlyDiffers(data, FoundBefore(data, history, start, d), start, end, d)
    case RangeReadUntil(window, length, start, end, d) =>
      start <= end && window + end <= |data| &&
      var k := FirstIndex(data[window + start..], d);
      var before := FoundBefore(data, history, window + start, d);
      if end <= length then
        NewlyDiffers(data, before, window + start, window + end, d) && (before ==> start + k <= length)
      else (before || Found(data, window + start, window + end, d)) && start + k <= length
    case _ => false
  }

  predicate NewlyDiffers(data: seq<byte>, before: bool, start: nat, end: nat, d: byte)
    requires start <= end <= |data|
  {
    var k := FirstIndex(data[start..], d);
    if before then start + k >= end else 4096 <= k < end - start
  }

  /** The condition on the history is the condition on the cached strings. */
  lemma DiffersFromHistory(data: seq<byte>, strings: Strings, start: u64, end: u64, d: byte)
    requires ValidStrings(data, strings) && start <= end <= |data|
    ensures Differs(data, strings, start, end, d) <==> NewlyDiffers(data, (start, d) in strings, start, end, d)
    ensures (start, d) in strings ==> |strings[(start, d)]| == FirstIndex(data[start..], d)
  {
    if (start, d) in strings {
      FirstIndexUnique(data[start..], d, |strings[(start, d)]|);
    } else {
      var k := FirstIndex(data[start..], d);
      FirstIndexUnique(data[start..end], d, Min(k, end - start));
    }
  }

  /**
   The answer to any operation of any run on a fresh cache equals that of the slice reader if and
   only if the operations before it do not make it differ.
   */
  lemma RunAgreement(data: seq<byte>, history: seq<Op>, op: Op)
    requires |data| < U64_MAX && InFile(data, op)
    ensures Replay(data, map[], history + [op])[|history|] == SliceAnswer(data, op) <==> !RunDiffers(data, history, op)
  {
    hide BytesUntil, BytesAt, FirstIndex, Differs, FoundBefore, After, Replay, WindowUntil, CachedUntil, ValidStrings,
         NewlyDiffers, Found;
    ReplaySnoc(data, map[], history, op);
    var strings := After(data, map[], history);
    match op
    case ReadUntil(start, end, d) =>
      CachedIffFound(data, history, start, d);
      UntilAgreement(data, strings, start, end, d);
      if start <= end <= |data| {
        DiffersFromHistory(data, strings, start, end, d);
      } else {
        OutOfBounds(data, strings, start, end, d);
      }
    case RangeReadAt(window, length, offset, size) => WindowOfSlice(data, window, length, offset, size);
    case RangeReadUntil(window, length, start, end, d) =>
      WindowRunAgreement(data, history, window, length, start, end, d);
    case _ =>
  }

  lemma OutOfBounds(data: seq<byte>, strings: Strings, start: u64, end: u64, d: byte)
    requires !(start <= end <= |data|)
    ensures !Differs(data, strings, start, end, d)
  {
  }

  lemma WindowRunAgreement(data: seq<byte>, history: seq<Op>, window: u64, length: u64, start: u64, end: u64, d: byte)
    requires |data| < U64_MAX && window + length <= |data|
    ensures WindowUntil(data, After(data, map[], history), window, length, start, end, d)
            == BytesUntil(data[window..window + length], start, end, d)
      <==> !RunDiffers(data, history, RangeReadUntil(window, length, start, end, d))
  {
    hide BytesUntil, FirstIndex, Differs, FoundBefore, After, WindowUntil, ValidStrings, NewlyDiffers, Found;
    var strings := After(data, map[], history);
    CachedIffFound(data, history, 0, 0);
    WindowAgreement(data, strings, window, length, start, end, d);
    if start <= end && window + end <= |data| {
      CachedIffFound(data, history, window + start, d);
      DiffersFromHistory(data, strings, window + start, window + end, d);
    }
  }

  /** One operation on a cache. */
  method Perform(cache: ReadCache, op: Op) returns (r: Result<seq<byte>>)
    requires cache.Valid()
    modifies cache`bufs, cache`strings, cache`len, cache.read
    ensures cache.Valid() && cache.read.errors >= old(cache.read.errors)
    ensures r.Ok? || cache.read.errors == old(cache.read.errors) ==>
      r == Answer(cache.read.data, old(cache.strings), op)
    ensures cache.read.errors == old(cache.read.errors) ==>
      cache.strings == StringsAfter(cache.read.data, old(cache.strings), op)
  {
    match op {
      case ReadAt(offset, size) => r := cache.ReadBytesAt(offset, size);
      case ReadUntil(start, end, d) => r := cache.ReadBytesAtUntil(start, end, d);
      case RangeReadAt(window, length, offset, size) =>
        var range := new ReadCacheRange(cache, window, length);
        r := range.ReadBytesAt(offset, size);
      case RangeReadUntil(window, length, start, end, d) =>
        var range := new ReadCacheRange(cache, window, length);
        r := range.ReadBytesAtUntil(start, end, d);
      case Clear =>
        cache.Clear();
        r := Ok([]);
    }
  }

  lemma NothingYet(data: seq<byte>)
    ensures Replay(data, map[], []) == [] && After(data, map[], []) == map[]
  {
  }

  /**
   Any run on a fresh cache. A run without I/O errors has the answers of `Replay`, whatever the
   short reads were, and an answer equals that of the slice reader exactly when the operations
   before it do not make it differ. Every successful answer of any run agrees with the slice reader.
   */
  method Run(read: Stream, ops: seq<Op>) returns (results: seq<Result<seq<byte>>>)
    requires |read.data| < U64_MAX
    modifies read
    ensures |results| == |ops| && read.errors >= old(read.errors)
    ensures read.errors == old(read.errors) ==> results == Replay(read.data, map[], ops)
    ensures read.errors == old(read.errors) ==>
      forall i :: 0 <= i < |ops| && InFile(read.data, ops[i]) ==>
        (results[i] == SliceAnswer(read.data, ops[i]) <==> !RunDiffers(read.data, ops[..i], ops[i]))
    ensures forall i :: 0 <= i < |ops| && (results[i].Ok? || read.errors == old(read.errors)) ==>
      Agrees(read.data, ops[i], results[i])
  {
    hide Replay, After, Answer, StringsAfter, SliceAnswer, RunDiffers, Agrees, InFile;
    NothingYet(read.data);
    var cache := new ReadCache(read);
    results := [];
    for i := 0 to |ops|
      invariant cache.Valid() && cache.read == read && fresh(cache)
      invariant |results| == i && read.errors >= old(read.errors)
      invariant read.errors == old(read.errors) ==> results == Replay(read.data, map[], ops[..i])
      invariant read.errors == old(read.errors) ==> cache.strings == After(read.data, map[], ops[..i])
      invariant read.errors == old(read.errors) ==>
        forall j :: 0 <= j < i && InFile(read.data, ops[j]) ==>
          (results[j] == SliceAnswer(read.data, ops[j]) <==> !RunDiffers(read.data, ops[..j], ops[j]))
      invariant forall j :: 0 <= j < i && (results[j].Ok? || read.errors == old(read.errors)) ==>
        Agrees(read.data, ops[j], results[j])
    {
      assert ops[..i + 1] == ops[..i] + [ops[i]];
      ReplaySnoc(read.data, map[], ops[..i], ops[i]);
      AnswerAgrees(read.data, cache.strings, ops[i]);
      if InFile(read.data, ops[i]) {
        RunAgreement(read.data, ops[..i], ops[i]);
      }
      var r := Perform(cache, ops[i]);
      results := results + [r];
    }
    assert ops[..|ops|] == ops;
  }
}
