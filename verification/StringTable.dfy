/**
 The string table of object-file writers: strings sorted from their ends by a multi-key
 quicksort, so that a string that is a suffix of another shares its bytes.
 */
module StringTable {
  import opened Prelude

  /** Byte `pos` of `s` counted from the end, starting at one; zero past the start. */
  function ByteAt(s: seq<byte>, pos: nat): byte
    requires pos >= 1
  {
    if |s| >= pos then s[|s| - pos] else 0
  }

  predicate EndsWith(s: seq<byte>, t: seq<byte>)
  {
    |t| <= |s| && s[|s| - |t|..] == t
  }

  /** The sorting order from byte `pos` on: greater bytes first, ended strings last. */
  predicate Ge(s: seq<byte>, t: seq<byte>, pos: nat)
    requires pos >= 1
    decreases |s| + 1 - pos
  {
    ByteAt(s, pos) > ByteAt(t, pos) ||
    (ByteAt(s, pos) == ByteAt(t, pos) && (ByteAt(s, pos) == 0 || (pos <= |s| && Ge(s, t, pos + 1))))
  }

  /** Strings of the table have no null byte, and no two are equal. */
  ghost predicate Strings(strings: seq<seq<byte>>)
  {
    && (forall i :: 0 <= i < |strings| ==> 0 !in strings[i])
    && (forall i, j :: 0 <= i < j < |strings| ==> strings[i] != strings[j])
  }

  /** The identifiers `ids[lo..hi]` are valid. */
  ghost predicate Ids(strings: seq<seq<byte>>, ids: seq<nat>, lo: nat, hi: nat)
  {
    lo <= hi <= |ids| && forall k :: lo <= k < hi ==> ids[k] < |strings|
  }

  /** The strings of `ids[lo..hi]` are in order from byte `pos` on. */
  ghost predicate Sorted(strings: seq<seq<byte>>, ids: seq<nat>, lo: nat, hi: nat, pos: nat)
    requires pos >= 1 && Ids(strings, ids, lo, hi)
  {
    forall i, j :: lo <= i < j < hi ==> Ge(strings[ids[i]], strings[ids[j]], pos)
  }

  // ---------------------------------------------------------------------------------------------
  // What the order means.

  /** Byte by byte, `s` ends with `t`. */
  lemma {:induction false} EndsWithBytes(s: seq<byte>, t: seq<byte>)
    ensures EndsWith(s, t) <==> |t| <= |s| && forall k :: 1 <= k <= |t| ==> ByteAt(s, k) == ByteAt(t, k)
  {
    if |t| <= |s| {
      var u := s[|s| - |t|..];
      assert forall k :: 1 <= k <= |t| ==> u[|t| - k] == ByteAt(s, k);
      if forall k :: 1 <= k <= |t| ==> ByteAt(s, k) == ByteAt(t, k) {
        forall i | 0 <= i < |t|
          ensures u[i] == t[i]
        {
          assert ByteAt(s, |t| - i) == ByteAt(t, |t| - i);
        }
      }
    }
  }

  /** Between a string and a suffix of it, only strings with that suffix are sorted. */
  lemma {:induction false} BetweenBytes(s: seq<byte>, v: seq<byte>, t: seq<byte>, pos: nat)
    requires pos >= 1 && 0 !in t
    requires forall k :: 1 <= k <= |t| ==> ByteAt(s, k) == ByteAt(t, k)
    requires Ge(s, v, pos) && Ge(v, t, pos)
    ensures forall k :: pos <= k <= |t| ==> ByteAt(v, k) == ByteAt(t, k) && k <= |v|
    decreases |t| + 1 - pos
  {
    if pos <= |t| {
      assert ByteAt(t, pos) in t;
      BetweenBytes(s, v, t, pos + 1);
    }
  }

  lemma Between(s: seq<byte>, v: seq<byte>, t: seq<byte>)
    requires 0 !in t && EndsWith(s, t)
    requires Ge(s, v, 1) && Ge(v, t, 1)
    ensures EndsWith(v, t)
  {
    EndsWithBytes(s, t);
    BetweenBytes(s, v, t, 1);
    EndsWithBytes(v, t);
    if t != [] {
      assert ByteAt(v, |t|) == ByteAt(t, |t|);
    }
  }

  /** A proper suffix is never sorted before the longer string. */
  lemma {:induction false} SuffixLast(s: seq<byte>, t: seq<byte>, pos: nat)
    requires 1 <= pos && 0 !in s && |t| < |s| && pos <= |t| + 1
    requires forall k :: 1 <= k <= |t| ==> ByteAt(s, k) == ByteAt(t, k)
    ensures !Ge(t, s, pos)
    decreases |t| + 1 - pos
  {
    assert ByteAt(s, pos) in s;
    if pos <= |t| {
      SuffixLast(s, t, pos + 1);
    }
  }

  lemma EndsWithTransitive(s: seq<byte>, t: seq<byte>, u: seq<byte>)
    requires EndsWith(s, t) && EndsWith(t, u)
    ensures EndsWith(s, u)
  {
  }

  // ---------------------------------------------------------------------------------------------
  // The sort.

  ghost function MaxLength(strings: seq<seq<byte>>): (m: nat)
    ensures forall i :: 0 <= i < |strings| ==> |strings[i]| <= m
  {
    if strings == [] then 0
    else
      var m := MaxLength(strings[1..]);
      assert forall i :: 1 <= i < |strings| ==> strings[i] == strings[1..][i - 1];
      if m < |strings[0]| then |strings[0]| else m
  }

  /** Bytes at `pos` above, equal to, or below `pivot`. */
  ghost predicate Above(strings: seq<seq<byte>>, ids: seq<nat>, lo: nat, hi: nat, pos: nat, pivot: byte)
    requires pos >= 1 && Ids(strings, ids, lo, hi)
  {
    forall k :: lo <= k < hi ==> ByteAt(strings[ids[k]], pos) > pivot
  }

  ghost predicate Equal(strings: seq<seq<byte>>, ids: seq<nat>, lo: nat, hi: nat, pos: nat, pivot: byte)
    requires pos >= 1 && Ids(strings, ids, lo, hi)
  {
    forall k :: lo <= k < hi ==> ByteAt(strings[ids[k]], pos) == pivot
  }

  ghost predicate Below(strings: seq<seq<byte>>, ids: seq<nat>, lo: nat, hi: nat, pos: nat, pivot: byte)
    requires pos >= 1 && Ids(strings, ids, lo, hi)
  {
    forall k :: lo <= k < hi ==> ByteAt(strings[ids[k]], pos) < pivot
  }

  /** `b` differs from `a` only by a permutation of positions `lo` to `hi`. */
  ghost predicate Permuted(a: seq<nat>, b: seq<nat>, lo: nat, hi: nat)
  {
    && lo <= hi <= |a| == |b|
    && a[..lo] == b[..lo] && a[hi..] == b[hi..]
    && multiset(a[lo..hi]) == multiset(b[lo..hi])
  }

  lemma PermutedTransitive(a: seq<nat>, b: seq<nat>, c: seq<nat>, lo: nat, hi: nat)
    requires Permuted(a, b, lo, hi) && Permuted(b, c, lo, hi)
    ensures Permuted(a, c, lo, hi)
  {
  }

  /** A permutation of a part is one of the whole range. */
  lemma PermutedWiden(a: seq<nat>, b: seq<nat>, l: nat, h: nat, lo: nat, hi: nat)
    requires lo <= l <= h <= hi <= |a| && Permuted(a, b, l, h)
    ensures Permuted(a, b, lo, hi)
  {
    SplitThree(a, l, h, lo, hi);
    SplitThree(b, l, h, lo, hi);
    assert a[..lo] == a[..l][..lo] && b[..lo] == b[..l][..lo];
    assert a[lo..l] == a[..l][lo..] && b[lo..l] == b[..l][lo..];
    assert a[h..hi] == a[h..][..hi - h] && b[h..hi] == b[h..][..hi - h];
    assert a[hi..] == a[h..][hi - h..] && b[hi..] == b[h..][hi - h..];
  }

  lemma SplitThree(a: seq<nat>, l: nat, h: nat, lo: nat, hi: nat)
    requires lo <= l <= h <= hi <= |a|
    ensures multiset(a[lo..hi]) == multiset(a[lo..l]) + multiset(a[l..h]) + multiset(a[h..hi])
  {
    assert a[lo..hi] == a[lo..l] + a[l..h] + a[h..hi];
  }

  /** Every element of a permuted range was in it before. */
  lemma PermutedMember(a: seq<nat>, b: seq<nat>, lo: nat, hi: nat, k: nat) returns (j: nat)
    requires Permuted(a, b, lo, hi) && lo <= k < hi
    ensures lo <= j < hi && b[k] == a[j]
  {
    assert b[lo..hi][k - lo] == b[k];
    assert b[k] in multiset(b[lo..hi]);
    assert b[k] in a[lo..hi];
    var m :| 0 <= m < hi - lo && a[lo..hi][m] == b[k];
    j := lo + m;
  }

  lemma PermutedAbove(strings: seq<seq<byte>>, a: seq<nat>, b: seq<nat>, lo: nat, hi: nat, pos: nat, pivot: byte)
    requires pos >= 1 && Permuted(a, b, lo, hi) && Ids(strings, a, lo, hi) && Ids(strings, b, lo, hi)
    ensures Above(strings, a, lo, hi, pos, pivot) ==> Above(strings, b, lo, hi, pos, pivot)
    ensures Equal(strings, a, lo, hi, pos, pivot) ==> Equal(strings, b, lo, hi, pos, pivot)
    ensures Below(strings, a, lo, hi, pos, pivot) ==> Below(strings, b, lo, hi, pos, pivot)
  {
    forall k | lo <= k < hi
      ensures exists j :: lo <= j < hi && b[k] == a[j]
    {
      var _ := PermutedMember(a, b, lo, hi, k);
    }
  }

  lemma SwapPermutes(a: seq<nat>, i: nat, j: nat, lo: nat, hi: nat)
    requires lo <= i < hi && lo <= j < hi <= |a|
    ensures Permuted(a, a[i := a[j]][j := a[i]], lo, hi)
  {
    var b := a[i := a[j]][j := a[i]];
    var s := a[lo..hi];
    assert b[lo..hi] == s[i - lo := s[j - lo]][j - lo := s[i - lo]];
  }

  method Swap(ids: array<nat>, i: nat, j: nat, ghost lo: nat, ghost hi: nat)
    requires lo <= i < hi && lo <= j < hi <= ids.Length
    modifies ids
    ensures Permuted(old(ids[..]), ids[..], lo, hi)
    ensures ids[i] == old(ids[j]) && ids[j] == old(ids[i])
    ensures forall k :: 0 <= k < ids.Length && k != i && k != j ==> ids[k] == old(ids[k])
  {
    hide Permuted;
    SwapPermutes(ids[..], i, j, lo, hi);
    ids[i], ids[j] := ids[j], ids[i];
    assert ids[..] == old(ids[..])[i := old(ids[j])][j := old(ids[i])];
  }

  lemma PermutedReflexive(a: seq<nat>, lo: nat, hi: nat)
    requires lo <= hi <= |a|
    ensures Permuted(a, a, lo, hi)
  {
  }

  /** The three-way partition of `sort` around the first element's byte. */
  method Partition(strings: seq<seq<byte>>, ids: array<nat>, lo: nat, hi: nat, pos: nat)
    returns (lower: nat, upper: nat, pivot: byte)
    requires lo < hi <= ids.Length && pos >= 1 && Ids(strings, ids[..], lo, hi)
    modifies ids
    ensures lo <= lower < upper <= hi
    ensures Permuted(old(ids[..]), ids[..], lo, hi) && Ids(strings, ids[..], lo, hi)
    ensures Above(strings, ids[..], lo, lower, pos, pivot)
    ensures Equal(strings, ids[..], lower, upper, pos, pivot)
    ensures Below(strings, ids[..], upper, hi, pos, pivot)
  {
    hide ByteAt, Permuted;
    pivot := ByteAt(strings[ids[lo]], pos);
    lower, upper := lo, hi;
    var i := lo + 1;
    PermutedReflexive(ids[..], lo, hi);
    while i < upper
      invariant lo <= lower < i <= upper <= hi
      invariant Permuted(old(ids[..]), ids[..], lo, hi)
      invariant forall k :: lo <= k < hi ==> ids[k] < |strings|
      invariant forall k :: lo <= k < lower ==> ByteAt(strings[ids[k]], pos) > pivot
      invariant forall k :: lower <= k < i ==> ByteAt(strings[ids[k]], pos) == pivot
      invariant forall k :: upper <= k < hi ==> ByteAt(strings[ids[k]], pos) < pivot
    {
      var b := ByteAt(strings[ids[i]], pos);
      ghost var before := ids[..];
      if b > pivot {
        Swap(ids, lower, i, lo, hi);
        PermutedTransitive(old(ids[..]), before, ids[..], lo, hi);
        lower := lower + 1;
        i := i + 1;
      } else if b < pivot {
        upper := upper - 1;
        Swap(ids, upper, i, lo, hi);
        PermutedTransitive(old(ids[..]), before, ids[..], lo, hi);
      } else {
        i := i + 1;
      }
    }
  }

  /** The parts of a partition, each in order, are in order together. */
  lemma JoinSorted(strings: seq<seq<byte>>, ids: seq<nat>, lo: nat, lower: nat, upper: nat, hi: nat, pos: nat,
                   pivot: byte)
    requires pos >= 1 && lo <= lower <= upper <= hi && Ids(strings, ids, lo, hi)
    requires Above(strings, ids, lo, lower, pos, pivot) && Sorted(strings, ids, lo, lower, pos)
    requires Equal(strings, ids, lower, upper, pos, pivot) && Sorted(strings, ids, lower, upper, pos)
    requires Below(strings, ids, upper, hi, pos, pivot) && Sorted(strings, ids, upper, hi, pos)
    ensures Sorted(strings, ids, lo, hi, pos)
  {
    forall i, j | lo <= i < j < hi
      ensures Ge(strings[ids[i]], strings[ids[j]], pos)
    {
      hide ByteAt;
      if j < lower {
      } else if i < lower {
        assert ByteAt(strings[ids[i]], pos) > pivot >= ByteAt(strings[ids[j]], pos);
      } else if j < upper {
      } else if i < upper {
        assert ByteAt(strings[ids[i]], pos) == pivot > ByteAt(strings[ids[j]], pos);
      }
    }
  }

  /** Among strings with equal bytes at `pos`, the order is decided further on. */
  lemma EqualSorted(strings: seq<seq<byte>>, ids: seq<nat>, lo: nat, hi: nat, pos: nat, pivot: byte)
    requires pos >= 1 && Ids(strings, ids, lo, hi) && Equal(strings, ids, lo, hi, pos, pivot)
    ensures pivot == 0 ==> Sorted(strings, ids, lo, hi, pos)
    ensures pivot != 0 && Sorted(strings, ids, lo, hi, pos + 1) ==> Sorted(strings, ids, lo, hi, pos)
  {
  }

  /** A range is unaffected by a permutation elsewhere. */
  lemma Elsewhere(a: seq<nat>, b: seq<nat>, l: nat, h: nat, k: nat)
    requires Permuted(a, b, l, h) && k < |a| && !(l <= k < h)
    ensures a[k] == b[k]
  {
    if k < l {
      assert a[k] == a[..l][k] == b[..l][k];
    } else {
      assert a[k] == a[h..][k - h] == b[h..][k - h];
    }
  }

  lemma ElsewhereAll(strings: seq<seq<byte>>, a: seq<nat>, b: seq<nat>, l: nat, h: nat, lo: nat, hi: nat, pos: nat,
                     pivot: byte)
    requires pos >= 1 && Permuted(a, b, l, h) && Ids(strings, a, lo, hi) && (hi <= l || h <= lo)
    ensures Ids(strings, b, lo, hi)
    ensures Above(strings, a, lo, hi, pos, pivot) ==> Above(strings, b, lo, hi, pos, pivot)
    ensures Equal(strings, a, lo, hi, pos, pivot) ==> Equal(strings, b, lo, hi, pos, pivot)
    ensures Below(strings, a, lo, hi, pos, pivot) ==> Below(strings, b, lo, hi, pos, pivot)
    ensures Sorted(strings, a, lo, hi, pos) ==> Sorted(strings, b, lo, hi, pos)
  {
    hide ByteAt, Ge;
    forall k | lo <= k < hi
      ensures a[k] == b[k]
    {
      Elsewhere(a, b, l, h, k);
    }
  }

  /** `sort`, with the next turn of its loop as a tail call on the middle part. */
  method Sort(strings: seq<seq<byte>>, ids: array<nat>, lo: nat, hi: nat, pos: nat)
    requires lo <= hi <= ids.Length && 1 <= pos <= MaxLength(strings) + 1 && Ids(strings, ids[..], lo, hi)
    modifies ids
    ensures Permuted(old(ids[..]), ids[..], lo, hi) && Ids(strings, ids[..], lo, hi)
    ensures Sorted(strings, ids[..], lo, hi, pos)
    decreases MaxLength(strings) + 1 - pos, hi - lo
  {
    hide Permuted, ByteAt, Ge, MaxLength, Above, Equal, Below;
    if hi - lo <= 1 {
      PermutedReflexive(ids[..], lo, hi);
      return;
    }
    var lower, upper, pivot := Partition(strings, ids, lo, hi, pos);
    ghost var a := ids[..];
    Sort(strings, ids, lo, lower, pos);
    ghost var b := ids[..];
    PermutedAbove(strings, a, b, lo, lower, pos, pivot);
    ElsewhereAll(strings, a, b, lo, lower, lower, upper, pos, pivot);
    ElsewhereAll(strings, a, b, lo, lower, upper, hi, pos, pivot);
    PermutedWiden(a, b, lo, lower, lo, hi);
    PermutedTransitive(old(ids[..]), a, b, lo, hi);
    Sort(strings, ids, upper, hi, pos);
    ghost var c := ids[..];
    PermutedAbove(strings, b, c, upper, hi, pos, pivot);
    ElsewhereAll(strings, b, c, upper, hi, lo, lower, pos, pivot);
    ElsewhereAll(strings, b, c, upper, hi, lower, upper, pos, pivot);
    PermutedWiden(b, c, upper, hi, lo, hi);
    PermutedTransitive(old(ids[..]), b, c, lo, hi);
    if pivot != 0 {
      PivotInString(strings, c, lower, upper, pos, pivot);
      Sort(strings, ids, lower, upper, pos + 1);
      ghost var d := ids[..];
      PermutedAbove(strings, c, d, lower, upper, pos, pivot);
      ElsewhereAll(strings, c, d, lower, upper, lo, lower, pos, pivot);
      ElsewhereAll(strings, c, d, lower, upper, upper, hi, pos, pivot);
      PermutedWiden(c, d, lower, upper, lo, hi);
      PermutedTransitive(old(ids[..]), c, d, lo, hi);
    }
    EqualSorted(strings, ids[..], lower, upper, pos, pivot);
    JoinSorted(strings, ids[..], lo, lower, upper, hi, pos, pivot);
  }

  /** A non-zero byte lies inside its string, so the next position is still in bounds. */
  lemma PivotInString(strings: seq<seq<byte>>, ids: seq<nat>, lo: nat, hi: nat, pos: nat, pivot: byte)
    requires pos >= 1 && lo < hi && Ids(strings, ids, lo, hi) && Equal(strings, ids, lo, hi, pos, pivot) && pivot != 0
    ensures pos <= MaxLength(strings)
  {
    assert ByteAt(strings[ids[lo]], pos) == pivot;
  }

  // ---------------------------------------------------------------------------------------------
  // The table.

  /** `data` holds `s` and a terminator at `offset`. */
  predicate HasString(data: seq<byte>, offset: nat, s: seq<byte>)
  {
    offset + |s| < |data| && data[offset..offset + |s|] == s && data[offset + |s|] == 0
  }

  lemma HasStringExtends(data: seq<byte>, more: seq<byte>, offset: nat, s: seq<byte>)
    requires HasString(data, offset, s)
    ensures HasString(data + more, offset, s)
  {
    assert (data + more)[offset..offset + |s|] == data[offset..offset + |s|];
  }

  /** The strings that must be stored: neither empty nor a proper suffix of another. */
  ghost predicate Kept(strings: seq<seq<byte>>, id: nat)
    requires id < |strings|
  {
    strings[id] != [] && forall j :: 0 <= j < |strings| && j != id ==> !EndsWith(strings[j], strings[id])
  }

  /** The kept strings of `ids`, each terminated, in order. */
  ghost function KeptBytes(strings: seq<seq<byte>>, ids: seq<nat>): seq<byte>
    requires Ids(strings, ids, 0, |ids|)
  {
    if ids == [] then []
    else
      var last := ids[|ids| - 1];
      KeptBytes(strings, ids[..|ids| - 1]) + if Kept(strings, last) then strings[last] + [0] else []
  }

  /** `ids` enumerates all strings. */
  ghost predicate Enumerates(ids: seq<nat>, n: nat)
  {
    |ids| == n && (forall k :: 0 <= k < n ==> ids[k] < n) &&
    (forall i, j :: 0 <= i < j < n ==> ids[i] != ids[j]) &&
    (forall id: nat :: id < n ==> id in ids)
  }

  /**
   In sorted order, a string has to be stored exactly when the string before it, if any, does
   not end with it.
   */
  lemma KeptInOrder(strings: seq<seq<byte>>, ids: seq<nat>, k: nat)
    requires Strings(strings) && Enumerates(ids, |strings|) && Sorted(strings, ids, 0, |ids|, 1) && k < |ids|
    requires strings[ids[k]] != []
    ensures Kept(strings, ids[k]) <==> k == 0 || !EndsWith(strings[ids[k - 1]], strings[ids[k]])
  {
    var t := strings[ids[k]];
    if k > 0 && EndsWith(strings[ids[k - 1]], t) {
      assert ids[k - 1] != ids[k];
    } else if !Kept(strings, ids[k]) {
      var id :| 0 <= id < |strings| && id != ids[k] && EndsWith(strings[id], t);
      assert id in ids;
      var j :| 0 <= j < |ids| && ids[j] == id;
      LongerFirst(strings, ids, j, k);
      if j < k - 1 {
        Between(strings[id], strings[ids[k - 1]], t);
      }
    }
  }

  lemma LongerFirst(strings: seq<seq<byte>>, ids: seq<nat>, j: nat, k: nat)
    requires Strings(strings) && Enumerates(ids, |strings|) && Sorted(strings, ids, 0, |ids|, 1)
    requires j < |ids| && k < |ids| && j != k && EndsWith(strings[ids[j]], strings[ids[k]])
    ensures j < k
  {
    var s, t := strings[ids[j]], strings[ids[k]];
    EndsWithBytes(s, t);
    assert ids[j] != ids[k];
    assert s != t;
    SameLengthSuffix(s, t);
    if k < j {
      SuffixLast(s, t, 1);
    }
  }

  lemma SameLengthSuffix(s: seq<byte>, t: seq<byte>)
    requires EndsWith(s, t) && s != t
    ensures |t| < |s|
  {
    assert s[0..] == s;
  }

  /** A permutation of the identity enumerates. */
  lemma PermutationEnumerates(a: seq<nat>, b: seq<nat>, n: nat)
    requires Permuted(a, b, 0, n) && |a| == n && forall i :: 0 <= i < n ==> a[i] == i
    ensures Enumerates(b, n)
  {
    assert a[0..n] == a && b[0..n] == b;
    forall k | 0 <= k < n
      ensures b[k] < n
    {
      var _ := PermutedMember(a, b, 0, n, k);
    }
    forall i, j | 0 <= i < j < n
      ensures b[i] != b[j]
    {
      IdentityCount(a, b[i]);
      CountTwo(b, i, j);
    }
    forall id: nat | id < n
      ensures id in b
    {
      assert a[id] in multiset(a);
      assert id in multiset(b);
    }
  }

  lemma CountTwo(s: seq<nat>, i: nat, j: nat)
    requires i < j < |s|
    ensures s[i] == s[j] ==> multiset(s)[s[i]] >= 2
  {
    assert s == s[..i] + [s[i]] + s[i + 1..j] + [s[j]] + s[j + 1..];
  }

  lemma {:induction false} IdentityCount(a: seq<nat>, x: nat)
    requires forall i :: 0 <= i < |a| ==> a[i] == i
    ensures multiset(a)[x] <= 1
    ensures x >= |a| ==> multiset(a)[x] == 0
  {
    if a != [] {
      IdentityCount(a[..|a| - 1], x);
      assert a == a[..|a| - 1] + [a[|a| - 1]];
    }
  }

  /**
   The state of `write` after the first `k` strings in order: all of them can be found in `out`,
   which ends with the last stored string, the one at position `p`.
   */
  ghost predicate Written(strings: seq<seq<byte>>, order: seq<nat>, k: nat, p: nat,
                          w: seq<byte>, out: seq<byte>, offsets: seq<nat>, previous: seq<byte>)
    requires Ids(strings, order, 0, |order|)
  {
    && k <= |order| && |offsets| == |strings|
    && out == w + KeptBytes(strings, order[..k])
    && |previous| < |out| && HasString(out, |out| - 1 - |previous|, previous)
    && (forall j :: 0 <= j < k ==> HasString(out, offsets[order[j]], strings[order[j]]))
    && (if k == 0 then previous == []
        else EndsWith(previous, strings[order[k - 1]]) && (previous == [] || (p < k && previous == strings[order[p]])))
  }

  /** Any tail of a stored string can be found as well. */
  lemma SuffixFound(out: seq<byte>, previous: seq<byte>, s: seq<byte>)
    requires |previous| < |out| && HasString(out, |out| - 1 - |previous|, previous) && EndsWith(previous, s)
    ensures |s| <= |previous| && HasString(out, |out| - 1 - |s|, s)
  {
    var at := |out| - 1 - |previous|;
    SliceOfSlice(out, at, |out| - 1, |previous| - |s|, |previous|);
  }

  /** Whether the string at position `k` is kept, decided by the last stored string. */
  lemma KeptIffNew(strings: seq<seq<byte>>, order: seq<nat>, k: nat, p: nat, previous: seq<byte>)
    requires Strings(strings) && Enumerates(order, |strings|) && Sorted(strings, order, 0, |order|, 1) && k < |order|
    requires if k == 0 then previous == []
             else EndsWith(previous, strings[order[k - 1]]) &&
                  (previous == [] || (p < k && previous == strings[order[p]]))
    ensures Kept(strings, order[k]) <==> !EndsWith(previous, strings[order[k]])
  {
    var s := strings[order[k]];
    if s != [] {
      KeptInOrder(strings, order, k);
      if k > 0 && EndsWith(strings[order[k - 1]], s) {
        EndsWithTransitive(previous, strings[order[k - 1]], s);
      }
      if EndsWith(previous, s) {
        assert order[p] != order[k];
      }
    }
  }

  lemma KeptBytesSnoc(strings: seq<seq<byte>>, order: seq<nat>, k: nat)
    requires Ids(strings, order, 0, |order|) && k < |order|
    ensures KeptBytes(strings, order[..k + 1]) ==
            KeptBytes(strings, order[..k]) + if Kept(strings, order[k]) then strings[order[k]] + [0] else []
  {
    assert order[..k + 1][..k] == order[..k];
  }

  lemma MergeStep(strings: seq<seq<byte>>, order: seq<nat>, k: nat, p: nat,
                  w: seq<byte>, out: seq<byte>, offsets: seq<nat>, previous: seq<byte>)
    requires Strings(strings) && Enumerates(order, |strings|) && Sorted(strings, order, 0, |order|, 1) && k < |order|
    requires Written(strings, order, k, p, w, out, offsets, previous)
    requires EndsWith(previous, strings[order[k]])
    ensures |strings[order[k]]| < |out|
    ensures Written(strings, order, k + 1, p, w, out,
                    offsets[order[k] := |out| - |strings[order[k]]| - 1], previous)
  {
    hide KeptBytes, HasString, Kept, Ge, EndsWith, Sorted;
    var s := strings[order[k]];
    KeptIffNew(strings, order, k, p, previous);
    KeptBytesSnoc(strings, order, k);
    assert KeptBytes(strings, order[..k + 1]) == KeptBytes(strings, order[..k]);
    SuffixFound(out, previous, s);
    var offsets' := offsets[order[k] := |out| - |s| - 1];
    forall j | 0 <= j < k + 1
      ensures HasString(out, offsets'[order[j]], strings[order[j]])
    {
      assert j < k ==> order[j] != order[k];
    }
  }

  lemma StoreStep(strings: seq<seq<byte>>, order: seq<nat>, k: nat, p: nat,
                  w: seq<byte>, out: seq<byte>, offsets: seq<nat>, previous: seq<byte>)
    requires Strings(strings) && Enumerates(order, |strings|) && Sorted(strings, order, 0, |order|, 1) && k < |order|
    requires Written(strings, order, k, p, w, out, offsets, previous)
    requires !EndsWith(previous, strings[order[k]])
    ensures Written(strings, order, k + 1, k, w, out + strings[order[k]] + [0],
                    offsets[order[k] := |out|], strings[order[k]])
  {
    hide KeptBytes, HasString, Kept, Ge, EndsWith;
    var s := strings[order[k]];
    KeptIffNew(strings, order, k, p, previous);
    KeptBytesSnoc(strings, order, k);
    var out' := out + s + [0];
    assert out' == out + (s + [0]);
    assert out' == w + (KeptBytes(strings, order[..k]) + (s + [0]));
    forall j | 0 <= j < k
      ensures HasString(out', offsets[order[j]], strings[order[j]]) && order[j] != order[k]
    {
      HasStringExtends(out, s + [0], offsets[order[j]], strings[order[j]]);
    }
    StoredFound(out, s);
    EndsWithItself(s);
  }

  lemma StoredFound(out: seq<byte>, s: seq<byte>)
    ensures HasString(out + s + [0], |out|, s)
  {
    assert (out + s + [0])[|out|..|out| + |s|] == s;
  }

  lemma EndsWithItself(s: seq<byte>)
    ensures EndsWith(s, s)
  {
  }

  class StringTable {
    var strings: seq<seq<byte>>
    var offsets: seq<nat>

    ghost predicate Valid()
      reads this
    {
      Strings(strings)
    }

    constructor ()
      ensures Valid() && strings == [] && offsets == []
    {
      strings, offsets := [], [];
    }

    /** `add`: the identifier of the string, which is added when it is new. */
    method Add(s: seq<byte>) returns (id: nat)
      requires Valid() && offsets == [] && 0 !in s
      modifies this
      ensures Valid() && offsets == []
      ensures id < |strings| && strings[id] == s
      ensures old(strings) <= strings
      ensures s in old(strings) ==> strings == old(strings)
      ensures s !in old(strings) ==> strings == old(strings) + [s] && id == |old(strings)|
    {
      id := 0;
      while id < |strings| && strings[id] != s
        invariant id <= |strings|
        invariant s !in strings[..id]
      {
        id := id + 1;
      }
      if id == |strings| {
        assert strings[..id] == strings;
        strings := strings + [s];
      }
    }

    /**
     `write`: appends the table to `w`, whose end is a null byte at `base - 1`. Every string can
     be found at its offset, and no byte is stored for a string that another one ends with.
     */
    method Write(base: nat, w: seq<byte>) returns (out: seq<byte>)
      requires Valid() && offsets == []
      requires |w| == base > 0 && w[base - 1] == 0
      modifies this
      ensures Valid() && strings == old(strings) && |offsets| == |strings|
      ensures forall id :: 0 <= id < |strings| ==> HasString(out, offsets[id], strings[id])
      ensures exists ids :: SortedIds(strings, ids) && out == w + KeptBytes(strings, ids)
    {
      var ids := new nat[|strings|](i => i);
      ghost var identity := ids[..];
      Sort(strings, ids, 0, ids.Length, 1);
      PermutationEnumerates(identity, ids[..], |strings|);
      assert SortedIds(strings, ids[..]);
      hide *;
      out, offsets := Emit(strings, ids[..], base, w);
    }
  }

  /** All identifiers, in descending order of their reversed strings. */
  ghost predicate SortedIds(strings: seq<seq<byte>>, ids: seq<nat>)
  {
    Enumerates(ids, |strings|) && Ids(strings, ids, 0, |ids|) && Sorted(strings, ids, 0, |ids|, 1)
  }

  /** The second half of `write`: the strings in order, each merged into the last stored one or stored. */
  method Emit(strings: seq<seq<byte>>, order: seq<nat>, base: nat, w: seq<byte>)
    returns (out: seq<byte>, offsets: seq<nat>)
    requires Strings(strings) && Enumerates(order, |strings|) && Ids(strings, order, 0, |order|)
    requires Sorted(strings, order, 0, |order|, 1)
    requires |w| == base > 0 && w[base - 1] == 0
    ensures |offsets| == |strings|
    ensures forall id :: 0 <= id < |strings| ==> HasString(out, offsets[id], strings[id])
    ensures out == w + KeptBytes(strings, order)
  {
    hide HasString, Kept, KeptBytes, Ge, EndsWith, Written, Strings, Enumerates, Sorted;
    out := w;
    offsets := seq(|strings|, _ => 0);
    var offset := base;
    var previous: seq<byte> := [];
    ghost var p := 0;
    WrittenInit(strings, order, w, offsets);
    for k := 0 to |order|
      invariant |offsets| == |strings| && offset == |out|
      invariant Written(strings, order, k, p, w, out, offsets, previous)
    {
      var id := order[k];
      var s := strings[id];
      if EndsWith(previous, s) {
        MergeStep(strings, order, k, p, w, out, offsets, previous);
        offsets := offsets[id := offset - |s| - 1];
      } else {
        StoreStep(strings, order, k, p, w, out, offsets, previous);
        offsets := offsets[id := offset];
        out := out + s + [0];
        offset := offset + |s| + 1;
        previous := s;
        p := k;
      }
    }
    WrittenAll(strings, order, p, w, out, offsets, previous);
  }

  lemma WrittenInit(strings: seq<seq<byte>>, order: seq<nat>, w: seq<byte>, offsets: seq<nat>)
    requires Ids(strings, order, 0, |order|) && |offsets| == |strings|
    requires w != [] && w[|w| - 1] == 0
    ensures Written(strings, order, 0, 0, w, w, offsets, [])
  {
    assert order[..0] == [];
    assert w + [] == w;
  }

  lemma WrittenAll(strings: seq<seq<byte>>, order: seq<nat>, p: nat,
                   w: seq<byte>, out: seq<byte>, offsets: seq<nat>, previous: seq<byte>)
    requires Enumerates(order, |strings|) && Written(strings, order, |order|, p, w, out, offsets, previous)
    ensures out == w + KeptBytes(strings, order)
    ensures forall id :: 0 <= id < |strings| ==> HasString(out, offsets[id], strings[id])
  {
    assert order[..|order|] == order;
    forall id | 0 <= id < |strings|
      ensures HasString(out, offsets[id], strings[id])
    {
      assert id in order;
      var j :| 0 <= j < |order| && order[j] == id;
    }
  }
}
