/**
 * The part of Rust's `str` that the scanner relies on: a `String` is UTF-8,
 * `char_indices` pairs every char with the BYTE offset at which it starts, and
 * a byte-range slice `&s[lo..hi]` panics unless both ends fall on char
 * boundaries.
 */
module StrIndices {
  import opened Wrappers

  predicate IsAscii(c: char) {
    c as int < 0x80
  }

  predicate AllAscii(s: string) {
    forall k :: 0 <= k < |s| ==> IsAscii(s[k])
  }

  /** `char::len_utf8`: the number of bytes UTF-8 spends on c. */
  function Utf8Len(c: char): (n: nat)
    ensures 1 <= n <= 4
    ensures n == 1 <==> IsAscii(c)
  {
    if c as int < 0x80 then 1
    else if c as int < 0x800 then 2
    else if c as int < 0x1_0000 then 3
    else 4
  }

  /** `str::len`: the length of s in bytes. */
  function ByteLen(s: string): nat {
    if s == [] then 0 else Utf8Len(s[0]) + ByteLen(s[1..])
  }

  /** Every char takes between one and four bytes, so s takes between |s| and 4 * |s|. */
  lemma {:induction false} ByteLenBounds(s: string)
    ensures |s| <= ByteLen(s) <= 4 * |s|
  {
    if s != [] {
      ByteLenBounds(s[1..]);
    }
  }

  lemma {:induction false} ByteLenAppend(a: string, b: string)
    ensures ByteLen(a + b) == ByteLen(a) + ByteLen(b)
  {
    if a == [] {
      assert a + b == b;
    } else {
      assert (a + b)[1..] == a[1..] + b;
      ByteLenAppend(a[1..], b);
    }
  }

  /** An ASCII string has as many bytes as chars. */
  lemma {:induction false} ByteLenAscii(s: string)
    requires AllAscii(s)
    ensures ByteLen(s) == |s|
  {
    if s != [] {
      assert IsAscii(s[0]);
      ByteLenAscii(s[1..]);
    }
  }

  /** The byte offset of char k is the previous offset plus the previous char's width. */
  lemma ByteLenPrefixStep(s: string, k: nat)
    requires k < |s|
    ensures ByteLen(s[..k + 1]) == ByteLen(s[..k]) + Utf8Len(s[k])
  {
    assert s[..k + 1] == s[..k] + [s[k]];
    ByteLenAppend(s[..k], [s[k]]);
    assert [s[k]][1..] == [];
  }

  /** `str::char_indices`: each char of s, paired with the byte offset where it starts. */
  function CharIndices(s: string): (ci: seq<(nat, char)>)
    ensures |ci| == |s|
  {
    seq(|s|, k requires 0 <= k < |s| => (ByteLen(s[..k]), s[k]))
  }

  /** The offsets that `char_indices` reports strictly increase, by the width of each char. */
  lemma CharIndicesStep(s: string, k: nat)
    requires k + 1 < |s|
    ensures CharIndices(s)[k + 1].0 == CharIndices(s)[k].0 + Utf8Len(s[k])
  {
    ByteLenPrefixStep(s, k);
  }

  /** On ASCII text the byte offsets are the char indices. */
  lemma CharIndicesAscii(s: string, k: nat)
    requires AllAscii(s) && k < |s|
    ensures CharIndices(s)[k] == (k, s[k])
  {
    assert AllAscii(s[..k]) by {
      forall j | 0 <= j < k ensures IsAscii(s[..k][j]) {
        assert s[..k][j] == s[j];
      }
    }
    ByteLenAscii(s[..k]);
  }

  /**
   * The index of the char of s that starts at byte b (|s| when b is the byte
   * length of s), or None when b is not a char boundary of s.
   */
  function BoundaryIndex(s: string, b: nat): (r: Option<nat>)
    ensures r.Some? ==> r.value <= |s| && ByteLen(s[..r.value]) == b
  {
    if b == 0 then Some(0)
    else if s == [] || b < Utf8Len(s[0]) then None
    else
      match BoundaryIndex(s[1..], b - Utf8Len(s[0]))
      case None => None
      case Some(k) =>
        assert s[..k + 1][1..] == s[1..][..k];
        Some(k + 1)
  }

  /** Every char start, and the end of the string, is a char boundary. */
  lemma {:induction false} BoundaryIndexOf(s: string, k: nat)
    requires k <= |s|
    ensures BoundaryIndex(s, ByteLen(s[..k])) == Some(k)
  {
    if k > 0 {
      assert s[..k][1..] == s[1..][..k - 1];
      BoundaryIndexOf(s[1..], k - 1);
    }
  }

  /** `&s[lo..hi]`: None exactly where Rust panics (lo > hi, or an end off a char boundary). */
  function Slice(s: string, lo: nat, hi: nat): (r: Option<string>)
    ensures r.Some? ==> lo <= hi && ByteLen(r.value) == hi - lo
  {
    match (BoundaryIndex(s, lo), BoundaryIndex(s, hi))
    case (Some(i), Some(j)) =>
      if i <= j then
        assert s[..j] == s[..i] + s[i..j];
        ByteLenAppend(s[..i], s[i..j]);
        Some(s[i..j])
      else None
    case _ => None
  }

  /** Slicing between the starts of chars i and j gives exactly chars i..j. */
  lemma SliceChars(s: string, i: nat, j: nat)
    requires i <= j <= |s|
    ensures Slice(s, ByteLen(s[..i]), ByteLen(s[..j])) == Some(s[i..j])
  {
    BoundaryIndexOf(s, i);
    BoundaryIndexOf(s, j);
  }

  /** Longer prefixes have at least as many bytes. */
  lemma ByteLenMonotone(s: string, j: nat, k: nat)
    requires j <= k <= |s|
    ensures ByteLen(s[..j]) <= ByteLen(s[..k])
    ensures j < k ==> ByteLen(s[..j + 1]) <= ByteLen(s[..k])
  {
    assert s[..k] == s[..j] + s[j..k];
    ByteLenAppend(s[..j], s[j..k]);
    if j < k {
      assert s[..k] == s[..j + 1] + s[j + 1..k];
      ByteLenAppend(s[..j + 1], s[j + 1..k]);
    }
  }

  /** A byte offset strictly inside the encoding of char k is not a char boundary. */
  lemma InsideCharNotBoundary(s: string, k: nat, b: nat)
    requires k < |s| && ByteLen(s[..k]) < b < ByteLen(s[..k]) + Utf8Len(s[k])
    ensures BoundaryIndex(s, b) == None
  {
    ByteLenPrefixStep(s, k);
    if BoundaryIndex(s, b).Some? {
      var j := BoundaryIndex(s, b).value;
      if j <= k {
        ByteLenMonotone(s, j, k);
      } else {
        ByteLenMonotone(s, k + 1, j);
      }
    }
  }
}
