/** Well-formed UTF-8, as in sections 3 and 4 of RFC 3629, over byte sequences.
    Shared by paging, line search, the output collector and the terminal writer. */
module Utf8 {

  type byte = b: int | 0 <= b < 256

  predicate IsContinuation(b: byte) {
    0x80 <= b <= 0xBF
  }

  /** The sequence length announced by a lead byte; 1 for every byte that leads nothing longer. */
  function LeadLength(b: byte): (n: nat)
    ensures 1 <= n <= 4
  {
    if 0xC2 <= b <= 0xDF then 2
    else if 0xE0 <= b <= 0xEF then 3
    else if 0xF0 <= b <= 0xF4 then 4
    else 1
  }

  /** `c` is exactly one well-formed sequence: the UTF8-1 to UTF8-4 rules of the RFC's grammar. */
  predicate IsChar(c: seq<byte>) {
    || (|c| == 1 && c[0] <= 0x7F)
    || (|c| == 2 && 0xC2 <= c[0] <= 0xDF && IsContinuation(c[1]))
    || (|c| == 3 && IsContinuation(c[1]) && IsContinuation(c[2]) && (
          || (c[0] == 0xE0 && 0xA0 <= c[1])
          || 0xE1 <= c[0] <= 0xEC
          || (c[0] == 0xED && c[1] <= 0x9F)
          || 0xEE <= c[0] <= 0xEF))
    || (|c| == 4 && IsContinuation(c[1]) && IsContinuation(c[2]) && IsContinuation(c[3]) && (
          || (c[0] == 0xF0 && 0x90 <= c[1])
          || 0xF1 <= c[0] <= 0xF3
          || (c[0] == 0xF4 && c[1] <= 0x8F)))
  }

  /** A well-formed sequence of `n` bytes starts at `i`. */
  predicate CharAt(s: seq<byte>, i: int, n: int) {
    0 <= i && 1 <= n <= 4 && i + n <= |s| && IsChar(s[i..i + n])
  }

  /** `k` is a position of `s`, and no well-formed sequence lies across it. */
  ghost predicate Boundary(s: seq<byte>, k: int) {
    0 <= k <= |s| && forall i, n :: CharAt(s, i, n) ==> k <= i || i + n <= k
  }

  /** `s` from `i` on is a concatenation of well-formed sequences. */
  predicate ValidFrom(s: seq<byte>, i: nat)
    requires i <= |s|
    decreases |s| - i
  {
    i == |s| ||
    var n := LeadLength(s[i]);
    CharAt(s, i, n) && ValidFrom(s, i + n)
  }

  predicate Valid(s: seq<byte>) {
    ValidFrom(s, 0)
  }

  // ---------- Well-formed sequences do not overlap ----------

  lemma CharShape(s: seq<byte>, i: int, n: int)
    requires CharAt(s, i, n)
    ensures n == LeadLength(s[i])
    ensures !IsContinuation(s[i])
    ensures forall k :: i < k < i + n ==> IsContinuation(s[k])
  {
    var c := s[i..i + n];
    assert c[0] == s[i];
    forall k | i < k < i + n ensures IsContinuation(s[k]) {
      assert s[k] == c[k - i];
    }
  }

  /** A position is covered by at most one well-formed sequence. */
  lemma CharsDisjoint(s: seq<byte>, i: int, n: int, j: int, m: int)
    requires CharAt(s, i, n) && CharAt(s, j, m) && i < j
    ensures i + n <= j
  {
    CharShape(s, i, n);
    CharShape(s, j, m);
  }

  lemma CharStartIsBoundary(s: seq<byte>, i: int, n: int)
    requires CharAt(s, i, n)
    ensures Boundary(s, i) && Boundary(s, i + n)
  {
    forall j, m | CharAt(s, j, m)
      ensures i <= j || j + m <= i
      ensures i + n <= j || j + m <= i + n
    {
      CharShape(s, i, n);
      CharShape(s, j, m);
      if j < i {
        CharsDisjoint(s, j, m, i, n);
      } else if i < j {
        CharsDisjoint(s, i, n, j, m);
      }
    }
  }

  lemma EdgesAreBoundaries(s: seq<byte>)
    ensures Boundary(s, 0) && Boundary(s, |s|)
  {
  }

  // ---------- Boundaries of a well-formed string ----------

  /** Every boundary of a well-formed string is one of its character positions. */
  lemma {:induction false} ValidAtBoundary(s: seq<byte>, i: nat, k: nat)
    requires i <= k <= |s| && ValidFrom(s, i) && Boundary(s, k)
    ensures ValidFrom(s, k)
    decreases |s| - i
  {
    if i < k {
      ValidAtBoundary(s, i + LeadLength(s[i]), k);
    }
  }

  /** Cutting a well-formed string at two boundaries leaves a well-formed string. */
  lemma {:induction false} ValidSlice(s: seq<byte>, a: nat, b: nat)
    requires a <= b <= |s| && ValidFrom(s, a) && Boundary(s, b)
    ensures Valid(s[a..b])
    decreases b - a
  {
    if a < b {
      var n := LeadLength(s[a]);
      ValidSlice(s, a + n, b);
      assert s[a..b] == s[a..a + n] + s[a + n..b];
      ValidChar(s[a..a + n]);
      ValidConcat(s[a..a + n], s[a + n..b]);
    }
  }

  lemma ValidChar(c: seq<byte>)
    requires IsChar(c)
    ensures Valid(c) && LeadLength(c[0]) == |c|
  {
    assert c[0..|c|] == c;
    assert CharAt(c, 0, LeadLength(c[0]));
  }

  lemma {:induction false} ValidShift(a: seq<byte>, b: seq<byte>, i: nat)
    requires i <= |b|
    ensures ValidFrom(a + b, |a| + i) == ValidFrom(b, i)
    decreases |b| - i
  {
    var s := a + b;
    if i < |b| {
      assert s[|a| + i] == b[i];
      var n := LeadLength(b[i]);
      if i + n <= |b| {
        assert s[|a| + i..|a| + i + n] == b[i..i + n];
        ValidShift(a, b, i + n);
      }
    }
  }

  lemma {:induction false} ValidConcatFrom(a: seq<byte>, b: seq<byte>, i: nat)
    requires i <= |a| && ValidFrom(a, i) && Valid(b)
    ensures ValidFrom(a + b, i)
    decreases |a| - i
  {
    if i == |a| {
      ValidShift(a, b, 0);
    } else {
      var n := LeadLength(a[i]);
      assert (a + b)[i..i + n] == a[i..i + n];
      ValidConcatFrom(a, b, i + n);
    }
  }

  lemma ValidConcat(a: seq<byte>, b: seq<byte>)
    requires Valid(a) && Valid(b)
    ensures Valid(a + b)
  {
    ValidConcatFrom(a, b, 0);
  }

  lemma {:induction false} AsciiIsValid(s: seq<byte>, i: nat)
    requires i <= |s| && forall k :: 0 <= k < |s| ==> s[k] <= 0x7F
    ensures ValidFrom(s, i)
    decreases |s| - i
  {
    if i < |s| {
      assert s[i..i + 1] == [s[i]];
      AsciiIsValid(s, i + 1);
    }
  }

  /** In a well-formed string the boundaries are exactly the positions that hold no continuation byte. */
  lemma {:induction false} BoundaryIffNoContinuation(s: seq<byte>, i: nat, k: nat)
    requires i <= k <= |s| && ValidFrom(s, i) && Boundary(s, i)
    ensures Boundary(s, k) <==> k == |s| || !IsContinuation(s[k])
    decreases |s| - i
  {
    if k == |s| {
    } else if k == i {
      CharShape(s, i, LeadLength(s[i]));
    } else {
      var n := LeadLength(s[i]);
      CharShape(s, i, n);
      CharStartIsBoundary(s, i, n);
      if i + n <= k {
        BoundaryIffNoContinuation(s, i + n, k);
      } else {
        assert CharAt(s, i, n);
      }
    }
  }

  // ---------- Decoding ----------

  /** The scalar value encoded by one well-formed sequence. */
  function CodePoint(c: seq<byte>): (v: nat)
    requires IsChar(c)
    ensures v < 0xD800 || 0xE000 <= v < 0x11_0000
  {
    if |c| == 1 then c[0]
    else if |c| == 2 then (c[0] as int - 0xC0) * 0x40 + Low6(c[1])
    else if |c| == 3 then (c[0] as int - 0xE0) * 0x1000 + Low6(c[1]) * 0x40 + Low6(c[2])
    else (c[0] as int - 0xF0) * 0x4_0000 + Low6(c[1]) * 0x1000 + Low6(c[2]) * 0x40 + Low6(c[3])
  }

  function Low6(b: byte): int { b as int - 0x80 }

  /** The text of a well-formed byte string. */
  function Decode(s: seq<byte>): string
    requires Valid(s)
  {
    if s == [] then ""
    else
      var n := LeadLength(s[0]);
      ValidTail(s);
      [CodePoint(s[..n]) as char] + Decode(s[n..])
  }

  lemma ValidTail(s: seq<byte>)
    requires Valid(s) && s != []
    ensures LeadLength(s[0]) <= |s| && IsChar(s[..LeadLength(s[0])]) && Valid(s[LeadLength(s[0])..])
  {
    var n := LeadLength(s[0]);
    assert s[0..n] == s[..n] && s == s[..n] + s[n..];
    ValidShift(s[..n], s[n..], 0);
  }

  /** Decoding commutes with cutting between characters. */
  lemma {:induction false} DecodeConcat(a: seq<byte>, b: seq<byte>)
    requires Valid(a) && Valid(b)
    ensures Valid(a + b) && Decode(a + b) == Decode(a) + Decode(b)
    decreases |a|
  {
    ValidConcat(a, b);
    if a == [] {
      assert a + b == b;
    } else {
      var n := LeadLength(a[0]);
      ValidTail(a);
      DecodeConcat(a[n..], b);
      assert a == a[..n] + a[n..];
      DecodeConcatStep(a[..n], a[n..], b);
    }
  }

  lemma DecodeConcatStep(c: seq<byte>, t: seq<byte>, b: seq<byte>)
    requires IsChar(c) && Valid(t) && Valid(b)
    requires Valid(t + b) && Decode(t + b) == Decode(t) + Decode(b)
    ensures Valid(c + t) && Valid(c + t + b) && Decode(c + t + b) == Decode(c + t) + Decode(b)
  {
    hide ValidFrom, Decode, CodePoint, IsChar;
    DecodeHead(c, t);
    DecodeHead(c, t + b);
    assert c + t + b == c + (t + b);
  }

  lemma DecodeHead(c: seq<byte>, rest: seq<byte>)
    requires IsChar(c) && Valid(rest)
    ensures Valid(c + rest) && Decode(c + rest) == [CodePoint(c) as char] + Decode(rest)
  {
    ValidChar(c);
    ValidConcat(c, rest);
    assert (c + rest)[..|c|] == c && (c + rest)[|c|..] == rest;
  }
}
