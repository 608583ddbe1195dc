/**
 Byte strings and their code points, as sections 3 and 4 of RFC 3629 spell out the
 well-formed byte sequences. A log message is such a byte string, and the log
 splitter may cut it only where a code point starts.
 */
module Utf8 {
  import opened Sequences

  type byte = x: int | 0 <= x < 256

  predicate IsContinuation(b: byte) {
    0x80 <= b <= 0xBF
  }

  // The range of the second byte of a three-byte code point depends on the first byte.
  predicate SecondOfThree(first: byte, second: byte) {
    if first == 0xE0 then 0xA0 <= second <= 0xBF
    else if first == 0xED then 0x80 <= second <= 0x9F
    else IsContinuation(second)
  }

  predicate SecondOfFour(first: byte, second: byte) {
    if first == 0xF0 then 0x90 <= second <= 0xBF
    else if first == 0xF4 then 0x80 <= second <= 0x8F
    else IsContinuation(second)
  }

  /** The number of bytes of the code point at the head of `s`, 0 if there is none. */
  function CodePointLen(s: seq<byte>): (n: nat)
    ensures n <= 4 && n <= |s|
    ensures forall i :: 0 < i < n ==> IsContinuation(s[i])
    ensures n > 0 ==> !IsContinuation(s[0])
  {
    if |s| >= 1 && s[0] <= 0x7F then 1
    else if |s| >= 2 && 0xC2 <= s[0] <= 0xDF && IsContinuation(s[1]) then 2
    else if |s| >= 3 && 0xE0 <= s[0] <= 0xEF && SecondOfThree(s[0], s[1]) && IsContinuation(s[2]) then 3
    else if |s| >= 4 && 0xF0 <= s[0] <= 0xF4 && SecondOfFour(s[0], s[1]) && IsContinuation(s[2])
            && IsContinuation(s[3]) then 4
    else 0
  }

  predicate Valid(s: seq<byte>) {
    s == [] || (CodePointLen(s) > 0 && Valid(s[CodePointLen(s)..]))
  }

  /** Rust's `str::is_char_boundary`. */
  predicate IsCharBoundary(s: seq<byte>, i: nat) {
    i == 0 || i == |s| || (i < |s| && !IsContinuation(s[i]))
  }

  lemma CodePointLenOfPrefix(s: seq<byte>, k: nat)
    requires 0 < CodePointLen(s) <= k <= |s| || (k <= |s| && 0 < CodePointLen(s[..k]))
    ensures CodePointLen(s[..k]) == CodePointLen(s)
  {
  }

  /** Cutting a valid string at a boundary leaves two valid strings. */
  lemma {:induction false} CutAtBoundary(s: seq<byte>, i: nat)
    requires Valid(s) && i <= |s| && IsCharBoundary(s, i)
    ensures Valid(s[..i]) && Valid(s[i..])
    decreases |s|
  {
    if i == 0 {
      assert s[i..] == s;
    } else {
      var n := CodePointLen(s);
      assert i >= n;
      CutAtBoundary(s[n..], i - n);
      CodePointLenOfPrefix(s, i);
      assert s[..i][n..] == s[n..][..i - n];
      assert s[n..][i - n..] == s[i..];
    }
  }

  /** Conversely, a prefix of a valid string is valid only when it ends at a boundary. */
  lemma {:induction false} ValidPrefixEndsAtBoundary(s: seq<byte>, i: nat)
    requires Valid(s) && i <= |s| && Valid(s[..i])
    ensures IsCharBoundary(s, i)
    decreases |s|
  {
    if 0 < i < |s| {
      CodePointLenOfPrefix(s, i);
      var n := CodePointLen(s);
      assert s[..i][n..] == s[n..][..i - n];
      ValidPrefixEndsAtBoundary(s[n..], i - n);
      if i == n {
        assert s[n..] != [] && !IsContinuation(s[n..][0]);
      }
    }
  }

  lemma CodePointLenOfConcat(a: seq<byte>, b: seq<byte>)
    requires CodePointLen(a) > 0
    ensures CodePointLen(a + b) == CodePointLen(a)
  {
    assert forall i :: 0 <= i < |a| ==> (a + b)[i] == a[i];
  }

  lemma {:induction false} ConcatValid(a: seq<byte>, b: seq<byte>)
    requires Valid(a) && Valid(b)
    ensures Valid(a + b)
    decreases |a|
  {
    if a == [] {
      assert a + b == b;
    } else {
      var n := CodePointLen(a);
      CodePointLenOfConcat(a, b);
      ConcatValid(a[n..], b);
      DropConcat(a, b, n);
    }
  }

  /** No position of a valid string is more than three bytes past a boundary. */
  lemma {:induction false} BoundaryNearby(s: seq<byte>, m: nat) returns (k: nat)
    requires Valid(s) && m <= |s|
    ensures k <= m <= k + 3 && IsCharBoundary(s, k)
    decreases |s|
  {
    if m == 0 || m < CodePointLen(s) {
      k := 0;
    } else {
      var n := CodePointLen(s);
      k := BoundaryNearby(s[n..], m - n);
      k := k + n;
      if k == n && n < |s| {
        assert !IsContinuation(s[n..][0]);
      }
    }
  }

  /** The bytes of an ASCII text; any other character would become a question mark. */
  function Ascii(text: string): (s: seq<byte>)
    ensures |s| == |text|
    ensures forall i :: 0 <= i < |s| ==> s[i] < 128 && (text[i] < 128 as char ==> s[i] == text[i] as int)
  {
    seq(|text|, i requires 0 <= i < |text| => if text[i] < 128 as char then text[i] as int else '?' as int)
  }

  lemma {:induction false} AsciiValid(s: seq<byte>)
    requires forall i :: 0 <= i < |s| ==> s[i] < 128
    ensures Valid(s)
  {
    if s != [] {
      AsciiValid(s[1..]);
    }
  }
}
