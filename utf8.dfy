/**
 * UTF-8 encoding of a string (Python's `str.encode()` with its default
 * codec), with the fact the logger relies on: an ASCII string encodes to
 * one byte per character, equal to the character's code.
 */
module Utf8 {

  /** An octet, as Python's `bytes` holds it. */
  type byte = b: int | 0 <= b < 0x100

  predicate IsAscii(s: string)
  {
    forall i :: 0 <= i < |s| ==> s[i] as int < 0x80
  }

  /** A continuation byte carrying the low six bits of `n`. */
  function Cont(n: nat): (b: byte)
    ensures 0x80 <= b < 0xC0 && b - 0x80 == n % 0x40
  {
    (0x80 + n % 0x40)
  }

  /** The UTF-8 encoding of one Unicode scalar value (RFC 3629, section 3). */
  function EncodeChar(c: char): (bs: seq<byte>)
    ensures 1 <= |bs| <= 4
    ensures |bs| == 1 <==> c as int < 0x80
    ensures |bs| == 2 <==> 0x80 <= c as int < 0x800
    ensures |bs| == 3 <==> 0x800 <= c as int < 0x10000
    ensures |bs| == 1 ==> bs[0] == c as int
    ensures |bs| > 1 ==> bs[0] >= 0xC0 && forall k :: 1 <= k < |bs| ==> 0x80 <= bs[k] < 0xC0
  {
    var n := c as int;
    if n < 0x80 then [n]
    else if n < 0x800 then [(0xC0 + n / 0x40), Cont(n)]
    else if n < 0x10000 then [(0xE0 + n / 0x1000), Cont(n / 0x40), Cont(n)]
    else [(0xF0 + n / 0x40000), Cont(n / 0x1000), Cont(n / 0x40), Cont(n)]
  }

  /** The scalar value carried by a one-to-four byte sequence. */
  function DecodeChar(bs: seq<byte>): int
    requires 1 <= |bs| <= 4
  {
    if |bs| == 1 then bs[0]
    else if |bs| == 2 then (bs[0] as int - 0xC0) * 0x40 + (bs[1] as int - 0x80)
    else if |bs| == 3 then
      ((bs[0] as int - 0xE0) * 0x40 + (bs[1] as int - 0x80)) * 0x40 + (bs[2] as int - 0x80)
    else
      (((bs[0] as int - 0xF0) * 0x40 + (bs[1] as int - 0x80)) * 0x40 + (bs[2] as int - 0x80)) * 0x40
        + (bs[3] as int - 0x80)
  }

  /** Splits `n` into its six-bit groups. */
  lemma SixBitGroups(n: nat) returns (q1: nat, q2: nat, q3: nat)
    ensures q1 == n / 0x40 && q2 == n / 0x1000 && q3 == n / 0x40000
    ensures n == q1 * 0x40 + n % 0x40
    ensures q1 == q2 * 0x40 + q1 % 0x40 && q1 % 0x40 == n / 0x40 % 0x40
    ensures q2 == q3 * 0x40 + q2 % 0x40 && q2 % 0x40 == n / 0x1000 % 0x40
  {
    q1 := n / 0x40;
    q2 := q1 / 0x40;
    q3 := q2 / 0x40;
  }

  /** Every character's encoding carries that character back. */
  lemma EncodeCharDecodes(c: char)
    ensures DecodeChar(EncodeChar(c)) == c as int
  {
    var n := c as int;
    var q1, q2, q3 := SixBitGroups(n);
    var bs := EncodeChar(c);
    if n < 0x80 {
    } else if n < 0x800 {
      assert bs == [(0xC0 + q1), Cont(n)];
    } else if n < 0x10000 {
      assert bs == [(0xE0 + q2), Cont(q1), Cont(n)];
    } else {
      assert bs == [(0xF0 + q3), Cont(q2), Cont(q1), Cont(n)];
    }
  }

  /** `s.encode()`: the concatenation of the encodings of the characters. */
  function Encode(s: string): (bs: seq<byte>)
    ensures |bs| >= |s|
  {
    if s == [] then [] else EncodeChar(s[0]) + Encode(s[1..])
  }

  lemma {:induction false} EncodeAppend(s: string, t: string)
    ensures Encode(s + t) == Encode(s) + Encode(t)
  {
    if s != [] {
      assert (s + t)[1..] == s[1..] + t;
      EncodeAppend(s[1..], t);
    } else {
      assert s + t == t;
    }
  }

  /** An ASCII string encodes to exactly one byte per character, that character's code. */
  lemma {:induction false} EncodeAscii(s: string)
    requires IsAscii(s)
    ensures |Encode(s)| == |s|
    ensures forall i :: 0 <= i < |s| ==> Encode(s)[i] == s[i] as int
  {
    if s != [] {
      EncodeAscii(s[1..]);
    }
  }
}
