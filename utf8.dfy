/** UTF-8 as Python's codec applies it: `str.encode('utf-8')`, and
    `bytes.decode('utf-8', 'replace')`, which replaces every maximal ill-formed
    subsequence by one U+FFFD (the "maximal subpart" practice of the Unicode
    Standard, chapter 3). */
module Utf8 {

  type Byte = b: int | 0 <= b < 256

  const Replacement: char := '�'

  /** The bytes of one character. */
  function EncodeChar(c: char): (bs: seq<Byte>)
    ensures 1 <= |bs| <= 4
    ensures (c as int < 0x80) == (|bs| == 1)
  {
    var cp := c as int;
    var q1, d0 := cp / 64, cp % 64;
    var q2, d1 := q1 / 64, q1 % 64;
    var q3, d2 := q2 / 64, q2 % 64;
    if cp < 0x80 then [cp]
    else if cp < 0x800 then [0xC0 + q1, 0x80 + d0]
    else if cp < 0x10000 then [0xE0 + q2, 0x80 + d1, 0x80 + d0]
    else [0xF0 + q3, 0x80 + d2, 0x80 + d1, 0x80 + d0]
  }

  function Encode(s: string): seq<Byte>
  {
    if s == [] then [] else EncodeChar(s[0]) + Encode(s[1..])
  }

  /** The length of the sequence a lead byte announces; 0 for a byte that
      cannot start a character (a continuation byte, C0, C1, F5..FF). */
  function SequenceLength(b0: Byte): nat
  {
    if b0 < 0x80 then 1
    else if 0xC2 <= b0 <= 0xDF then 2
    else if 0xE0 <= b0 <= 0xEF then 3
    else if 0xF0 <= b0 <= 0xF4 then 4
    else 0
  }

  /** Whether `b` may stand at position `k` (1-based after the lead byte)
      of a sequence led by `b0`; the second byte has a narrower range after
      E0, ED, F0 and F4, which excludes overlong forms, surrogates and code
      points above U+10FFFF. */
  predicate ContinuationOk(b0: Byte, k: nat, b: Byte)
  {
    if k == 1 && b0 == 0xE0 then 0xA0 <= b <= 0xBF
    else if k == 1 && b0 == 0xED then 0x80 <= b <= 0x9F
    else if k == 1 && b0 == 0xF0 then 0x90 <= b <= 0xBF
    else if k == 1 && b0 == 0xF4 then 0x80 <= b <= 0x8F
    else 0x80 <= b <= 0xBF
  }

  /** The end of the longest well-formed prefix, starting from position `k`,
      of a sequence of announced length `n` at the head of `bs`. */
  function WellFormedEnd(bs: seq<Byte>, n: nat, k: nat): (j: nat)
    requires 1 <= k <= n && |bs| > 0
    ensures k <= j <= n && j <= |bs| + (if k > |bs| then k - |bs| else 0)
    ensures j <= |bs| || j == k
    ensures forall t :: k <= t < j ==> t < |bs| && ContinuationOk(bs[0], t, bs[t])
    decreases n - k
  {
    if k < n && k < |bs| && ContinuationOk(bs[0], k, bs[k]) then WellFormedEnd(bs, n, k + 1) else k
  }

  function CodePoint(bs: seq<Byte>, n: nat): int
    requires 1 <= n <= 4 && n <= |bs|
  {
    var b0: int, b1: int := bs[0], if n >= 2 then bs[1] else 0x80;
    var b2: int, b3: int := if n >= 3 then bs[2] else 0x80, if n >= 4 then bs[3] else 0x80;
    if n == 1 then b0
    else if n == 2 then (b0 - 0xC0) * 64 + (b1 - 0x80)
    else if n == 3 then ((b0 - 0xE0) * 64 + (b1 - 0x80)) * 64 + (b2 - 0x80)
    else (((b0 - 0xF0) * 64 + (b1 - 0x80)) * 64 + (b2 - 0x80)) * 64 + (b3 - 0x80)
  }

  predicate IsScalarValue(cp: int) {
    0 <= cp < 0xD800 || 0xE000 <= cp < 0x110000
  }

  /** A lead byte followed by well-formed continuation bytes encodes a
      Unicode scalar value. */
  lemma CodePointIsScalar(bs: seq<Byte>, n: nat)
    requires |bs| >= n >= 1 && SequenceLength(bs[0]) == n
    requires forall t :: 1 <= t < n ==> ContinuationOk(bs[0], t, bs[t])
    ensures IsScalarValue(CodePoint(bs, n))
  {
    if n == 3 {
      assert ContinuationOk(bs[0], 1, bs[1]) && ContinuationOk(bs[0], 2, bs[2]);
    } else if n == 4 {
      assert ContinuationOk(bs[0], 1, bs[1]) && ContinuationOk(bs[0], 2, bs[2]);
      assert ContinuationOk(bs[0], 3, bs[3]);
    } else if n == 2 {
      assert ContinuationOk(bs[0], 1, bs[1]);
    }
  }

  /** `bytes.decode('utf-8', 'replace')`. */
  function Decode(bs: seq<Byte>): string
    decreases |bs|
  {
    if bs == [] then []
    else
      var n := SequenceLength(bs[0]);
      if n == 0 then [Replacement] + Decode(bs[1..])
      else
        var j := WellFormedEnd(bs, n, 1);
        if j == n then
          CodePointIsScalar(bs, n);
          [CodePoint(bs, n) as char] + Decode(bs[n..])
        else [Replacement] + Decode(bs[j..])
  }

  lemma DecodeNonEmpty(bs: seq<Byte>)
    ensures |Decode(bs)| == 0 <==> bs == []
  {
  }

  /** Decoding consumes exactly the bytes of the first encoded character. */
  lemma DecodeEncodedChar(c: char, rest: seq<Byte>)
    ensures Decode(EncodeChar(c) + rest) == [c] + Decode(rest)
  {
    var cp := c as int;
    var q1, d0 := cp / 64, cp % 64;
    var q2, d1 := q1 / 64, q1 % 64;
    var q3, d2 := q2 / 64, q2 % 64;
    assert cp == q1 * 64 + d0 && q1 == q2 * 64 + d1 && q2 == q3 * 64 + d2;
    var e := EncodeChar(c);
    var bs := e + rest;
    var n := |e|;
    assert bs[..n] == e && bs[n..] == rest;
    if cp < 0x80 {
      assert SequenceLength(bs[0]) == 1;
    } else if cp < 0x800 {
      assert SequenceLength(bs[0]) == 2;
      assert WellFormedEnd(bs, 2, 2) == 2;
      assert WellFormedEnd(bs, 2, 1) == 2;
      assert CodePoint(bs, 2) == cp;
    } else if cp < 0x10000 {
      assert q2 < 16 && !(0xD800 <= cp < 0xE000);
      assert SequenceLength(bs[0]) == 3;
      assert q2 == 0 ==> q1 >= 32;
      assert q2 == 13 ==> q1 < 0x360;
      assert ContinuationOk(bs[0], 1, bs[1]);
      assert ContinuationOk(bs[0], 2, bs[2]);
      assert WellFormedEnd(bs, 3, 3) == 3;
      assert WellFormedEnd(bs, 3, 2) == 3;
      assert WellFormedEnd(bs, 3, 1) == 3;
      assert CodePoint(bs, 3) == cp;
    } else {
      assert cp < 0x110000;
      assert q2 < 0x110 && q3 <= 4;
      assert SequenceLength(bs[0]) == 4;
      assert q3 == 0 ==> q2 >= 16;
      assert ContinuationOk(bs[0], 1, bs[1]);
      assert ContinuationOk(bs[0], 2, bs[2]);
      assert ContinuationOk(bs[0], 3, bs[3]);
      assert WellFormedEnd(bs, 4, 4) == 4;
      assert WellFormedEnd(bs, 4, 3) == 4;
      assert WellFormedEnd(bs, 4, 2) == 4;
      assert WellFormedEnd(bs, 4, 1) == 4;
      assert CodePoint(bs, 4) == cp;
    }
  }

  /** Decoding undoes encoding: the round trip is the identity on every string. */
  lemma {:induction false} DecodeEncode(s: string)
    ensures Decode(Encode(s)) == s
  {
    if s != [] {
      DecodeEncodedChar(s[0], Encode(s[1..]));
      DecodeEncode(s[1..]);
    }
  }

  lemma {:induction false} EncodeAppend(a: string, b: string)
    ensures Encode(a + b) == Encode(a) + Encode(b)
  {
    if a == [] {
      assert a + b == b;
    } else {
      assert (a + b)[0] == a[0] && (a + b)[1..] == a[1..] + b;
      EncodeAppend(a[1..], b);
      calc {
        Encode(a + b);
        EncodeChar(a[0]) + Encode(a[1..] + b);
        EncodeChar(a[0]) + (Encode(a[1..]) + Encode(b));
      }
    }
  }
}
