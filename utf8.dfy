/**
 * UTF-8 as Rust uses it: `str::as_bytes` (Encode), `str::from_utf8`
 * (Decode) and `String::from_utf8_lossy` (Lossy).
 *
 * Well-formedness follows Table 3-7 of the Unicode Standard (chapter 3):
 * lead bytes 00-7F, C2-DF, E0-EF, F0-F4, with the second byte restricted
 * to A0-BF after E0, 80-9F after ED, 90-BF after F0, 80-8F after F4 and to
 * 80-BF otherwise; later bytes are 80-BF.  `from_utf8_lossy` replaces each
 * maximal subpart of an ill-formed sequence by one U+FFFD, the practice the
 * Unicode Standard recommends in section 3.9.
 */
module Utf8 {
  import opened Common

  const Replacement: char := '�'

  /** Length of the well-formed sequence a lead byte starts; 0 if it cannot start one. */
  function SequenceLength(b0: u8): (n: nat)
    ensures n <= 4
  {
    if b0 < 0x80 then 1
    else if 0xC2 <= b0 <= 0xDF then 2
    else if 0xE0 <= b0 <= 0xEF then 3
    else if 0xF0 <= b0 <= 0xF4 then 4
    else 0
  }

  /** Whether byte `k` (k >= 1) of a sequence led by `b0` is in its allowed range. */
  predicate Fits(b0: u8, k: nat, bk: u8)
  {
    if k == 1 then
      (if b0 == 0xE0 then 0xA0 else if b0 == 0xF0 then 0x90 else 0x80) <= bk <=
      (if b0 == 0xED then 0x9F else if b0 == 0xF4 then 0x8F else 0xBF)
    else 0x80 <= bk <= 0xBF
  }

  /** Number of leading bytes of `b` that agree with a well-formed sequence, counted from `k`. */
  function MatchedFrom(b: seq<u8>, k: nat, len: nat): (n: nat)
    requires 1 <= k <= len && k <= |b|
    requires forall j :: 1 <= j < k ==> Fits(b[0], j, b[j])
    decreases len - k
    ensures k <= n <= len && n <= |b|
    ensures forall j :: 1 <= j < n ==> Fits(b[0], j, b[j])
    ensures n < len ==> n == |b| || !Fits(b[0], n, b[n])
  {
    if k == len || k == |b| || !Fits(b[0], k, b[k]) then k
    else MatchedFrom(b, k + 1, len)
  }

  /** The longest prefix of `b` that is a prefix of some well-formed sequence (0 if none). */
  function Matched(b: seq<u8>): (n: nat)
    requires |b| > 0
    ensures n <= SequenceLength(b[0]) && n <= |b|
  {
    if SequenceLength(b[0]) == 0 then 0 else MatchedFrom(b, 1, SequenceLength(b[0]))
  }

  /** `b` starts with a complete well-formed sequence. */
  predicate WellFormedHead(b: seq<u8>)
  {
    |b| > 0 && SequenceLength(b[0]) > 0 && Matched(b) == SequenceLength(b[0])
  }

  /** Every sequence `Matched` accepts in full stands for a Unicode scalar value. */
  function HeadValue(b: seq<u8>): (c: char)
    requires WellFormedHead(b)
  {
    var n := SequenceLength(b[0]);
    assert forall j :: 1 <= j < n ==> Fits(b[0], j, b[j]);
    if n == 1 then b[0] as char
    else if n == 2 then ((b[0] as int - 0xC0) * 64 + (b[1] as int - 0x80)) as char
    else if n == 3 then
      assert Fits(b[0], 1, b[1]) && Fits(b[0], 2, b[2]);
      ((b[0] as int - 0xE0) * 4096 + (b[1] as int - 0x80) * 64 + (b[2] as int - 0x80)) as char
    else
      assert Fits(b[0], 1, b[1]) && Fits(b[0], 2, b[2]) && Fits(b[0], 3, b[3]);
      ((b[0] as int - 0xF0) * 262144 + (b[1] as int - 0x80) * 4096 + (b[2] as int - 0x80) * 64 + (b[3] as int - 0x80)) as char
  }

  /** `str::from_utf8`: the text the bytes encode, or None if they are not well-formed. */
  function Decode(b: seq<u8>): Option<string>
    decreases |b|
  {
    if b == [] then Some([])
    else if !WellFormedHead(b) then None
    else match Decode(b[SequenceLength(b[0])..])
      case None => None
      case Some(rest) => Some([HeadValue(b)] + rest)
  }

  /** `String::from_utf8_lossy`: each maximal ill-formed subpart becomes one U+FFFD. */
  function Lossy(b: seq<u8>): string
    decreases |b|
  {
    if b == [] then []
    else if WellFormedHead(b) then [HeadValue(b)] + Lossy(b[SequenceLength(b[0])..])
    else [Replacement] + Lossy(b[Max(1, Matched(b))..])
  }

  /** The UTF-8 bytes of one scalar value. */
  function EncodeChar(c: char): (r: seq<u8>)
    ensures 1 <= |r| <= 4
  {
    var n := c as int;
    if n < 0x80 then [n]
    else if n < 0x800 then [0xC0 + n / 64, 0x80 + n % 64]
    else if n < 0x1_0000 then [0xE0 + n / 64 / 64, 0x80 + n / 64 % 64, 0x80 + n % 64]
    else [0xF0 + n / 64 / 64 / 64, 0x80 + n / 64 / 64 % 64, 0x80 + n / 64 % 64, 0x80 + n % 64]
  }

  /** `str::as_bytes`. */
  function Encode(s: string): (r: seq<u8>)
    ensures |r| >= |s|
  {
    if s == [] then [] else EncodeChar(s[0]) + Encode(s[1..])
  }

  lemma DivMod64(n: int, q: int, r: int)
    requires n == 64 * q + r && 0 <= r < 64
    ensures n / 64 == q && n % 64 == r
  {
  }

  /** The bytes of one scalar value form a well-formed head that decodes back to it. */
  lemma EncodeCharHead(c: char, rest: seq<u8>)
    ensures var e := EncodeChar(c);
      WellFormedHead(e + rest) && SequenceLength(e[0]) == |e| && HeadValue(e + rest) == c
  {
    var n := c as int;
    if n < 0x80 {
    } else if n < 0x800 {
      EncodeTwoHead(c, rest);
    } else if n < 0x1_0000 {
      EncodeThreeHead(c, rest);
    } else {
      EncodeFourHead(c, rest);
    }
  }

  lemma EncodeTwoHead(c: char, rest: seq<u8>)
    requires 0x80 <= c as int < 0x800
    ensures var e := EncodeChar(c);
      WellFormedHead(e + rest) && SequenceLength(e[0]) == |e| && HeadValue(e + rest) == c
  {
    var b := EncodeChar(c) + rest;
    var n := c as int;
    assert n == 64 * (n / 64) + n % 64;
    assert Fits(b[0], 1, b[1]);
    assert MatchedFrom(b, 2, 2) == 2;
  }

  lemma EncodeThreeHead(c: char, rest: seq<u8>)
    requires 0x800 <= c as int < 0x1_0000
    ensures var e := EncodeChar(c);
      WellFormedHead(e + rest) && SequenceLength(e[0]) == |e| && HeadValue(e + rest) == c
  {
    var b := EncodeChar(c) + rest;
    var n := c as int;
    var q := n / 64;
    var q2 := q / 64;
    assert n == 64 * q + n % 64;
    assert q == 64 * q2 + q % 64;
    assert q2 == 0 ==> q >= 32;
    assert q2 == 13 ==> q % 64 <= 0x1F;
    assert Fits(b[0], 1, b[1]) && Fits(b[0], 2, b[2]);
    assert MatchedFrom(b, 2, 3) == 3;
  }

  lemma EncodeFourHead(c: char, rest: seq<u8>)
    requires 0x1_0000 <= c as int
    ensures var e := EncodeChar(c);
      WellFormedHead(e + rest) && SequenceLength(e[0]) == |e| && HeadValue(e + rest) == c
  {
    var b := EncodeChar(c) + rest;
    var n := c as int;
    var q := n / 64;
    var q2 := q / 64;
    var q3 := q2 / 64;
    assert n == 64 * q + n % 64;
    assert q == 64 * q2 + q % 64;
    assert q2 == 64 * q3 + q2 % 64;
    assert q3 == 0 ==> q2 >= 16;
    assert q3 == 4 ==> q2 % 64 <= 0x0F;
    assert Fits(b[0], 1, b[1]) && Fits(b[0], 2, b[2]) && Fits(b[0], 3, b[3]);
    assert MatchedFrom(b, 3, 4) == 4;
  }

  /** A well-formed head is exactly the encoding of the value it decodes to. */
  lemma HeadEncodes(b: seq<u8>)
    requires WellFormedHead(b)
    ensures EncodeChar(HeadValue(b)) == b[..SequenceLength(b[0])]
  {
    var len := SequenceLength(b[0]);
    if len == 2 {
      HeadEncodesTwo(b);
    } else if len == 3 {
      HeadEncodesThree(b);
    } else if len == 4 {
      HeadEncodesFour(b);
    }
  }

  lemma HeadEncodesTwo(b: seq<u8>)
    requires WellFormedHead(b) && SequenceLength(b[0]) == 2
    ensures EncodeChar(HeadValue(b)) == b[..2]
  {
    assert Fits(b[0], 1, b[1]);
    DivMod64(HeadValue(b) as int, b[0] - 0xC0, b[1] as int - 0x80);
  }

  lemma HeadEncodesThree(b: seq<u8>)
    requires WellFormedHead(b) && SequenceLength(b[0]) == 3
    ensures EncodeChar(HeadValue(b)) == b[..3]
  {
    var n := HeadValue(b) as int;
    assert Fits(b[0], 1, b[1]) && Fits(b[0], 2, b[2]);
    DivMod64(n, (b[0] as int - 0xE0) * 64 + (b[1] as int - 0x80), b[2] as int - 0x80);
    DivMod64(n / 64, b[0] - 0xE0, b[1] as int - 0x80);
  }

  lemma HeadEncodesFour(b: seq<u8>)
    requires WellFormedHead(b) && SequenceLength(b[0]) == 4
    ensures EncodeChar(HeadValue(b)) == b[..4]
  {
    var n := HeadValue(b) as int;
    assert Fits(b[0], 1, b[1]) && Fits(b[0], 2, b[2]) && Fits(b[0], 3, b[3]);
    DivMod64(n, (b[0] as int - 0xF0) * 4096 + (b[1] as int - 0x80) * 64 + (b[2] as int - 0x80), b[3] as int - 0x80);
    DivMod64(n / 64, (b[0] as int - 0xF0) * 64 + (b[1] as int - 0x80), b[2] as int - 0x80);
    DivMod64(n / 64 / 64, b[0] - 0xF0, b[1] as int - 0x80);
  }

  /** Round trip: `from_utf8(s.as_bytes()) == Ok(s)`. */
  lemma {:induction false} DecodeEncode(s: string)
    ensures Decode(Encode(s)) == Some(s)
  {
    if s != [] {
      var e := EncodeChar(s[0]);
      EncodeCharHead(s[0], Encode(s[1..]));
      assert (e + Encode(s[1..]))[|e|..] == Encode(s[1..]);
      DecodeEncode(s[1..]);
      assert [s[0]] + s[1..] == s;
    }
  }

  /** `from_utf8` accepts only encodings: whatever it decodes re-encodes to the same bytes. */
  lemma {:induction false} EncodeDecode(b: seq<u8>)
    requires Decode(b).Some?
    ensures Encode(Decode(b).value) == b
    decreases |b|
  {
    if b != [] {
      var len := SequenceLength(b[0]);
      var rest := b[len..];
      DecodeHead(b, rest);
      var t := Decode(rest).value;
      EncodeDecode(rest);
      HeadGlue(b, rest, t);
    }
  }

  /** Re-encoding the head in front of an encoding of the rest gives back the bytes. */
  lemma HeadGlue(b: seq<u8>, rest: seq<u8>, t: string)
    requires WellFormedHead(b) && rest == b[SequenceLength(b[0])..] && Encode(t) == rest
    ensures Encode([HeadValue(b)] + t) == b
  {
    HeadEncodes(b);
    EncodeCons(HeadValue(b), t);
    assert b[..SequenceLength(b[0])] + rest == b;
  }

  /** A successful decode starts with a well-formed head followed by a successful decode of the rest. */
  lemma DecodeHead(b: seq<u8>, rest: seq<u8>)
    requires b != [] && Decode(b).Some?
    requires |b| >= SequenceLength(b[0]) && rest == b[SequenceLength(b[0])..]
    ensures WellFormedHead(b) && Decode(rest).Some?
    ensures Decode(b).value == [HeadValue(b)] + Decode(rest).value
  {
  }

  lemma EncodeCons(c: char, t: string)
    ensures Encode([c] + t) == EncodeChar(c) + Encode(t)
  {
    assert ([c] + t)[1..] == t;
  }

  /** On well-formed input the lossy conversion changes nothing. */
  lemma {:induction false} LossyOfWellFormed(b: seq<u8>)
    requires Decode(b).Some?
    ensures Lossy(b) == Decode(b).value
    decreases |b|
  {
    if b != [] {
      LossyOfWellFormed(b[SequenceLength(b[0])..]);
    }
  }

  /** `String::from_utf8_lossy(s.as_bytes()) == s`. */
  lemma LossyEncode(s: string)
    ensures Lossy(Encode(s)) == s
  {
    DecodeEncode(s);
    LossyOfWellFormed(Encode(s));
  }

  lemma {:induction false} EncodeAppend(a: string, b: string)
    ensures Encode(a + b) == Encode(a) + Encode(b)
  {
    if a != [] {
      assert (a + b)[1..] == a[1..] + b;
      EncodeAppend(a[1..], b);
    } else {
      assert a + b == b;
    }
  }

  /** Characters below U+0080 encode as themselves. */
  lemma {:induction false} EncodeAscii(s: string)
    requires forall i :: 0 <= i < |s| ==> s[i] as int < 0x80
    ensures Encode(s) == Ascii(s)
  {
    if s != [] {
      EncodeAscii(s[1..]);
    }
  }

  /** `String::from_utf8_lossy` of ASCII bytes is the ASCII text. */
  lemma LossyAscii(s: string)
    requires forall i :: 0 <= i < |s| ==> s[i] as int < 0x80
    ensures Lossy(Ascii(s)) == s
  {
    EncodeAscii(s);
    LossyEncode(s);
  }
}
