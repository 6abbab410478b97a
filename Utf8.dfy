/** UTF-8 as defined by section 3 of RFC 3629: the text-to-bytes step
    (`ethers.utils.toUtf8Bytes`) that turns a serialised action into the payload
    handed to the rollup, and the decoder a consumer of that payload applies.
    Text is a `string`, a sequence of Unicode scalar values. */
module Utf8 {
  import opened Options

  type Byte = b: int | 0 <= b < 0x100
  type Bytes = seq<Byte>

  predicate IsContinuation(b: Byte) {
    0x80 <= b < 0xC0
  }

  predicate IsAscii(s: string) {
    forall i :: 0 <= i < |s| ==> s[i] as int < 0x80
  }

  /** The number of octets RFC 3629 (section 3, the table of ranges) spends on `c`. */
  function Width(c: char): nat {
    var n := c as int;
    if n < 0x80 then 1
    else if n < 0x800 then 2
    else if n < 0x10000 then 3
    else 4
  }

  /** The octet sequence of one scalar value: the leading octet carries the
      high-order bits behind its length marker, each continuation octet six
      further bits. */
  function EncodeScalar(c: char): (r: Bytes)
    ensures |r| == Width(c)
    ensures (|r| == 1) == (r[0] < 0x80)
    ensures |r| > 1 ==> 0xC2 <= r[0] < 0xF5
    ensures forall i :: 1 <= i < |r| ==> IsContinuation(r[i])
  {
    var n := c as int;
    if n < 0x80 then
      [n]
    else if n < 0x800 then
      [0xC0 + n / 0x40, 0x80 + n % 0x40]
    else if n < 0x10000 then
      [0xE0 + n / 0x1000, 0x80 + n / 0x40 % 0x40, 0x80 + n % 0x40]
    else
      [0xF0 + n / 0x40000, 0x80 + n / 0x1000 % 0x40, 0x80 + n / 0x40 % 0x40, 0x80 + n % 0x40]
  }

  /** `toUtf8Bytes`: the concatenated encodings of the scalar values, in order. */
  function Encode(s: string): Bytes {
    if s == [] then [] else EncodeScalar(s[0]) + Encode(s[1..])
  }

  /** The valid second octet of a multi-octet sequence depends on the first
      (RFC 3629, section 4): these bounds exclude overlong forms, the surrogate
      range and values above U+10FFFF. */
  function SecondLow(b0: Byte): Byte {
    if b0 == 0xE0 then 0xA0 else if b0 == 0xF0 then 0x90 else 0x80
  }

  function SecondHigh(b0: Byte): Byte {
    if b0 == 0xED then 0x9F else if b0 == 0xF4 then 0x8F else 0xBF
  }

  /** Decodes the scalar value at the front of `b`, with the number of octets
      it occupies; `None` when the front of `b` is not a well-formed sequence. */
  function DecodeScalar(b: Bytes): (r: Option<(char, nat)>)
    requires |b| > 0
    ensures r.Some? ==> 1 <= r.value.1 <= |b| && r.value.1 <= 4
  {
    var b0 := b[0] as int;
    if b0 < 0x80 then
      Some((b0 as char, 1))
    else if 0xC2 <= b0 < 0xE0 then
      if |b| >= 2 && IsContinuation(b[1]) then
        Some((((b0 - 0xC0) * 0x40 + (b[1] as int - 0x80)) as char, 2))
      else None
    else if 0xE0 <= b0 < 0xF0 then
      if |b| >= 3 && SecondLow(b0) <= b[1] <= SecondHigh(b0) && IsContinuation(b[2]) then
        Some((((b0 - 0xE0) * 0x1000 + (b[1] as int - 0x80) * 0x40 + (b[2] as int - 0x80)) as char, 3))
      else None
    else if 0xF0 <= b0 < 0xF5 then
      if |b| >= 4 && SecondLow(b0) <= b[1] <= SecondHigh(b0) && IsContinuation(b[2]) && IsContinuation(b[3]) then
        Some((((b0 - 0xF0) * 0x40000 + (b[1] as int - 0x80) * 0x1000 + (b[2] as int - 0x80) * 0x40 + (b[3] as int - 0x80)) as char, 4))
      else None
    else
      None
  }

  /** Decodes a whole octet sequence; `None` when any part of it is ill-formed. */
  function Decode(b: Bytes): Option<string>
    decreases |b|
  {
    if b == [] then Some([])
    else
      var (c, k) :- DecodeScalar(b);
      var rest :- Decode(b[k..]);
      Some([c] + rest)
  }

  /** A well-formed UTF-8 octet sequence: one the decoder accepts. */
  predicate WellFormed(b: Bytes) {
    Decode(b).Some?
  }

  lemma {:induction false} EncodeAppend(s: string, t: string)
    ensures Encode(s + t) == Encode(s) + Encode(t)
  {
    if s == [] {
      assert s + t == t;
    } else {
      assert (s + t)[0] == s[0] && (s + t)[1..] == s[1..] + t;
      EncodeAppend(s[1..], t);
      assert EncodeScalar(s[0]) + (Encode(s[1..]) + Encode(t)) == EncodeScalar(s[0]) + Encode(s[1..]) + Encode(t);
    }
  }

  /** Splitting a value into six-bit groups, most significant first. */
  lemma SplitSixBits(n: nat)
    ensures n == n / 0x40 * 0x40 + n % 0x40
    ensures n / 0x40 == n / 0x1000 * 0x40 + n / 0x40 % 0x40
    ensures n / 0x1000 == n / 0x40000 * 0x40 + n / 0x1000 % 0x40
  {
  }

  /** Joining six-bit groups is undone by splitting them again. */
  lemma JoinSixBits(h: nat, m: nat, l: nat)
    requires m < 0x40 && l < 0x40
    ensures (h * 0x40 + m) * 0x40 + l == h * 0x1000 + m * 0x40 + l
    ensures (h * 0x1000 + m * 0x40 + l) / 0x40 == h * 0x40 + m
    ensures (h * 0x1000 + m * 0x40 + l) % 0x40 == l
    ensures (h * 0x40 + m) / 0x40 == h && (h * 0x40 + m) % 0x40 == m
  {
  }

  lemma DecodeScalarEncodeScalar(c: char, rest: Bytes)
    ensures DecodeScalar(EncodeScalar(c) + rest) == Some((c, Width(c)))
  {
    var n := c as int;
    SplitSixBits(n);
    var b := EncodeScalar(c) + rest;
    if n < 0x80 {
    } else if n < 0x800 {
      assert b[0] - 0xC0 == n / 0x40 && b[1] - 0x80 == n % 0x40;
    } else if n < 0x10000 {
      assert b[0] - 0xE0 == n / 0x1000 && b[1] - 0x80 == n / 0x40 % 0x40 && b[2] - 0x80 == n % 0x40;
    } else {
      assert b[0] - 0xF0 == n / 0x40000 && b[1] - 0x80 == n / 0x1000 % 0x40;
      assert b[2] - 0x80 == n / 0x40 % 0x40 && b[3] - 0x80 == n % 0x40;
    }
  }

  /** Decoding undoes encoding, so every encoded text is well-formed. */
  lemma {:induction false} DecodeEncode(s: string)
    ensures Decode(Encode(s)) == Some(s)
    ensures WellFormed(Encode(s))
  {
    if s != [] {
      var b := Encode(s);
      DecodeScalarEncodeScalar(s[0], Encode(s[1..]));
      assert b[Width(s[0])..] == Encode(s[1..]);
      DecodeEncode(s[1..]);
      assert [s[0]] + s[1..] == s;
    }
  }

  lemma EncodeTwo(b0: Byte, b1: Byte)
    requires 0xC2 <= b0 < 0xE0 && IsContinuation(b1)
    ensures EncodeScalar(((b0 - 0xC0) * 0x40 + (b1 - 0x80)) as char) == [b0, b1]
  {
    JoinSixBits(0, b0 - 0xC0, b1 - 0x80);
  }

  lemma EncodeThree(b0: Byte, b1: Byte, b2: Byte)
    requires 0xE0 <= b0 < 0xF0 && SecondLow(b0) <= b1 <= SecondHigh(b0) && IsContinuation(b2)
    ensures EncodeScalar(((b0 - 0xE0) * 0x1000 + (b1 - 0x80) * 0x40 + (b2 - 0x80)) as char) == [b0, b1, b2]
  {
    JoinSixBits(b0 - 0xE0, b1 - 0x80, b2 - 0x80);
    JoinSixBits(0, b0 - 0xE0, b1 - 0x80);
  }

  lemma EncodeFour(b0: Byte, b1: Byte, b2: Byte, b3: Byte)
    requires 0xF0 <= b0 < 0xF5 && SecondLow(b0) <= b1 <= SecondHigh(b0)
    requires IsContinuation(b2) && IsContinuation(b3)
    ensures EncodeScalar(((b0 - 0xF0) * 0x40000 + (b1 - 0x80) * 0x1000 + (b2 - 0x80) * 0x40 + (b3 - 0x80)) as char)
         == [b0, b1, b2, b3]
  {
    var hm := (b0 - 0xF0) * 0x40 + (b1 - 0x80);
    JoinSixBits(hm, b2 - 0x80, b3 - 0x80);
    JoinSixBits(b0 - 0xF0, b1 - 0x80, b2 - 0x80);
  }

  /** The decoder accepts only the canonical encoding of what it returns. */
  lemma EncodeScalarDecodeScalar(b: Bytes)
    requires |b| > 0 && DecodeScalar(b).Some?
    ensures EncodeScalar(DecodeScalar(b).value.0) == b[..DecodeScalar(b).value.1]
  {
    var k := DecodeScalar(b).value.1;
    if k == 2 {
      EncodeTwo(b[0], b[1]);
    } else if k == 3 {
      EncodeThree(b[0], b[1], b[2]);
    } else if k == 4 {
      EncodeFour(b[0], b[1], b[2], b[3]);
    }
  }

  lemma {:induction false} EncodeDecode(b: Bytes)
    requires Decode(b).Some?
    ensures Encode(Decode(b).value) == b
  {
    if b != [] {
      var (c, k) := DecodeScalar(b).value;
      EncodeScalarDecodeScalar(b);
      EncodeDecode(b[k..]);
      assert b == b[..k] + b[k..];
    }
  }

  /** Distinct texts have distinct encodings. */
  lemma EncodeInjective(s: string, t: string)
    requires Encode(s) == Encode(t)
    ensures s == t
  {
    DecodeEncode(s);
    DecodeEncode(t);
  }

  /** An ASCII text encodes to one octet per character, equal to its code. */
  lemma {:induction false} EncodeAscii(s: string)
    requires IsAscii(s)
    ensures |Encode(s)| == |s|
    ensures forall i :: 0 <= i < |s| ==> Encode(s)[i] == s[i] as int
  {
    if s != [] {
      assert IsAscii(s[1..]) by {
        forall i | 0 <= i < |s[1..]| ensures s[1..][i] as int < 0x80 {
          assert s[1..][i] == s[i + 1];
        }
      }
      EncodeAscii(s[1..]);
    }
  }
}
