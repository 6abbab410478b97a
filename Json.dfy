/** `JSON.stringify` (ECMA-262, section 25.5.2) restricted to what the action
    encoders hand it: an object literal whose members are strings or integers,
    serialised with no indentation. Strings are escaped as QuoteJSONString does
    (section 25.5.2.3), which is also valid per section 7 of RFC 8259; integers
    are JavaScript numbers that are safe integers, for which Number::toString
    yields their exact decimal numeral.

    The reference parser below reads back a flat object of string and
    integer members per RFC 8259, strictly: no whitespace, members in the
    order written. It is the partner of `Stringify` in the round trip. */
module Json {
  import opened Options

  /** Number.MAX_SAFE_INTEGER, 2^53 - 1. */
  const MaxSafeInteger: int := 0x1F_FFFF_FFFF_FFFF

  /** The integers for which Number.isSafeInteger holds: every one of them is
      a JavaScript number, and none is rounded. */
  type SafeInteger = n: int | -MaxSafeInteger <= n <= MaxSafeInteger

  datatype Primitive = Str(s: string) | Num(n: SafeInteger)

  /** A property of an object literal: its key and its value, in insertion order. */
  type Member = (string, Primitive)

  // ---------------------------------------------------------------------------
  // Serialisation
  // ---------------------------------------------------------------------------

  predicate IsDigit(c: char) {
    '0' <= c <= '9'
  }

  function DigitChar(d: nat): (c: char)
    requires d < 10
    ensures IsDigit(c) && c as int - '0' as int == d
  {
    ('0' as int + d) as char
  }

  /** Lower-case hexadecimal digit, as UnicodeEscape writes it. */
  function HexDigit(d: nat): char
    requires d < 16
  {
    if d < 10 then ('0' as int + d) as char else ('a' as int + d - 10) as char
  }

  /** The escape of one code point inside a JSON string: quotation mark and
      reverse solidus are escaped, the five control characters with a short
      form use it, the other controls below U+0020 become `\u00XX`, and every
      other scalar value stands for itself. */
  function EscapeChar(c: char): (r: string)
    ensures |r| > 0 && forall i :: 0 <= i < |r| ==> r[i] as int >= 0x20
    ensures c as int >= 0x20 && c != '"' && c != '\\' ==> r == [c]
    ensures c as int < 0x20 || c == '"' || c == '\\' ==> r[0] == '\\' && |r| >= 2
    ensures c as int < 0x80 ==> forall i :: 0 <= i < |r| ==> r[i] as int < 0x80
  {
    if c == '"' then "\\\""
    else if c == '\\' then "\\\\"
    else if c as int == 0x08 then "\\b"
    else if c == '\t' then "\\t"
    else if c == '\n' then "\\n"
    else if c as int == 0x0C then "\\f"
    else if c == '\r' then "\\r"
    else if c as int < 0x20 then "\\u00" + [HexDigit(c as int / 16), HexDigit(c as int % 16)]
    else [c]
  }

  function EscapeBody(s: string): string {
    if s == [] then [] else EscapeChar(s[0]) + EscapeBody(s[1..])
  }

  /** QuoteJSONString: the string between quotation marks, escaped. */
  function Quote(s: string): string {
    "\"" + EscapeBody(s) + "\""
  }

  /** The decimal numeral of a natural number, without leading zeros. */
  function NatText(n: nat): string {
    if n < 10 then [DigitChar(n)] else NatText(n / 10) + [DigitChar(n % 10)]
  }

  /** Number::toString of an integer-valued number. */
  function IntegerText(n: SafeInteger): string {
    if n < 0 then "-" + NatText(-n) else NatText(n)
  }

  function PrimitiveText(v: Primitive): string {
    match v
    case Str(s) => Quote(s)
    case Num(n) => IntegerText(n)
  }

  function MemberText(m: Member): string {
    Quote(m.0) + ":" + PrimitiveText(m.1)
  }

  function MembersText(ms: seq<Member>): string {
    if ms == [] then ""
    else if |ms| == 1 then MemberText(ms[0])
    else MemberText(ms[0]) + "," + MembersText(ms[1..])
  }

  /** SerializeJSONObject with an empty gap: braces around the members,
      separated by commas, in insertion order, with no whitespace. */
  function Stringify(ms: seq<Member>): string {
    "{" + MembersText(ms) + "}"
  }

  // ---------------------------------------------------------------------------
  // Reference parser (section 7 and section 6 of RFC 8259)
  // ---------------------------------------------------------------------------

  function HexValue(c: char): Option<nat> {
    if '0' <= c <= '9' then Some(c as int - '0' as int)
    else if 'a' <= c <= 'f' then Some(c as int - 'a' as int + 10)
    else if 'A' <= c <= 'F' then Some(c as int - 'A' as int + 10)
    else None
  }

  /** The character an escape sequence stands for, and how many characters
      after the reverse solidus it occupies. A `\u` escape of a surrogate
      code unit is refused: text here is a sequence of scalar values. */
  function EscapeSequence(t: string): (r: Option<(char, nat)>)
    ensures r.Some? ==> 1 <= r.value.1 <= |t|
  {
    if t == [] then None
    else if t[0] == '"' || t[0] == '\\' || t[0] == '/' then Some((t[0], 1))
    else if t[0] == 'b' then Some((0x08 as char, 1))
    else if t[0] == 'f' then Some((0x0C as char, 1))
    else if t[0] == 'n' then Some(('\n', 1))
    else if t[0] == 'r' then Some(('\r', 1))
    else if t[0] == 't' then Some(('\t', 1))
    else if t[0] == 'u' && |t| >= 5 then
      var h3 :- HexValue(t[1]);
      var h2 :- HexValue(t[2]);
      var h1 :- HexValue(t[3]);
      var h0 :- HexValue(t[4]);
      var v := ((h3 * 16 + h2) * 16 + h1) * 16 + h0;
      if 0xD800 <= v < 0xE000 || 0x10000 <= v then None else Some((v as char, 5))
    else None
  }

  /** Reads the characters of a string up to its closing quotation mark;
      returns them unescaped together with the text after that mark. */
  function UnescapeBody(t: string): (r: Option<(string, string)>)
    ensures r.Some? ==> |r.value.1| < |t|
    decreases |t|
  {
    if t == [] then None
    else if t[0] == '"' then Some(([], t[1..]))
    else if t[0] as int < 0x20 then None
    else if t[0] == '\\' then
      var (c, k) :- EscapeSequence(t[1..]);
      var (s, rest) :- UnescapeBody(t[1 + k..]);
      Some(([c] + s, rest))
    else
      var (s, rest) :- UnescapeBody(t[1..]);
      Some(([t[0]] + s, rest))
  }

  /** A JSON string at the front of `t`: its value and the text after it. */
  function ParseString(t: string): (r: Option<(string, string)>)
    ensures r.Some? ==> |r.value.1| < |t|
  {
    if t != [] && t[0] == '"' then UnescapeBody(t[1..]) else None
  }

  /** The length of the run of decimal digits at the front of `t`. */
  function DigitRun(t: string): (k: nat)
    ensures k <= |t|
  {
    if t != [] && IsDigit(t[0]) then 1 + DigitRun(t[1..]) else 0
  }

  function DigitsValue(ds: string): nat
    requires forall i :: 0 <= i < |ds| ==> IsDigit(ds[i])
  {
    if ds == [] then 0
    else
      assert IsDigit(ds[|ds| - 1]);
      DigitsValue(ds[..|ds| - 1]) * 10 + (ds[|ds| - 1] as int - '0' as int)
  }

  /** An integer numeral at the front of `t` (a minus sign, then `0` or a
      digit run without a leading zero): its value and the text after it.
      A numeral outside the safe integers is refused. */
  function ParseInteger(t: string): (r: Option<(SafeInteger, string)>)
    ensures r.Some? ==> |r.value.1| < |t|
  {
    var negative := t != [] && t[0] == '-';
    var u := if negative then t[1..] else t;
    var k := DigitRun(u);
    if k == 0 || (k > 1 && u[0] == '0') then None
    else
      assert forall i :: 0 <= i < k ==> IsDigit(u[..k][i]) by { DigitRunAreDigits(u); }
      var magnitude: int := DigitsValue(u[..k]);
      if magnitude > MaxSafeInteger then None
      else Some((if negative then -magnitude else magnitude, u[k..]))
  }

  /** A member value: a string when it opens with a quotation mark, an
      integer numeral otherwise. */
  function ParseValue(t: string): (r: Option<(Primitive, string)>)
    ensures r.Some? ==> |r.value.1| < |t|
  {
    if t != [] && t[0] == '"' then
      var (s, rest) :- ParseString(t);
      Some((Str(s), rest))
    else
      var (n, rest) :- ParseInteger(t);
      Some((Num(n), rest))
  }

  /** A key, a colon and a value. */
  function ParseMember(t: string): (r: Option<(Member, string)>)
    ensures r.Some? ==> |r.value.1| < |t|
  {
    var (key, t1) :- ParseString(t);
    if t1 != [] && t1[0] == ':' then
      var (value, t2) :- ParseValue(t1[1..]);
      Some(((key, value), t2))
    else None
  }

  /** One or more members separated by commas. */
  function ParseMembers(t: string): (r: Option<(seq<Member>, string)>)
    ensures r.Some? ==> |r.value.0| > 0 && |r.value.1| < |t|
    decreases |t|
  {
    var (m, t1) :- ParseMember(t);
    if t1 != [] && t1[0] == ',' then
      var (ms, t2) :- ParseMembers(t1[1..]);
      Some(([m] + ms, t2))
    else
      Some(([m], t1))
  }

  /** The whole text is one object whose values are strings or integers,
      written without whitespace; its members in order. */
  function ParseObject(text: string): Option<seq<Member>> {
    if |text| < 2 || text[0] != '{' then None
    else if text == "{}" then Some([])
    else
      var (ms, rest) :- ParseMembers(text[1..]);
      if rest == "}" then Some(ms) else None
  }

  lemma {:induction false} DigitRunAreDigits(t: string)
    ensures forall i :: 0 <= i < DigitRun(t) ==> IsDigit(t[i])
  {
    if t != [] && IsDigit(t[0]) {
      DigitRunAreDigits(t[1..]);
    }
  }

  // ---------------------------------------------------------------------------
  // Round trips
  // ---------------------------------------------------------------------------

  lemma HexValueHexDigit(d: nat)
    requires d < 16
    ensures HexValue(HexDigit(d)) == Some(d)
  {
  }

  /** The escape sequence behind the reverse solidus written for `c` reads back as `c`. */
  lemma EscapeSequenceOfEscape(c: char, t: string)
    requires c as int < 0x20 || c == '"' || c == '\\'
    ensures EscapeSequence(EscapeChar(c)[1..] + t) == Some((c, |EscapeChar(c)| - 1))
  {
    var n := c as int;
    if n < 0x20 && n != 0x08 && n != 0x09 && n != 0x0A && n != 0x0C && n != 0x0D {
      var e := EscapeChar(c)[1..] + t;
      assert e[..5] == ['u', '0', '0', HexDigit(n / 16), HexDigit(n % 16)];
      HexValueHexDigit(0);
      HexValueHexDigit(n / 16);
      HexValueHexDigit(n % 16);
    }
  }

  /** One escaped character in front of the rest of a string body is read back as itself. */
  lemma UnescapeEscapeChar(c: char, t: string)
    ensures UnescapeBody(EscapeChar(c) + t) ==
      (match UnescapeBody(t)
       case None => None
       case Some((s, rest)) => Some(([c] + s, rest)))
  {
    var x := EscapeChar(c) + t;
    if c as int < 0x20 || c == '"' || c == '\\' {
      EscapeSequenceOfEscape(c, t);
      assert x[1..] == EscapeChar(c)[1..] + t;
      assert x[1 + (|EscapeChar(c)| - 1)..] == t;
    } else {
      assert x[0] == c && x[1..] == t;
    }
  }

  lemma {:induction false} UnescapeEscapeBody(s: string, t: string)
    ensures UnescapeBody(EscapeBody(s) + "\"" + t) == Some((s, t))
  {
    if s == [] {
      assert EscapeBody(s) + "\"" + t == "\"" + t;
    } else {
      var tail := EscapeBody(s[1..]) + "\"" + t;
      assert EscapeBody(s) + "\"" + t == EscapeChar(s[0]) + tail;
      UnescapeEscapeBody(s[1..], t);
      UnescapeEscapeChar(s[0], tail);
      assert [s[0]] + s[1..] == s;
    }
  }

  /** A string with no quotation mark, reverse solidus or control character. */
  predicate IsPlain(s: string) {
    forall c :: c in s ==> c as int >= 0x20 && c != '"' && c != '\\'
  }

  /** A plain string is quoted verbatim. */
  lemma {:induction false} EscapeBodyPlain(s: string)
    requires IsPlain(s)
    ensures EscapeBody(s) == s
  {
    if s != [] {
      assert s[0] in s;
      assert forall c :: c in s[1..] ==> c in s;
      EscapeBodyPlain(s[1..]);
      assert [s[0]] + s[1..] == s;
    }
  }

  /** A member whose key is plain reads as the key between quotation marks,
      a colon and the value. */
  lemma PlainMemberText(k: string, v: Primitive)
    requires IsPlain(k)
    ensures MemberText((k, v)) == "\"" + k + "\":" + PrimitiveText(v)
  {
    EscapeBodyPlain(k);
    AppendAssoc("\"" + k, "\"", ":", PrimitiveText(v));
    assert "\"" + ":" == "\":";
  }

  /** A plain-keyed member after a separating comma. */
  lemma CommaPlainMemberText(k: string, v: Primitive)
    requires IsPlain(k)
    ensures "," + MemberText((k, v)) == "," + "\"" + k + "\":" + PrimitiveText(v)
  {
    PlainMemberText(k, v);
    AppendAssoc(",", "\"" + k, "\":", PrimitiveText(v));
    AppendAssoc(",", "\"", k, "\":");
  }

  /** A two-member object: its members between braces, separated by a comma. */
  lemma ObjectOfTwo(m0: Member, m1: Member)
    ensures Stringify([m0, m1]) == "{" + MemberText(m0) + ("," + MemberText(m1)) + "}"
  {
    assert [m0, m1][1..] == [m1];
    var a, b := MemberText(m0), MemberText(m1);
    assert MembersText([m0, m1]) == a + "," + b;
    Regroup2(a, b);
  }

  /** A four-member object: its members between braces, separated by commas. */
  lemma ObjectOfFour(m0: Member, m1: Member, m2: Member, m3: Member)
    ensures Stringify([m0, m1, m2, m3])
         == "{" + MemberText(m0) + ("," + MemberText(m1)) + ("," + MemberText(m2)) + ("," + MemberText(m3)) + "}"
  {
    var ms := [m0, m1, m2, m3];
    assert ms[1..] == [m1, m2, m3] && ms[1..][1..] == [m2, m3] && ms[1..][1..][1..] == [m3];
    var a, b, c, d := MemberText(m0), MemberText(m1), MemberText(m2), MemberText(m3);
    assert MembersText(ms[1..][1..]) == c + "," + d;
    assert MembersText(ms[1..]) == b + "," + (c + "," + d);
    assert MembersText(ms) == a + "," + (b + "," + (c + "," + d));
    Regroup4(a, b, c, d);
  }

  lemma Regroup2(a: string, b: string)
    ensures "{" + (a + "," + b) + "}" == "{" + a + ("," + b) + "}"
  {
  }

  lemma Regroup4(a: string, b: string, c: string, d: string)
    ensures "{" + (a + "," + (b + "," + (c + "," + d))) + "}"
         == "{" + a + ("," + b) + ("," + c) + ("," + d) + "}"
  {
  }

  /** Reading a quoted string back recovers the string and leaves what follows it. */
  lemma ParseStringQuote(s: string, t: string)
    ensures ParseString(Quote(s) + t) == Some((s, t))
  {
    assert Quote(s) + t == "\"" + (EscapeBody(s) + "\"" + t);
    UnescapeEscapeBody(s, t);
  }

  /** A natural number's numeral is a non-empty digit run without a leading
      zero, whose value is the number. */
  lemma {:induction false} NatTextDigits(n: nat)
    ensures |NatText(n)| > 0
    ensures forall i :: 0 <= i < |NatText(n)| ==> IsDigit(NatText(n)[i])
    ensures |NatText(n)| > 1 ==> NatText(n)[0] != '0'
    ensures DigitsValue(NatText(n)) == n
  {
    if n >= 10 {
      NatTextDigits(n / 10);
      var ds := NatText(n);
      assert ds[..|ds| - 1] == NatText(n / 10);
      assert ds[0] == NatText(n / 10)[0];
    }
  }

  lemma {:induction false} DigitRunOfDigits(ds: string, t: string)
    requires forall i :: 0 <= i < |ds| ==> IsDigit(ds[i])
    requires t == [] || !IsDigit(t[0])
    ensures DigitRun(ds + t) == |ds|
  {
    if ds == [] {
      assert ds + t == t;
    } else {
      assert (ds + t)[1..] == ds[1..] + t;
      DigitRunOfDigits(ds[1..], t);
    }
  }

  /** Reading an integer's numeral back recovers the integer and leaves what
      follows, provided what follows does not continue the digit run. */
  lemma ParseIntegerText(n: SafeInteger, t: string)
    requires t == [] || !IsDigit(t[0])
    ensures ParseInteger(IntegerText(n) + t) == Some((n, t))
  {
    var m: nat := if n < 0 then -n else n;
    var ds := NatText(m);
    NatTextDigits(m);
    DigitRunOfDigits(ds, t);
    var u := ds + t;
    assert u[..|ds|] == ds && u[|ds|..] == t;
    if n < 0 {
      assert IntegerText(n) + t == "-" + u;
      assert ("-" + u)[1..] == u;
    }
  }

  lemma ParseValuePrimitiveText(v: Primitive, t: string)
    requires t == [] || !IsDigit(t[0])
    ensures ParseValue(PrimitiveText(v) + t) == Some((v, t))
  {
    match v
    case Str(s) =>
      ParseStringQuote(s, t);
      assert (Quote(s) + t)[0] == '"';
    case Num(n) =>
      ParseIntegerText(n, t);
      var m: nat := if n < 0 then -n else n;
      NatTextDigits(m);
      assert (IntegerText(n) + t)[0] == IntegerText(n)[0];
      assert IntegerText(n)[0] == '-' || IntegerText(n)[0] == NatText(m)[0];
  }

  lemma ParseMemberText(m: Member, t: string)
    requires t == [] || !IsDigit(t[0])
    ensures ParseMember(MemberText(m) + t) == Some((m, t))
  {
    var vt := PrimitiveText(m.1) + t;
    assert MemberText(m) + t == Quote(m.0) + (":" + vt);
    ParseStringQuote(m.0, ":" + vt);
    assert (":" + vt)[1..] == vt;
    ParseValuePrimitiveText(m.1, t);
  }

  lemma AppendAssoc(a: string, b: string, c: string, d: string)
    ensures a + b + c + d == a + (b + (c + d))
  {
  }

  lemma ParseMembersCons(m: Member, tail: string, ms: seq<Member>, t: string)
    requires ParseMembers(tail) == Some((ms, t))
    ensures ParseMembers(MemberText(m) + ("," + tail)) == Some(([m] + ms, t))
  {
    ParseMemberText(m, "," + tail);
    assert ("," + tail)[1..] == tail;
  }

  lemma {:induction false} ParseMembersText(ms: seq<Member>, t: string)
    requires |ms| > 0
    requires t == [] || (!IsDigit(t[0]) && t[0] != ',')
    ensures ParseMembers(MembersText(ms) + t) == Some((ms, t))
  {
    if |ms| == 1 {
      ParseMemberText(ms[0], t);
      assert [ms[0]] == ms;
    } else {
      AppendAssoc(MemberText(ms[0]), ",", MembersText(ms[1..]), t);
      ParseMembersText(ms[1..], t);
      ParseMembersCons(ms[0], MembersText(ms[1..]) + t, ms[1..], t);
      assert [ms[0]] + ms[1..] == ms;
    }
  }

  /** The members text opens with the first key's quotation mark. */
  lemma MembersTextStart(ms: seq<Member>)
    requires |ms| > 0
    ensures |MembersText(ms)| > 0 && MembersText(ms)[0] == '"'
  {
    var m := ms[0];
    assert Quote(m.0)[0] == '"';
    if |ms| > 1 {
      AppendAssoc(Quote(m.0), ":" + PrimitiveText(m.1), ",", MembersText(ms[1..]));
    }
  }

  /** Round trip: reading a serialised object back yields its members, keys
      and values, in their order. */
  lemma StringifyRoundTrip(ms: seq<Member>)
    ensures ParseObject(Stringify(ms)) == Some(ms)
  {
    if ms != [] {
      var text := Stringify(ms);
      assert text[1..] == MembersText(ms) + "}";
      ParseMembersText(ms, "}");
      MembersTextStart(ms);
      assert text[1] == '"';
    }
  }
}
