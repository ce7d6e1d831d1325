/** Text as bytes: UTF-8 (RFC 3629, section 3), lowercase hex, and length framing. */
module Utf8 {
  import opened Wrappers

  type Byte = b: int | 0 <= b < 256

  type Bytes = seq<Byte>

  function EncodeChar(c: char): (bytes: Bytes)
    ensures 1 <= |bytes| <= 4
  {
    var n := c as int;
    if n < 0x80 then [n]
    else if n < 0x800 then [0xC0 + n / 0x40, 0x80 + n % 0x40]
    else if n < 0x10000 then [0xE0 + n / 0x1000, 0x80 + n / 0x40 % 0x40, 0x80 + n % 0x40]
    else [0xF0 + n / 0x40000, 0x80 + n / 0x1000 % 0x40, 0x80 + n / 0x40 % 0x40, 0x80 + n % 0x40]
  }

  function Encode(s: string): Bytes
  {
    if s == "" then [] else EncodeChar(s[0]) + Encode(s[1..])
  }

  predicate IsContinuation(bytes: Bytes, i: nat) { i < |bytes| && 0x80 <= bytes[i] < 0xC0 }

  function Payload(b: Byte): int { b as int - 0x80 }

  /** The first character and its length; overlong forms, surrogates and stray bytes are refused. */
  function DecodeChar(bytes: Bytes): (r: Option<(char, nat)>)
    requires bytes != []
    ensures r.Some? ==> 1 <= r.value.1 <= |bytes|
  {
    var lead := bytes[0];
    if lead < 0x80 then Some((lead as char, 1))
    else if 0xC0 <= lead < 0xE0 && IsContinuation(bytes, 1) then
      var n: int := (lead as int - 0xC0) * 0x40 + Payload(bytes[1]);
      if 0x80 <= n then Some((n as char, 2)) else None
    else if 0xE0 <= lead < 0xF0 && IsContinuation(bytes, 1) && IsContinuation(bytes, 2) then
      var n: int := (lead as int - 0xE0) * 0x1000 + Payload(bytes[1]) * 0x40 + Payload(bytes[2]);
      if 0x800 <= n && !(0xD800 <= n < 0xE000) then Some((n as char, 3)) else None
    else if 0xF0 <= lead < 0xF8 && IsContinuation(bytes, 1) && IsContinuation(bytes, 2) && IsContinuation(bytes, 3) then
      var n: int := (lead as int - 0xF0) * 0x40000 + Payload(bytes[1]) * 0x1000 + Payload(bytes[2]) * 0x40 + Payload(bytes[3]);
      if 0x10000 <= n < 0x110000 then Some((n as char, 4)) else None
    else None
  }

  /** `String::from_utf8`. */
  function Decode(bytes: Bytes): Option<string>
    decreases |bytes|
  {
    if bytes == [] then Some("")
    else
      var first := DecodeChar(bytes);
      if first.None? then None
      else
        var rest := Decode(bytes[first.value.1..]);
        if rest.None? then None else Some([first.value.0] + rest.value)
  }

  lemma DecodeCharEncode(c: char, rest: Bytes)
    ensures DecodeChar(EncodeChar(c) + rest) == Some((c, |EncodeChar(c)|))
  {
    var n, bytes := c as int, EncodeChar(c) + rest;
    assert forall i :: 0 <= i < |EncodeChar(c)| ==> bytes[i] == EncodeChar(c)[i];
    if n < 0x80 {
    } else if n < 0x800 {
      assert IsContinuation(bytes, 1);
    } else if n < 0x10000 {
      assert n / 0x40 / 0x40 == n / 0x1000;
      assert IsContinuation(bytes, 1) && IsContinuation(bytes, 2);
    } else {
      assert n / 0x40 / 0x40 == n / 0x1000 && n / 0x1000 / 0x40 == n / 0x40000;
      assert IsContinuation(bytes, 1) && IsContinuation(bytes, 2) && IsContinuation(bytes, 3);
    }
  }

  lemma {:induction false} DecodeEncode(s: string)
    ensures Decode(Encode(s)) == Some(s)
  {
    hide EncodeChar, DecodeChar;
    if s != "" {
      var head, tail := EncodeChar(s[0]), Encode(s[1..]);
      DecodeCharEncode(s[0], tail);
      DecodeEncode(s[1..]);
      assert (head + tail)[|head|..] == tail;
      assert [s[0]] + s[1..] == s;
    }
  }

  lemma EncodeInjective(s: string, t: string)
    requires Encode(s) == Encode(t)
    ensures s == t
  {
    DecodeEncode(s);
    DecodeEncode(t);
  }

  lemma {:induction false} EncodeConcat(s: string, t: string)
    ensures Encode(s + t) == Encode(s) + Encode(t)
  {
    hide EncodeChar;
    if s == "" {
      assert s + t == t;
    } else {
      EncodeConcat(s[1..], t);
      assert (s + t)[1..] == s[1..] + t;
    }
  }
}

module Hex {
  import opened Wrappers
  import opened Text
  import opened Utf8

  function HexDigit(n: nat): char
    requires n < 16
  {
    "0123456789abcdef"[n]
  }

  function HexValue(c: char): (v: Option<nat>)
    ensures v.Some? ==> v.value < 16
  {
    if '0' <= c <= '9' then Some(c as int - '0' as int)
    else if 'a' <= c <= 'f' then Some(c as int - 'a' as int + 10)
    else if 'A' <= c <= 'F' then Some(c as int - 'A' as int + 10)
    else None
  }

  /** `hex::encode`. */
  function ToHex(bytes: Bytes): string
  {
    if bytes == [] then "" else [HexDigit(bytes[0] / 16), HexDigit(bytes[0] % 16)] + ToHex(bytes[1..])
  }

  /** `hex::decode`. */
  function FromHex(s: string): Option<Bytes>
    decreases |s|
  {
    if s == "" then Some([])
    else if |s| == 1 then None
    else
      var high, low, rest := HexValue(s[0]), HexValue(s[1]), FromHex(s[2..]);
      if high.None? || low.None? || rest.None? then None else Some([16 * high.value + low.value] + rest.value)
  }

  /** `decode_fixed`: trimmed hex of exactly `n` bytes. */
  function FixedFromHex(s: string, n: nat): Option<Bytes>
  {
    var bytes := FromHex(Trim(s));
    if bytes.Some? && |bytes.value| == n then bytes else None
  }

  function LowerAscii(c: char): char { if 'A' <= c <= 'Z' then (c as int + 32) as char else c }

  predicate EqIgnoreAsciiCase(a: string, b: string)
  {
    |a| == |b| && forall i :: 0 <= i < |a| ==> LowerAscii(a[i]) == LowerAscii(b[i])
  }

  lemma DigitValue(n: nat)
    requires n < 16
    ensures HexValue(HexDigit(n)) == Some(n)
  {
  }

  lemma {:induction false} FromToHex(bytes: Bytes)
    ensures FromHex(ToHex(bytes)) == Some(bytes)
    ensures forall i :: 0 <= i < |ToHex(bytes)| ==> HexValue(ToHex(bytes)[i]).Some?
  {
    hide HexDigit, HexValue;
    if bytes != [] {
      FromToHex(bytes[1..]);
      assert ToHex(bytes)[2..] == ToHex(bytes[1..]);
      DigitValue(bytes[0] / 16);
      DigitValue(bytes[0] % 16);
      assert bytes == [bytes[0]] + bytes[1..];
    }
  }

  lemma FixedFromToHex(bytes: Bytes)
    ensures FixedFromHex(ToHex(bytes), |bytes|) == Some(bytes)
  {
    FromToHex(bytes);
    assert forall c :: HexValue(c).Some? ==> !IsWhitespace(c);
    TrimOfNonWhitespace(ToHex(bytes));
  }

  lemma TrimOfNonWhitespace(s: string)
    requires forall i :: 0 <= i < |s| ==> !IsWhitespace(s[i])
    ensures Trim(s) == s
  {
  }

  lemma CaseDoesNotChangeDigits(c: char, d: char)
    requires LowerAscii(c) == LowerAscii(d)
    ensures HexValue(c) == HexValue(d)
  {
  }

  /** Two spellings of hex that differ only in case name the same bytes. */
  lemma {:induction false} CaseDoesNotChangeHex(a: string, b: string)
    requires EqIgnoreAsciiCase(a, b)
    ensures FromHex(a) == FromHex(b)
    decreases |a|
  {
    hide HexValue, LowerAscii;
    if 2 <= |a| {
      CaseDoesNotChangeDigits(a[0], b[0]);
      CaseDoesNotChangeDigits(a[1], b[1]);
      assert forall i :: 0 <= i < |a| - 2 ==> a[2..][i] == a[i + 2] && b[2..][i] == b[i + 2];
      CaseDoesNotChangeHex(a[2..], b[2..]);
    }
  }
}

/** A domain tag, the body's length in eight bytes, the body. */
module Framing {
  import opened Utf8

  const GRANT_DOMAIN: Bytes := Encode("dent8.source-grant.v1\0")
  const SESSION_CHALLENGE_DOMAIN: Bytes := Encode("dent8.session-challenge.v1\0")
  const ATTESTATION_DOMAIN: Bytes := Encode("dent8.event-attestation.v1\0")

  /** The low `width` bytes of `n`, most significant first. */
  function BigEndian(n: nat, width: nat): (bytes: Bytes)
    ensures |bytes| == width
  {
    if width == 0 then [] else BigEndian(n / 256, width - 1) + [n % 256]
  }

  function Framed(domain: Bytes, body: Bytes): Bytes
  {
    domain + BigEndian(|body|, 8) + body
  }

  lemma FramingIsInjective(domain: Bytes, a: Bytes, b: Bytes)
    requires Framed(domain, a) == Framed(domain, b)
    ensures a == b
  {
    assert Framed(domain, a)[|domain| + 8..] == a;
    assert Framed(domain, b)[|domain| + 8..] == b;
  }

  /** A tag whose only NUL is its last byte, as every tag here is. */
  predicate IsTag(domain: Bytes)
  {
    domain != [] && forall i :: 0 <= i < |domain| ==> (domain[i] == 0 <==> i == |domain| - 1)
  }

  /** No message of one domain is a message of another, whatever the bodies. */
  lemma FramedDetermines(d: Bytes, a: Bytes, e: Bytes, b: Bytes)
    requires IsTag(d) && IsTag(e)
    requires Framed(d, a) == Framed(e, b)
    ensures d == e && a == b
  {
    var m := Framed(d, a);
    assert forall i :: 0 <= i < |d| ==> m[i] == d[i];
    assert forall i :: 0 <= i < |e| ==> m[i] == e[i];
    assert m[|d| - 1] == 0 && m[|e| - 1] == 0;
    assert |d| == |e|;
    assert d == m[..|d|] == e;
    FramingIsInjective(d, a, b);
  }

  lemma {:induction false} EncodeAscii(s: string)
    requires forall i :: 0 <= i < |s| ==> s[i] as int < 0x80
    ensures |Encode(s)| == |s| && forall i :: 0 <= i < |s| ==> Encode(s)[i] == s[i] as int
  {
    if s != "" { EncodeAscii(s[1..]); }
  }

  lemma EncodedTag(s: string)
    requires s != "" && forall i :: 0 <= i < |s| ==> s[i] as int < 0x80 && (s[i] == '\0' <==> i == |s| - 1)
    ensures IsTag(Encode(s)) && |Encode(s)| == |s|
    ensures 6 < |s| ==> Encode(s)[6] == s[6] as int
  {
    hide Encode;
    EncodeAscii(s);
  }

  lemma DomainsAreDistinctTags()
    ensures IsTag(GRANT_DOMAIN) && IsTag(SESSION_CHALLENGE_DOMAIN) && IsTag(ATTESTATION_DOMAIN)
    ensures GRANT_DOMAIN != SESSION_CHALLENGE_DOMAIN && GRANT_DOMAIN != ATTESTATION_DOMAIN
    ensures SESSION_CHALLENGE_DOMAIN != ATTESTATION_DOMAIN
  {
    hide Encode, IsTag;
    EncodedTag("dent8.source-grant.v1\0");
    EncodedTag("dent8.session-challenge.v1\0");
    EncodedTag("dent8.event-attestation.v1\0");
  }
}
