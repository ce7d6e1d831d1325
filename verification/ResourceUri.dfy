/** `dent8://<kind>/<key>/<predicate>`: each segment percent-encoded (section 2.1 of RFC 3986) over its UTF-8 bytes. */
module ResourceUri {
  import opened Wrappers
  import opened Utf8
  import opened Hex

  const SCHEME := "dent8://"

  /** The unreserved characters of RFC 3986, which pass through. */
  predicate IsUnreserved(b: Byte)
  {
    || '0' as int <= b <= '9' as int || 'A' as int <= b <= 'Z' as int || 'a' as int <= b <= 'z' as int
    || b == '-' as int || b == '.' as int || b == '_' as int || b == '~' as int
  }

  function UpperHexDigit(n: nat): char
    requires n < 16
  {
    "0123456789ABCDEF"[n]
  }

  function EncodeByte(b: Byte): string
  {
    if IsUnreserved(b) then [b as char] else ['%', UpperHexDigit(b / 16), UpperHexDigit(b % 16)]
  }

  function EncodeBytes(bytes: Bytes): string
  {
    if bytes == [] then "" else EncodeByte(bytes[0]) + EncodeBytes(bytes[1..])
  }

  function EncodeSegment(segment: string): string { EncodeBytes(Encode(segment)) }

  /** The value of a byte read as a hex digit. */
  function ByteDigit(b: Byte): (v: Option<nat>)
    ensures v.Some? ==> v.value < 16
  {
    HexValue(b as char)
  }

  function PercentDecode(bytes: Bytes): Option<Bytes>
    decreases |bytes|
  {
    if bytes == [] then Some([])
    else if bytes[0] == '%' as int then
      if |bytes| < 3 || ByteDigit(bytes[1]).None? || ByteDigit(bytes[2]).None? then None
      else
        var rest := PercentDecode(bytes[3..]);
        if rest.None? then None else Some([16 * ByteDigit(bytes[1]).value + ByteDigit(bytes[2]).value] + rest.value)
    else
      var rest := PercentDecode(bytes[1..]);
      if rest.None? then None else Some([bytes[0]] + rest.value)
  }

  function DecodeSegment(segment: string): Option<string>
  {
    var bytes := PercentDecode(Encode(segment));
    if bytes.None? then None else Decode(bytes.value)
  }

  function ResourceUri(kind: string, key: string, pred: string): string
  {
    SCHEME + EncodeSegment(kind) + "/" + EncodeSegment(key) + "/" + EncodeSegment(pred)
  }

  /** `s.split('/')`. */
  function SplitSlash(s: string): (parts: seq<string>)
    ensures parts != []
  {
    if s == "" then [""]
    else
      var rest := SplitSlash(s[1..]);
      if s[0] == '/' then [""] + rest else [[s[0]] + rest[0]] + rest[1..]
  }

  datatype Parsed = Parsed(kind: string, key: string, pred: string)

  function ParseResourceUri(uri: string): Option<Parsed>
  {
    if !(SCHEME <= uri) then None
    else
      var parts := SplitSlash(uri[|SCHEME|..]);
      if |parts| != 3 || parts[0] == "" || parts[1] == "" || parts[2] == "" then None
      else
        var kind, key, pred := DecodeSegment(parts[0]), DecodeSegment(parts[1]), DecodeSegment(parts[2]);
        if kind.None? || key.None? || pred.None? then None else Some(Parsed(kind.value, key.value, pred.value))
  }

  // ---- Round trip ---------------------------------------------------------------------

  /** What encoding leaves in a segment. */
  predicate IsSegmentChar(c: char)
  {
    || '0' <= c <= '9' || 'A' <= c <= 'Z' || 'a' <= c <= 'z' || c == '-' || c == '.' || c == '_' || c == '~' || c == '%'
  }

  lemma EncodedByteIsPlain(b: Byte)
    ensures EncodeByte(b) != "" && forall i :: 0 <= i < |EncodeByte(b)| ==> IsSegmentChar(EncodeByte(b)[i])
  {
    var s := EncodeByte(b);
    if !IsUnreserved(b) {
      UpperDigitIsPlain(b / 16);
      UpperDigitIsPlain(b % 16);
    }
  }

  lemma UpperDigitIsPlain(n: nat)
    requires n < 16
    ensures IsSegmentChar(UpperHexDigit(n)) && ByteDigit(UpperHexDigit(n) as int) == Some(n)
    ensures 0 <= UpperHexDigit(n) as int < 0x80
  {
  }

  lemma {:induction false} EncodedBytesArePlain(bytes: Bytes)
    ensures forall i :: 0 <= i < |EncodeBytes(bytes)| ==> IsSegmentChar(EncodeBytes(bytes)[i])
    ensures bytes != [] ==> EncodeBytes(bytes) != ""
  {
    hide EncodeByte, IsSegmentChar;
    if bytes != [] {
      EncodedByteIsPlain(bytes[0]);
      EncodedBytesArePlain(bytes[1..]);
    }
  }

  /** An encoded byte, itself as bytes, decodes back, and decoding goes on right after it. */
  lemma DecodesOneByte(b: Byte, rest: Bytes)
    ensures PercentDecode(Encode(EncodeByte(b)) + rest) ==
            match PercentDecode(rest) case None => None case Some(bytes) => Some([b] + bytes)
  {
    hide Encode, PercentDecode, ByteDigit, UpperHexDigit;
    if IsUnreserved(b) {
      SingleAscii(b as char);
      DecodesPlainByte(b, rest);
    } else {
      UpperDigitIsPlain(b / 16);
      UpperDigitIsPlain(b % 16);
      var h, l := UpperHexDigit(b / 16), UpperHexDigit(b % 16);
      TripleAscii('%', h, l);
      DecodesEscape(h as int, l as int, b / 16, b % 16, rest);
    }
  }

  lemma DecodesPlainByte(b: Byte, rest: Bytes)
    requires b != '%' as int
    ensures PercentDecode([b] + rest) == match PercentDecode(rest) case None => None case Some(bytes) => Some([b] + bytes)
  {
    hide ByteDigit;
    assert ([b] + rest)[1..] == rest;
  }

  lemma DecodesEscape(h: Byte, l: Byte, high: nat, low: nat, rest: Bytes)
    requires ByteDigit(h) == Some(high) && ByteDigit(l) == Some(low)
    ensures PercentDecode(['%' as int, h, l] + rest) ==
            match PercentDecode(rest) case None => None case Some(bytes) => Some([16 * high + low] + bytes)
  {
    hide ByteDigit;
    assert (['%' as int, h, l] + rest)[3..] == rest;
  }

  lemma SingleAscii(c: char)
    requires c as int < 0x80
    ensures Encode([c]) == [c as int]
  {
    assert [c][1..] == "";
  }

  lemma TripleAscii(a: char, b: char, c: char)
    requires a as int < 0x80 && b as int < 0x80 && c as int < 0x80
    ensures Encode([a, b, c]) == [a as int, b as int, c as int]
  {
    EncodeConcat([a], [b, c]);
    EncodeConcat([b], [c]);
    SingleAscii(a);
    SingleAscii(b);
    SingleAscii(c);
    assert [a, b, c] == [a] + [b, c] && [b, c] == [b] + [c];
  }

  lemma {:induction false} DecodesEachByte(bytes: Bytes)
    ensures PercentDecode(Encode(EncodeBytes(bytes))) == Some(bytes)
  {
    hide EncodeByte, Encode;
    if bytes == [] {
      assert Encode("") == [] by { EncodeOfNothing(); }
    } else {
      EncodeConcat(EncodeByte(bytes[0]), EncodeBytes(bytes[1..]));
      DecodesEachByte(bytes[1..]);
      DecodesOneByte(bytes[0], Encode(EncodeBytes(bytes[1..])));
      assert bytes == [bytes[0]] + bytes[1..];
    }
  }

  lemma EncodeOfNothing()
    ensures Encode("") == []
  {
  }

  /** Any text, whatever slashes, percent signs, spaces or non-ASCII it holds. */
  lemma SegmentReadsBack(segment: string)
    ensures DecodeSegment(EncodeSegment(segment)) == Some(segment)
    ensures forall i :: 0 <= i < |EncodeSegment(segment)| ==> IsSegmentChar(EncodeSegment(segment)[i])
    ensures segment != "" ==> EncodeSegment(segment) != ""
  {
    hide Encode, PercentDecode, Decode, EncodeBytes, IsSegmentChar;
    DecodesEachByte(Encode(segment));
    EncodedBytesArePlain(Encode(segment));
    DecodeEncode(segment);
    if segment != "" { SomethingEncodes(segment); }
  }

  lemma SomethingEncodes(s: string)
    requires s != ""
    ensures Encode(s) != []
  {
  }

  lemma {:induction false} SplitOfPlain(s: string)
    requires '/' !in s
    ensures SplitSlash(s) == [s]
  {
    if s != "" {
      SplitOfPlain(s[1..]);
      assert [s[0]] + s[1..] == s;
    }
  }

  lemma {:induction false} SplitAtSlash(a: string, rest: string)
    requires '/' !in a
    ensures SplitSlash(a + "/" + rest) == [a] + SplitSlash(rest)
  {
    var s := a + "/" + rest;
    if a == "" {
      assert s[0] == '/' && s[1..] == rest;
    } else {
      assert s[0] == a[0] && s[1..] == a[1..] + "/" + rest;
      SplitAtSlash(a[1..], rest);
      assert [a[0]] + a[1..] == a;
    }
  }

  function Joined(parts: seq<string>): string
    requires parts != []
  {
    if |parts| == 1 then parts[0] else parts[0] + "/" + Joined(parts[1..])
  }

  lemma JoinedStep(part: string, rest: seq<string>)
    requires rest != []
    ensures Joined([part] + rest) == part + "/" + Joined(rest)
  {
    assert ([part] + rest)[1..] == rest;
  }

  lemma JoinedGrows(c: char, parts: seq<string>)
    requires parts != []
    ensures Joined([[c] + parts[0]] + parts[1..]) == [c] + Joined(parts)
  {
    if |parts| > 1 {
      JoinedStep([c] + parts[0], parts[1..]);
      JoinedStep(parts[0], parts[1..]);
      assert parts == [parts[0]] + parts[1..];
    }
  }

  lemma {:induction false} SplitJoins(s: string)
    ensures Joined(SplitSlash(s)) == s
    ensures forall i :: 0 <= i < |SplitSlash(s)| ==> '/' !in SplitSlash(s)[i]
  {
    hide Joined;
    NoneJoined();
    if s != "" {
      var rest := SplitSlash(s[1..]);
      SplitJoins(s[1..]);
      assert s == [s[0]] + s[1..];
      if s[0] == '/' { JoinedStep("", rest); } else { JoinedGrows(s[0], rest); }
    }
  }

  lemma NoneJoined()
    ensures Joined([""]) == ""
  {
  }

  lemma ThreeJoined(a: string, b: string, c: string)
    ensures Joined([a, b, c]) == a + "/" + b + "/" + c
  {
    assert [a, b, c][1..] == [b, c] && [b, c][1..] == [c];
    assert Joined([b, c]) == b + "/" + c;
  }

  /** Three parts without a slash, joined by slashes, and no other text, come apart as these. */
  lemma ThreePartsIff(s: string, a: string, b: string, c: string)
    ensures SplitSlash(s) == [a, b, c] <==> s == a + "/" + b + "/" + c && '/' !in a && '/' !in b && '/' !in c
  {
    hide SplitSlash, Joined;
    SplitJoins(s);
    ThreeJoined(a, b, c);
    if s == a + "/" + b + "/" + c && '/' !in a && '/' !in b && '/' !in c {
      assert s == a + "/" + (b + "/" + c);
      SplitAtSlash(a, b + "/" + c);
      SplitAtSlash(b, c);
      SplitOfPlain(c);
    }
    if SplitSlash(s) == [a, b, c] {
      var parts := SplitSlash(s);
      assert parts[0] == a && parts[1] == b && parts[2] == c;
    }
  }

  /** A text is read as a fact's URI exactly when it is the scheme and three non-empty segments that decode to the names. */
  lemma ParsedIff(uri: string, kind: string, key: string, pred: string)
    ensures ParseResourceUri(uri) == Some(Parsed(kind, key, pred)) <==>
            exists a, b, c ::
              && uri == SCHEME + (a + "/" + b + "/" + c) && a != "" && b != "" && c != ""
              && '/' !in a && '/' !in b && '/' !in c
              && DecodeSegment(a) == Some(kind) && DecodeSegment(b) == Some(key) && DecodeSegment(c) == Some(pred)
  {
    hide DecodeSegment, SplitSlash;
    if SCHEME <= uri {
      var rest := uri[|SCHEME|..];
      var parts := SplitSlash(rest);
      assert uri == SCHEME + rest;
      if |parts| == 3 {
        assert parts == [parts[0], parts[1], parts[2]];
        ThreePartsIff(rest, parts[0], parts[1], parts[2]);
      }
      if a, b, c :|
           && uri == SCHEME + (a + "/" + b + "/" + c) && a != "" && b != "" && c != ""
           && '/' !in a && '/' !in b && '/' !in c
           && DecodeSegment(a) == Some(kind) && DecodeSegment(b) == Some(key) && DecodeSegment(c) == Some(pred) {
        assert rest == a + "/" + b + "/" + c;
        ThreePartsIff(rest, a, b, c);
      }
    }
  }

  /** A fact's URI names exactly that fact. */
  lemma ResourceUriReadsBack(kind: string, key: string, pred: string)
    requires kind != "" && key != "" && pred != ""
    ensures ParseResourceUri(ResourceUri(kind, key, pred)) == Some(Parsed(kind, key, pred))
  {
    hide EncodeSegment, DecodeSegment, SplitSlash, IsSegmentChar;
    SegmentReadsBack(kind);
    SegmentReadsBack(key);
    SegmentReadsBack(pred);
    SlashIsNoSegmentChar();
    var a, b, c := EncodeSegment(kind), EncodeSegment(key), EncodeSegment(pred);
    var uri := ResourceUri(kind, key, pred);
    assert uri[|SCHEME|..] == a + "/" + (b + "/" + c);
    SplitAtSlash(a, b + "/" + c);
    SplitAtSlash(b, c);
    SplitOfPlain(c);
  }

  lemma SlashIsNoSegmentChar()
    ensures !IsSegmentChar('/')
  {
  }
}
