/** JSON strings (section 7 of RFC 8259), as the serializer writes them and the parser reads them. */
module JsonText {
  import opened Wrappers
  import opened Hex

  /** The escape of one character: short forms, `\u00xx` for other controls, the rest verbatim. */
  function EscapeChar(c: char): (e: string)
    ensures e != ""
  {
    if c == '"' then "\\\""
    else if c == '\\' then "\\\\"
    else if c == '\U{08}' then "\\b"
    else if c == '\U{0C}' then "\\f"
    else if c == '\n' then "\\n"
    else if c == '\r' then "\\r"
    else if c == '\t' then "\\t"
    else if c as int < 0x20 then "\\u00" + [HexDigit(c as int / 16), HexDigit(c as int % 16)]
    else [c]
  }

  function Escape(s: string): string
  {
    if s == "" then "" else EscapeChar(s[0]) + Escape(s[1..])
  }

  /** `serde_json::to_string` of a string. */
  function Quote(s: string): string { "\"" + Escape(s) + "\"" }

  /** Four hex digits at the start of `text`. */
  function Hex4(text: string): (unit: Option<nat>)
    ensures unit.Some? ==> 4 <= |text| && unit.value < 0x10000
  {
    if |text| < 4 then None
    else
      var a, b, c, d := HexValue(text[0]), HexValue(text[1]), HexValue(text[2]), HexValue(text[3]);
      if a.None? || b.None? || c.None? || d.None? then None
      else Some(((a.value * 16 + b.value) * 16 + c.value) * 16 + d.value)
  }

  /** One character of a string literal and how much text it took; `None` on malformed text. */
  function UnescapeChar(text: string): (r: Option<(char, nat)>)
    requires text != ""
    ensures r.Some? ==> 1 <= r.value.1 <= |text|
  {
    if (text[0] as int) < 0x20 then None
    else if text[0] != '\\' then Some((text[0], 1))
    else if |text| == 1 then None
    else if text[1] == '"' || text[1] == '\\' || text[1] == '/' then Some((text[1], 2))
    else if text[1] == 'b' then Some(('\U{08}', 2))
    else if text[1] == 'f' then Some(('\U{0C}', 2))
    else if text[1] == 'n' then Some(('\n', 2))
    else if text[1] == 'r' then Some(('\r', 2))
    else if text[1] == 't' then Some(('\t', 2))
    else if text[1] == 'u' then UnescapeUnicode(text)
    else None
  }

  /** `\uXXXX`, or a surrogate pair of two of them. */
  function UnescapeUnicode(text: string): (r: Option<(char, nat)>)
    requires 2 <= |text|
    ensures r.Some? ==> 1 <= r.value.1 <= |text|
  {
    var unit := Hex4(text[2..]);
    if unit.None? || 0xDC00 <= unit.value < 0xE000 then None
    else if !(0xD800 <= unit.value < 0xDC00) then Some((unit.value as char, 6))
    else if |text| < 12 || text[6] != '\\' || text[7] != 'u' then None
    else
      var low := Hex4(text[8..]);
      if low.None? || !(0xDC00 <= low.value < 0xE000) then None
      else Some(((0x10000 + (unit.value - 0xD800) * 0x400 + (low.value - 0xDC00)) as char, 12))
  }

  /** The text of a literal up to its closing quote, and what follows the quote. */
  function Unescape(text: string): Option<(string, string)>
    decreases |text|
  {
    if text == "" then None
    else if text[0] == '"' then Some(("", text[1..]))
    else
      var first := UnescapeChar(text);
      if first.None? then None
      else
        var rest := Unescape(text[first.value.1..]);
        if rest.None? then None else Some(([first.value.0] + rest.value.0, rest.value.1))
  }

  /** `serde_json::from_str::<String>` on text that starts with its opening quote and has no outer whitespace. */
  function Unquote(token: string): Option<string>
  {
    if token == "" || token[0] != '"' then None
    else
      var read := Unescape(token[1..]);
      if read.None? || read.value.1 != "" then None else Some(read.value.0)
  }

  lemma UnescapeOneChar(c: char, rest: string)
    ensures UnescapeChar(EscapeChar(c) + rest) == Some((c, |EscapeChar(c)|))
    ensures EscapeChar(c)[0] != '"'
  {
    if c as int < 0x20 && |EscapeChar(c)| == 6 {
      ControlUnescapes(c, rest);
    }
  }

  lemma ControlUnescapes(c: char, rest: string)
    requires c as int < 0x20
    ensures var text := "\\u00" + [HexDigit(c as int / 16), HexDigit(c as int % 16)] + rest;
            UnescapeUnicode(text) == Some((c, 6))
  {
    hide HexDigit, HexValue;
    var hi, lo := HexDigit(c as int / 16), HexDigit(c as int % 16);
    var text := "\\u00" + [hi, lo] + rest;
    DigitValue(c as int / 16);
    DigitValue(c as int % 16);
    DigitValue(0);
    ZeroDigit();
    assert text[2..] == ['0', '0', hi, lo] + rest;
  }

  lemma ZeroDigit()
    ensures HexDigit(0) == '0'
  {
  }

  /** Reading back an escaped text stops exactly at its closing quote, whatever follows. */
  lemma {:induction false} UnescapeEscape(s: string, rest: string)
    ensures Unescape(Escape(s) + "\"" + rest) == Some((s, rest))
  {
    hide EscapeChar, UnescapeChar;
    var text := Escape(s) + "\"" + rest;
    if s == "" {
      assert text == "\"" + rest;
    } else {
      var tail := Escape(s[1..]) + "\"" + rest;
      UnescapeOneChar(s[0], tail);
      assert text == EscapeChar(s[0]) + tail;
      assert text[|EscapeChar(s[0])|..] == tail;
      UnescapeEscape(s[1..], rest);
      assert s == [s[0]] + s[1..];
    }
  }

  lemma UnquoteQuote(s: string)
    ensures Unquote(Quote(s)) == Some(s)
  {
    UnescapeEscape(s, "");
    assert Quote(s)[1..] == Escape(s) + "\"" + "";
  }

  /** A quoted string delimits itself: two texts that start with one agree on it and on what follows. */
  lemma QuoteIsPrefixFree(s: string, a: string, t: string, b: string)
    requires Quote(s) + a == Quote(t) + b
    ensures s == t && a == b
  {
    hide Escape, Unescape;
    UnescapeEscape(s, a);
    UnescapeEscape(t, b);
    BehindTheQuote(s, a);
    BehindTheQuote(t, b);
  }

  lemma BehindTheQuote(s: string, rest: string)
    ensures (Quote(s) + rest)[1..] == Escape(s) + "\"" + rest
  {
    hide Escape;
  }
}
