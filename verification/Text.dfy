/** The string operations of the Rust standard library that the source leans on, on `seq<char>`. */
module Text {
  import opened Wrappers

  /** `char::is_whitespace`: the Unicode White_Space property. */
  predicate IsWhitespace(c: char)
  {
    || '\t' <= c <= '\r'
    || c in {' ', '\U{0085}', '\U{00A0}', '\U{1680}', '\U{2028}', '\U{2029}', '\U{202F}', '\U{205F}', '\U{3000}'}
    || '\U{2000}' <= c <= '\U{200A}'
  }

  /** `s.trim().is_empty()`. */
  predicate IsBlank(s: string)
  {
    forall i :: 0 <= i < |s| ==> IsWhitespace(s[i])
  }

  function TrimStart(s: string): (r: string)
    ensures |r| <= |s| && r == s[|s| - |r|..]
    ensures r != "" ==> !IsWhitespace(r[0])
  {
    if s != "" && IsWhitespace(s[0]) then TrimStart(s[1..]) else s
  }

  function TrimEnd(s: string): (r: string)
    ensures |r| <= |s| && r == s[..|r|]
    ensures r != "" ==> !IsWhitespace(r[|r| - 1])
  {
    if s != "" && IsWhitespace(s[|s| - 1]) then TrimEnd(s[..|s| - 1]) else s
  }

  function Trim(s: string): string
  {
    TrimEnd(TrimStart(s))
  }

  /** Position of the first `c`, if any. */
  function IndexOf(s: string, c: char): (r: Option<nat>)
    ensures r.Some? ==> r.value < |s| && s[r.value] == c && c !in s[..r.value]
    ensures r.None? ==> c !in s
  {
    if s == "" then None
    else if s[0] == c then Some(0)
    else match IndexOf(s[1..], c)
         case None => None
         case Some(i) => Some(i + 1)
  }

  lemma {:induction false} IndexOfFirst(a: string, c: char, rest: string)
    requires c !in a
    ensures IndexOf(a + [c] + rest, c) == Some(|a|)
  {
    if a == "" {
      assert a + [c] + rest == [c] + rest;
    } else {
      assert (a + [c] + rest)[1..] == a[1..] + [c] + rest;
      IndexOfFirst(a[1..], c, rest);
    }
  }

  /** Whether `needle` occurs in `s` at position `i`. */
  predicate HasAt(s: string, i: int, needle: string)
  {
    0 <= i <= |s| - |needle| && s[i..i + |needle|] == needle
  }

  lemma HasAtChar(s: string, i: nat, needle: string, d: nat)
    ensures HasAt(s, i, needle) && d < |needle| ==> s[i + d] == needle[d]
  {
    assert HasAt(s, i, needle) && d < |needle| ==> s[i..i + |needle|][d] == s[i + d];
  }

  /** Occurrence, character by character. */
  lemma HasAtIff(s: string, i: nat, needle: string)
    ensures HasAt(s, i, needle) <==>
            i + |needle| <= |s| && forall d :: 0 <= d < |needle| ==> s[i + d] == needle[d]
  {
  }

  /** `s.find(needle)`: the leftmost occurrence. */
  function Find(s: string, needle: string): (r: Option<nat>)
    ensures r.Some? ==> HasAt(s, r.value, needle)
    ensures r.Some? ==> forall i :: 0 <= i < r.value ==> !HasAt(s, i, needle)
    ensures r.None? ==> forall i :: !HasAt(s, i, needle)
  {
    FindFrom(s, needle, 0)
  }

  /** The leftmost occurrence at or after `start`. */
  function FindFrom(s: string, needle: string, start: nat): (r: Option<nat>)
    ensures r.Some? ==> start <= r.value && HasAt(s, r.value, needle)
    ensures r.Some? ==> forall i :: start <= i < r.value ==> !HasAt(s, i, needle)
    ensures r.None? ==> forall i :: start <= i ==> !HasAt(s, i, needle)
    decreases |s| - start
  {
    if HasAt(s, start, needle) then Some(start)
    else if start >= |s| then None
    else FindFrom(s, needle, start + 1)
  }

  /** `CliSubject::from_str`: `<kind>:<key>`, split at the first colon, neither half blank. */
  function ParseSubject(raw: string): (r: Option<(string, string)>)
    ensures r.Some? ==> raw == r.value.0 + ":" + r.value.1
  {
    match IndexOf(raw, ':')
    case None => None
    case Some(i) =>
      var (kind, key) := (raw[..i], raw[i + 1..]);
      if IsBlank(kind) || IsBlank(key) then None else Some((kind, key))
  }

  /** A subject is read exactly where both sides of the first colon say something. */
  lemma ParseSubjectIff(raw: string)
    ensures match ParseSubject(raw)
            case Some((kind, key)) => raw == kind + ":" + key && ':' !in kind && !IsBlank(kind) && !IsBlank(key)
            case None => forall kind, key :: raw == kind + ":" + key && ':' !in kind ==> IsBlank(kind) || IsBlank(key)
  {
    hide IsBlank;
    forall kind, key | raw == kind + ":" + key && ':' !in kind
      ensures ParseSubject(raw) == if IsBlank(kind) || IsBlank(key) then None else Some((kind, key))
    {
      IndexOfFirst(kind, ':', key);
      assert raw[..|kind|] == kind && raw[|kind| + 1..] == key;
    }
  }

  // ---- Lines --------------------------------------------------------------------------

  function StripCr(line: string): string
  {
    if line != "" && line[|line| - 1] == '\r' then line[..|line| - 1] else line
  }

  /** `str::lines`: a line ends at `\n` or `\r\n`; the last one may have no ending. */
  function Lines(text: string): seq<string>
    decreases |text|
  {
    if text == "" then []
    else match IndexOf(text, '\n')
         case None => [text]
         case Some(i) => [StripCr(text[..i])] + Lines(text[i + 1..])
  }

  lemma FirstLine(line: string, rest: string)
    requires '\n' !in line
    ensures Lines(line + "\n" + rest) == [StripCr(line)] + Lines(rest)
  {
    var text := line + "\n" + rest;
    hide IndexOf;
    IndexOfFirst(line, '\n', rest);
    assert text[..|line|] == line && text[|line| + 1..] == rest;
  }

  /** A break at a line feed is a break between lines. */
  lemma {:induction false} LinesBreak(x: string, rest: string)
    ensures Lines(x + "\n" + rest) == Lines(x + "\n") + Lines(rest)
    decreases |x|
  {
    hide Lines, IndexOf, StripCr;
    if '\n' !in x {
      FirstLine(x, rest);
      FirstLine(x, "");
      NoText();
      assert x + "\n" + "" == x + "\n";
    } else {
      var i := IndexOf(x, '\n').value;
      var line, below := x[..i], x[i + 1..];
      assert x == line + "\n" + below;
      LinesBreak(below, rest);
      FirstLine(line, below + "\n" + rest);
      FirstLine(line, below + "\n");
      BreaksAssociate(line, below, rest);
      assert [StripCr(line)] + Lines(below + "\n") + Lines(rest) == [StripCr(line)] + (Lines(below + "\n") + Lines(rest));
    }
  }

  lemma BreaksAssociate(line: string, below: string, rest: string)
    ensures line + "\n" + below + "\n" + rest == line + "\n" + (below + "\n" + rest)
    ensures line + "\n" + below + "\n" == line + "\n" + (below + "\n")
  {
  }

  lemma NoText()
    ensures Lines("") == []
  {
  }

  lemma {:induction false} LinesHoldNoLineFeed(text: string)
    ensures forall line :: line in Lines(text) ==> '\n' !in line
    decreases |text|
  {
    if text != "" {
      match IndexOf(text, '\n')
      case None =>
      case Some(i) => LinesHoldNoLineFeed(text[i + 1..]);
    }
  }

  lemma TrimOfTight(s: string)
    requires s != "" ==> !IsWhitespace(s[0]) && !IsWhitespace(s[|s| - 1])
    ensures Trim(s) == s
  {
  }

  // ---- Replacement --------------------------------------------------------------------

  /** `s.replace(needle, by)`: every occurrence, leftmost first, none overlapping. */
  function Replace(s: string, needle: string, replacement: string): string
    requires needle != ""
    decreases |s|
  {
    if s == "" then ""
    else if needle <= s then replacement + Replace(s[|needle|..], needle, replacement)
    else [s[0]] + Replace(s[1..], needle, replacement)
  }

  // ---- From the right -----------------------------------------------------------------

  /** `s.rfind(needle)`: the rightmost occurrence. */
  function FindLast(s: string, needle: string): (r: Option<nat>)
    ensures r.Some? ==> HasAt(s, r.value, needle) && forall i :: r.value < i ==> !HasAt(s, i, needle)
    ensures r.None? ==> forall i :: !HasAt(s, i, needle)
  {
    FindLastUpTo(s, needle, |s|)
  }

  function FindLastUpTo(s: string, needle: string, n: nat): (r: Option<nat>)
    ensures r.Some? ==> r.value <= n && HasAt(s, r.value, needle) && forall i :: r.value < i <= n ==> !HasAt(s, i, needle)
    ensures r.None? ==> forall i :: i <= n ==> !HasAt(s, i, needle)
  {
    if HasAt(s, n, needle) then Some(n) else if n == 0 then None else FindLastUpTo(s, needle, n - 1)
  }

  /** `s.trim_end_matches(suffix)`. */
  function TrimEndMatches(s: string, suffix: string): string
    requires suffix != ""
    decreases |s|
  {
    if |suffix| <= |s| && s[|s| - |suffix|..] == suffix then TrimEndMatches(s[..|s| - |suffix|], suffix) else s
  }

  // ---- Words --------------------------------------------------------------------------

  /** Length of the leading run without whitespace. */
  function WordLength(s: string): (n: nat)
    ensures n <= |s| && forall i :: 0 <= i < n ==> !IsWhitespace(s[i])
    ensures n < |s| ==> IsWhitespace(s[n])
  {
    if s == "" || IsWhitespace(s[0]) then 0 else 1 + WordLength(s[1..])
  }

  function SplitWhitespace(s: string): seq<string>
    decreases |s|
  {
    if s == "" then []
    else
      var n := WordLength(s);
      if n == 0 then SplitWhitespace(s[1..]) else [s[..n]] + SplitWhitespace(s[n..])
  }

  /** Not empty, and no whitespace in it. */
  predicate IsWord(s: string)
  {
    s != "" && forall i :: 0 <= i < |s| ==> !IsWhitespace(s[i])
  }

  lemma {:induction false} TrimKeepsTightStart(line: string)
    requires line != "" && !IsWhitespace(line[0])
    ensures TrimStart(line) == line && Trim(line) != "" && Trim(line)[0] == line[0]
  {
    TrimEndKeepsStart(line);
  }

  lemma {:induction false} TrimEndKeepsStart(line: string)
    requires line != "" && !IsWhitespace(line[0])
    ensures TrimEnd(line) != "" && TrimEnd(line)[0] == line[0]
    decreases |line|
  {
    if IsWhitespace(line[|line| - 1]) { TrimEndKeepsStart(line[..|line| - 1]); }
  }
}
