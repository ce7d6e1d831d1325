/** The `dent8://` references of a native memory file: how they are extracted, and what a reference is taken to name. */
module Native {
  import opened Wrappers
  import opened Text
  import opened Utf8
  import opened ResourceUri
  import opened ManagedBlock
  import opened BlockLines
  import opened RoundTrip
  import SpliceScan
  import ExportedFiles

  // ---- Extraction ---------------------------------------------------------------------

  /** A token of a line: where it starts and ends. */
  datatype Token = Token(start: nat, end: nat)

  /** The token that starts at `start`: up to the next terminator. */
  function TokenAt(line: string, start: nat): Token
    requires start <= |line|
  {
    Token(start, start + TokenLength(line[start..]))
  }

  /** Where the scan goes on: past the token, and past the scheme in any case. */
  function After(token: Token): nat
  {
    if token.end < token.start + |SCHEME| then token.start + |SCHEME| else token.end
  }

  /** The tokens at or after `offset`: each from a `dent8://` to the next terminator, then on from there. */
  function TokensFrom(line: string, offset: nat): seq<Token>
    requires offset <= |line|
    decreases |line| - offset
  {
    match FindFrom(line, SCHEME, offset)
    case None => []
    case Some(start) =>
      var token := TokenAt(line, start);
      [token] + (if After(token) >= |line| then [] else TokensFrom(line, After(token)))
  }

  datatype Named = Named(kind: string, key: string, pred: string)

  /** `None` is a reference that does not parse. The column counts bytes. */
  datatype Reference = Reference(uri: string, line: nat, column: nat, named: Option<Named>)

  /** The segments as they stand in the URI: this reader does not undo percent-encoding. */
  function ParseReceiptReference(uri: string): Option<Named>
  {
    if !(SCHEME <= uri) then None
    else
      var parts := SplitSlash(uri[|SCHEME|..]);
      if |parts| != 3 || IsBlank(parts[0]) || IsBlank(parts[1]) || IsBlank(parts[2]) then None
      else Some(Named(parts[0], parts[1], parts[2]))
  }

  function ReferenceOf(line: string, n: nat, token: Token): Reference
    requires token.start <= token.end <= |line|
  {
    var uri := line[token.start..token.end];
    Reference(uri, n, |Encode(line[..token.start])| + 1, ParseReceiptReference(uri))
  }

  function ReferencesOfLine(line: string, n: nat): seq<Reference>
  {
    TokensAreInLine(line, 0);
    var tokens := TokensFrom(line, 0);
    seq(|tokens|, i requires 0 <= i < |tokens| => ReferenceOf(line, n, tokens[i]))
  }

  function ReferencesOf(lines: seq<string>, n: nat): seq<Reference>
    decreases |lines|
  {
    if lines == [] then [] else ReferencesOfLine(lines[0], n) + ReferencesOf(lines[1..], n + 1)
  }

  method ExtractReceiptReferences(text: string) returns (references: seq<Reference>)
    ensures references == ReferencesOf(Lines(text), 1)
  {
    hide Lines, ReferencesOfLine;
    references := [];
    var lines := Lines(text);
    for i := 0 to |lines|
      invariant references + ReferencesOf(lines[i..], i + 1) == ReferencesOf(lines, 1)
    {
      assert lines[i..][1..] == lines[i + 1..];
      var here := ExtractFromLine(lines[i], i + 1);
      references := references + here;
    }
    assert lines[|lines|..] == [];
  }

  method ExtractFromLine(line: string, n: nat) returns (references: seq<Reference>)
    ensures references == ReferencesOfLine(line, n)
  {
    hide SCHEME, FindFrom, TokenAt, ReferenceOf, HasAt, After, TokensFrom;
    TokensAreInLine(line, 0);
    references := [];
    var offset := 0;
    ghost var tokens := TokensFrom(line, 0);
    while offset < |line|
      invariant |references| <= |tokens|
      invariant offset < |line| || (offset == 0 == |line|) ==> tokens[|references|..] == TokensFrom(line, offset)
      invariant offset >= |line| && 0 < |line| ==> |references| == |tokens|
      invariant forall i :: 0 <= i < |references| ==> references[i] == ReferenceOf(line, n, tokens[i])
      decreases |line| - offset
    {
      var found := FindFrom(line, SCHEME, offset);
      TokensStep(line, offset);
      if found.None? { break; }
      var token := TokenAt(line, found.value);
      assert tokens[|references|] == tokens[|references|..][0] == token;
      ghost var k := |references|;
      references := references + [ReferenceOf(line, n, token)];
      assert tokens[k + 1..] == tokens[k..][1..];
      offset := After(token);
    }
    if |line| == 0 { NoTokens(line); }
  }

  lemma NoTokens(line: string)
    requires |line| == 0
    ensures TokensFrom(line, 0) == []
  {
    if FindFrom(line, SCHEME, 0).Some? { SchemeFits(line, FindFrom(line, SCHEME, 0).value); }
  }

  /** One step of the scan. */
  lemma TokensStep(line: string, offset: nat)
    requires offset <= |line|
    ensures var found, tokens := FindFrom(line, SCHEME, offset), TokensFrom(line, offset);
            if found.None? then tokens == []
            else
              && offset <= found.value && found.value + 8 <= |line|
              && tokens != [] && tokens[0] == TokenAt(line, found.value) && offset < After(tokens[0])
              && tokens[0].start <= tokens[0].end <= |line|
              && tokens[1..] == if After(tokens[0]) >= |line| then [] else TokensFrom(line, After(tokens[0]))
  {
    var found := FindFrom(line, SCHEME, offset);
    if found.Some? { SchemeFits(line, found.value); }
  }

  lemma SchemeFits(line: string, start: nat)
    requires HasAt(line, start, SCHEME)
    ensures |SCHEME| == 8 && start + 8 <= |line|
  {
  }

  lemma {:induction false} TokensAreInLine(line: string, offset: nat)
    requires offset <= |line|
    ensures forall token :: token in TokensFrom(line, offset) ==> token.start <= token.end <= |line|
    decreases |line| - offset
  {
    hide SCHEME, FindFrom, TokenAt, HasAt, After, TokensFrom;
    TokensStep(line, offset);
    var tokens := TokensFrom(line, offset);
    if tokens != [] {
      if After(tokens[0]) < |line| { TokensAreInLine(line, After(tokens[0])); }
      assert tokens == [tokens[0]] + tokens[1..];
    }
  }

  // ---- Completeness -------------------------------------------------------------------

  lemma SchemeCharsEndNothing()
    ensures |SCHEME| == 8 && forall i :: 0 <= i < 8 ==> !IsUriTerminator(SCHEME[i])
  {
    SchemeCharacters();
    hide IsUriTerminator, IsUriChar;
    forall i | 0 <= i < |SCHEME| ensures !IsUriTerminator(SCHEME[i]) { UriCharEndsNothing(SCHEME[i]); }
  }

  /** A token reaches past every `dent8://` that starts in it. */
  lemma TokenHoldsTheScheme(line: string, start: nat, p: nat)
    requires start <= p <= |line| && HasAt(line, p, SCHEME) && p < start + TokenLength(line[start..])
    ensures p + 8 <= start + TokenLength(line[start..])
  {
    SchemeCharsEndNothing();
    hide SCHEME, IsUriTerminator;
    var tail := line[start..];
    var n := TokenLength(tail);
    HasAtIff(line, p, SCHEME);
    assert forall d :: 0 <= d < 8 ==> tail[p - start + d] == line[p + d] == SCHEME[d];
  }

  /** A token starts with the scheme, ends at a terminator or the end of the line, and holds none. */
  ghost predicate IsToken(line: string, token: Token)
  {
    && token.start + 8 <= token.end <= |line| && HasAt(line, token.start, SCHEME)
    && (forall i :: token.start <= i < token.end ==> !IsUriTerminator(line[i]))
    && (token.end < |line| ==> IsUriTerminator(line[token.end]))
  }

  lemma FirstTokenIsToken(line: string, start: nat)
    requires HasAt(line, start, SCHEME)
    ensures IsToken(line, Token(start, start + TokenLength(line[start..])))
  {
    SchemeFits(line, start);
    SchemeCharsEndNothing();
    hide SCHEME, IsUriTerminator;
    var tail := line[start..];
    var n := TokenLength(tail);
    HasAtChar(line, start, SCHEME, 0);
    assert tail[0] == line[start];
    assert 0 < n;
    TokenHoldsTheScheme(line, start, start);
    assert forall i :: start <= i < start + n ==> line[i] == tail[i - start];
    assert n < |tail| ==> line[start + n] == tail[n];
  }

  /**
   The tokens of a line are whole, disjoint and in order, and every `dent8://` of the line lies in one:
   no reference escapes the scan.
   */
  lemma {:induction false} TokensCoverEveryReference(line: string, offset: nat)
    requires offset <= |line|
    ensures var tokens := TokensFrom(line, offset);
            && (forall i :: 0 <= i < |tokens| ==> IsToken(line, tokens[i]) && offset <= tokens[i].start)
            && (forall i, j :: 0 <= i < j < |tokens| ==> tokens[i].end <= tokens[j].start)
            && (forall p: nat :: offset <= p && HasAt(line, p, SCHEME) ==>
                  exists i :: 0 <= i < |tokens| && tokens[i].start <= p && p + 8 <= tokens[i].end)
    decreases |line| - offset
  {
    hide SCHEME, FindFrom, TokenAt, HasAt, After, TokensFrom, IsToken;
    TokensStep(line, offset);
    var found, tokens := FindFrom(line, SCHEME, offset), TokensFrom(line, offset);
    if found.Some? {
      var token, rest := tokens[0], tokens[1..];
      HeadToken(line, found.value);
      if token.end < |line| { TokensCoverEveryReference(line, token.end); }
      assert tokens == [token] + rest;
      TokenIsForward(line, token);
      OrderWithHead(line, offset, token, rest);
      forall p: nat | offset <= p && HasAt(line, p, SCHEME)
        ensures exists i :: 0 <= i < |tokens| && tokens[i].start <= p && p + 8 <= tokens[i].end
      {
        var i := CoveringToken(line, token, rest, tokens, p);
      }
    }
  }

  /** The token at an occurrence is a token, and the scan goes on right behind it. */
  lemma HeadToken(line: string, start: nat)
    requires HasAt(line, start, SCHEME) && start <= |line|
    ensures var token := TokenAt(line, start);
            IsToken(line, token) && After(token) == token.end && token.start == start && token.end <= |line|
  {
    FirstTokenIsToken(line, start);
    SchemeFits(line, start);
    hide HasAt, TokenLength;
  }

  lemma OrderWithHead(line: string, offset: nat, token: Token, rest: seq<Token>)
    requires IsToken(line, token) && offset <= token.start <= token.end
    requires forall i :: 0 <= i < |rest| ==> IsToken(line, rest[i]) && token.end <= rest[i].start
    requires forall i, j :: 0 <= i < j < |rest| ==> rest[i].end <= rest[j].start
    ensures var tokens := [token] + rest;
            && (forall i :: 0 <= i < |tokens| ==> IsToken(line, tokens[i]) && offset <= tokens[i].start)
            && (forall i, j :: 0 <= i < j < |tokens| ==> tokens[i].end <= tokens[j].start)
  {
    hide IsToken;
    var tokens := [token] + rest;
    forall i, j | 0 <= i < j < |tokens| ensures tokens[i].end <= tokens[j].start
    {
      assert tokens[j] == rest[j - 1];
      if i != 0 { assert tokens[i] == rest[i - 1]; }
    }
  }

  lemma CoveringToken(line: string, token: Token, rest: seq<Token>, tokens: seq<Token>, p: nat) returns (i: nat)
    requires token.start <= p && token.start <= |line| && token == TokenAt(line, token.start) && tokens == [token] + rest
    requires HasAt(line, p, SCHEME) && token.end <= |line|
    requires token.end < |line| ==> forall q: nat :: token.end <= q && HasAt(line, q, SCHEME) ==>
               exists i :: 0 <= i < |rest| && rest[i].start <= q && q + 8 <= rest[i].end
    ensures i < |tokens| && tokens[i].start <= p && p + 8 <= tokens[i].end
  {
    SchemeFits(line, p);
    hide TokenLength, HasAt, SCHEME;
    if p < token.end {
      TokenHoldsTheScheme(line, token.start, p);
      i := 0;
    } else {
      var k :| 0 <= k < |rest| && rest[k].start <= p && p + 8 <= rest[k].end;
      i := k + 1;
    }
  }

  lemma TokenIsForward(line: string, token: Token)
    requires IsToken(line, token)
    ensures token.start < token.end <= |line|
  {
  }

  // ---- References in a managed block --------------------------------------------------

  /** The first reference of a line that opens like a fact line is the fact's URI, verbatim, whatever follows. */
  lemma FactUriIsExtracted(fact: ContextFact, more: string)
    ensures var line := "- `" + (fact.Uri() + ("`" + more));
            && TokensFrom(line, 0) != [] && TokensFrom(line, 0)[0] == Token(3, 3 + |fact.Uri()|)
            && 3 + |fact.Uri()| <= |line| && line[3..3 + |fact.Uri()|] == fact.Uri()
  {
    hide ContextFact.Uri, SCHEME, TokenLength, Find;
    var after := "`" + more;
    var line := "- `" + (fact.Uri() + after);
    MarkerIsThird(fact, after);
    UriIsTheToken(fact, after);
    AfterTheTick(fact.Uri() + after);
    assert line[3..] == fact.Uri() + after;
    assert line[3..][..|fact.Uri()|] == fact.Uri();
    FindIsFindFrom(line);
  }

  lemma FindIsFindFrom(line: string)
    ensures Find(line, SCHEME) == FindFrom(line, SCHEME, 0)
  {
  }

  lemma FirstReference(fact: ContextFact, more: string, n: nat) returns (reference: Reference)
    ensures reference in ReferencesOfLine("- `" + (fact.Uri() + ("`" + more)), n) && reference.uri == fact.Uri()
  {
    hide ContextFact.Uri, ParseReceiptReference, TokensFrom, Utf8.Encode;
    FactUriIsExtracted(fact, more);
    reference := ReferencesOfLine("- `" + (fact.Uri() + ("`" + more)), n)[0];
  }

  lemma {:induction false} LaterLinesReferences(lines: seq<string>, k: nat, n: nat, reference: Reference)
    requires k < |lines| && reference in ReferencesOfLine(lines[k], n + k)
    ensures reference in ReferencesOf(lines, n)
    decreases k
  {
    hide ReferencesOfLine;
    if k != 0 { LaterLinesReferences(lines[1..], k - 1, n + 1, reference); }
  }

  /** A text that opens without a line ending opens its first line. */
  lemma FirstLineOpens(front: string, rest: string) returns (more: string)
    requires front != "" && '\n' !in front && front[|front| - 1] != '\r'
    ensures Lines(front + rest) != [] && Lines(front + rest)[0] == front + more
  {
    var text := front + rest;
    assert forall j :: 0 <= j < |front| ==> text[j] == front[j] != '\n';
    match IndexOf(text, '\n')
    case None =>
      more := rest;
    case Some(i) =>
      var line := text[..i];
      assert line == front + rest[..i - |front|];
      more := StripCr(line)[|front|..];
      assert i == |front| ==> line == front;
      assert StripCr(line) == front + more;
  }

  lemma {:induction false} BodyHoldsTheFact(facts: seq<ContextFact>, current: Option<string>, fact: ContextFact)
    returns (before: string, after: string)
    requires fact in facts && EncodeBlockValue(fact.value).Some?
    ensures SpliceScan.WholeLines(before) && Body(facts, current) == before + (FactLine(fact, EncodeBlockValue(fact.value).value) + after)
    decreases |facts|
  {
    hide FactLine, EncodeBlockValue, ContextFact.Subject, Heading;
    var first, rest := facts[0], facts[1..];
    var encoded := EncodeBlockValue(first.value);
    if encoded.None? {
      before, after := BodyHoldsTheFact(rest, current, fact);
    } else if first == fact {
      HeadingIsWhole(fact, current);
      before, after := Heading(fact, current), "\n" + Body(rest, Some(first.Subject()));
      assert FactLine(fact, encoded.value) + "\n" + Body(rest, Some(first.Subject())) == FactLine(fact, encoded.value) + after;
    } else {
      var later;
      later, after := BodyHoldsTheFact(rest, Some(first.Subject()), fact);
      before := Heading(first, current) + (FactLine(first, encoded.value) + "\n" + later);
    }
  }

  lemma HeadingIsWhole(fact: ContextFact, current: Option<string>)
    ensures SpliceScan.WholeLines(Heading(fact, current))
  {
    hide ContextFact.Subject;
  }

  lemma {:induction false} SomeAreEmitted(facts: seq<ContextFact>, fact: ContextFact)
    requires fact in facts && !fact.value.Redacted?
    ensures CountEmitted(facts) != 0
    decreases |facts|
  {
    if facts[0] != fact { SomeAreEmitted(facts[1..], fact); }
  }

  /** The block, cut where the line of a fact begins. */
  lemma BlockHoldsTheFact(facts: seq<ContextFact>, fact: ContextFact) returns (before: string, rest: string)
    requires fact in facts && !fact.value.Redacted?
    ensures SpliceScan.WholeLines(before) && RenderManagedBlock(facts) == before + ("- `" + (fact.Uri() + ("`" + rest)))
  {
    OnlyRedactedIsSkipped(fact.value);
    SomeAreEmitted(facts, fact);
    hide Summary, NothingYet, CountEmitted, Body, FactLine, EncodeBlockValue, ContextFact.Uri, BEGIN_SENTINEL, END_SENTINEL, Trailer;
    hide SpliceScan.WholeLines;
    var above, after := BodyHoldsTheFact(facts, None, fact);
    var encoded := EncodeBlockValue(fact.value).value;
    FactLineParts(fact, encoded);
    var front, end := BEGIN_SENTINEL + "\n" + Summary(CountEmitted(facts)) + "\n", "\n" + END_SENTINEL;
    before, rest := front + above, " = " + (encoded + Trailer(fact)) + (after + end);
    LineOfTheFact(fact.Uri(), encoded + Trailer(fact), after + end);
    EndsWhole(BEGIN_SENTINEL + "\n" + Summary(CountEmitted(facts)), above);
    CutBefore(front, above, FactLine(fact, encoded), after, "\n", END_SENTINEL);
  }

  lemma EndsWhole(first: string, above: string)
    requires SpliceScan.WholeLines(above)
    ensures SpliceScan.WholeLines(first + "\n" + above)
  {
  }

  lemma CutBefore(front: string, above: string, line: string, after: string, lf: string, end: string)
    ensures front + (above + (line + after)) + lf + end == front + above + (line + (after + (lf + end)))
  {
  }

  lemma LineOfTheFact(uri: string, said: string, after: string)
    ensures "- `" + (uri + ("` = " + said)) + after == "- `" + (uri + ("`" + (" = " + said + after)))
  {
    assert "` = " == "`" + " = ";
    var a, b, c := "- `", "`", " = ";
    assert a + (uri + (b + c + said)) + after == a + (uri + (b + (c + said + after)));
  }

  /**
   Every fact a rendered block writes is referenced verbatim, whatever the names, sources and values of this and
   the other facts hold: line endings and sentinels of their own included.
   */
  lemma BlockReferencesEveryFact(facts: seq<ContextFact>, fact: ContextFact) returns (reference: Reference)
    requires fact in facts && !fact.value.Redacted?
    ensures reference in ReferencesOf(Lines(RenderManagedBlock(facts)), 1) && reference.uri == fact.Uri()
  {
    hide Lines, RenderManagedBlock, ReferencesOfLine, ContextFact.Uri, SpliceScan.WholeLines;
    var before, rest := BlockHoldsTheFact(facts, fact);
    var front, text := "- `" + (fact.Uri() + "`"), "- `" + (fact.Uri() + ("`" + rest));
    assert text == front + rest;
    OpeningIsOneLine(fact);
    var more := FirstLineOpens(front, rest);
    assert front + more == "- `" + (fact.Uri() + ("`" + more));
    ExportedFiles.LinesOfWhole(before, text);
    var lines, k := Lines(RenderManagedBlock(facts)), |Lines(before)|;
    assert lines[k] == front + more;
    reference := FirstReference(fact, more, 1 + k);
    LaterLinesReferences(lines, k, 1, reference);
  }

  lemma OpeningIsOneLine(fact: ContextFact)
    ensures '\n' !in "- `" + (fact.Uri() + "`")
  {
    UriIsOneLine(fact);
    hide ContextFact.Uri;
    assert '\n' !in "- `" && '\n' !in "`";
  }

  // ---- What a reference names ---------------------------------------------------------

  /** Nothing in it is percent-encoded. */
  /** ASCII letters and digits, and the four marks `-`, `.`, `_` and `~`. */
  predicate IsUnreservedChar(c: char)
  {
    '0' <= c <= '9' || 'A' <= c <= 'Z' || 'a' <= c <= 'z' || c in {'-', '.', '_', '~'}
  }

  predicate IsUnreservedText(s: string)
  {
    forall i :: 0 <= i < |s| ==> IsUnreservedChar(s[i])
  }

  lemma EncodedCharLength(c: char)
    ensures 1 <= |EncodeBytes(EncodeChar(c))|
    ensures |EncodeBytes(EncodeChar(c))| == 1 <==> IsUnreservedChar(c)
    ensures |EncodeBytes(EncodeChar(c))| == 1 ==> EncodeBytes(EncodeChar(c)) == [c]
  {
    var bytes := EncodeChar(c);
    EncodedLength(bytes);
    if c as int < 0x80 {
      assert bytes[1..] == [];
      assert EncodeBytes(bytes) == EncodeByte(bytes[0]) + "";
    }
  }

  lemma {:induction false} EncodedLength(bytes: Bytes)
    ensures |bytes| <= |EncodeBytes(bytes)|
  {
    hide EncodeByte;
    if bytes != [] {
      EncodedByteIsPlain(bytes[0]);
      EncodedLength(bytes[1..]);
    }
  }

  lemma {:induction false} EncodeBytesConcat(a: Bytes, b: Bytes)
    ensures EncodeBytes(a + b) == EncodeBytes(a) + EncodeBytes(b)
  {
    hide EncodeByte;
    if a == [] {
      assert a + b == b;
    } else {
      assert (a + b)[1..] == a[1..] + b;
      EncodeBytesConcat(a[1..], b);
    }
  }

  lemma {:induction false} EncodingIsIdentityIffUnreserved(s: string)
    ensures |s| <= |EncodeSegment(s)|
    ensures |EncodeSegment(s)| == |s| <==> IsUnreservedText(s)
    ensures IsUnreservedText(s) ==> EncodeSegment(s) == s
  {
    hide EncodeBytes, EncodeChar, IsUnreservedChar;
    if s == "" {
      EncodeNothing();
    } else {
      EncodingIsIdentityIffUnreserved(s[1..]);
      EncodeBytesConcat(EncodeChar(s[0]), Encode(s[1..]));
      EncodedCharLength(s[0]);
      assert s == [s[0]] + s[1..];
      assert IsUnreservedText(s) <==> IsUnreservedChar(s[0]) && IsUnreservedText(s[1..]) by {
        UnreservedSplits(s);
      }
    }
  }

  lemma EncodeNothing()
    ensures EncodeSegment("") == ""
  {
  }

  lemma UnreservedSplits(s: string)
    requires s != ""
    ensures IsUnreservedText(s) <==> IsUnreservedChar(s[0]) && IsUnreservedText(s[1..])
  {
    hide IsUnreservedChar;
    if IsUnreservedChar(s[0]) && IsUnreservedText(s[1..]) {
      forall i | 0 <= i < |s| ensures IsUnreservedChar(s[i])
      {
        if i != 0 { assert s[i] == s[1..][i - 1]; }
      }
    }
    if IsUnreservedText(s) {
      forall i | 0 <= i < |s[1..]| ensures IsUnreservedChar(s[1..][i])
      {
        assert s[1..][i] == s[i + 1];
      }
    }
  }

  /**
   A fact's own URI always parses here, but names the fact only when none of its three names needed
   percent-encoding: the importer decodes the segments, this reader does not.
   */
  lemma ReferenceNamesTheFactIffUnencoded(kind: string, key: string, pred: string)
    requires kind != "" && key != "" && pred != ""
    ensures ParseReceiptReference(ResourceUri.ResourceUri(kind, key, pred))
         == Some(Named(EncodeSegment(kind), EncodeSegment(key), EncodeSegment(pred)))
    ensures ParseReceiptReference(ResourceUri.ResourceUri(kind, key, pred)) == Some(Named(kind, key, pred))
            <==> IsUnreservedText(kind) && IsUnreservedText(key) && IsUnreservedText(pred)
  {
    hide EncodeSegment, DecodeSegment, SplitSlash, IsSegmentChar, IsBlank, IsUnreservedText, ParseReceiptReference, ResourceUri.ResourceUri;
    SegmentIsNotBlank(kind);
    SegmentIsNotBlank(key);
    SegmentIsNotBlank(pred);
    EncodingIsIdentityIffUnreserved(kind);
    EncodingIsIdentityIffUnreserved(key);
    EncodingIsIdentityIffUnreserved(pred);
    SegmentHasNoSlash(kind);
    SegmentHasNoSlash(key);
    SegmentHasNoSlash(pred);
    ParsesThreeSegments(kind, key, pred);
  }

  lemma SegmentHasNoSlash(segment: string)
    ensures '/' !in EncodeSegment(segment)
  {
    hide EncodeSegment, IsSegmentChar;
    SegmentReadsBack(segment);
    SlashIsNoSegmentChar();
  }

  /** A reference names exactly the three non-blank segments that follow its scheme, if there are three. */
  lemma ReferenceParsesIff(uri: string, kind: string, key: string, pred: string)
    ensures ParseReceiptReference(uri) == Some(Named(kind, key, pred)) <==>
            && uri == SCHEME + (kind + "/" + key + "/" + pred) && '/' !in kind && '/' !in key && '/' !in pred
            && !IsBlank(kind) && !IsBlank(key) && !IsBlank(pred)
  {
    hide SplitSlash, IsBlank;
    if SCHEME <= uri {
      var rest := uri[|SCHEME|..];
      var parts := SplitSlash(rest);
      assert uri == SCHEME + rest;
      ThreePartsIff(rest, kind, key, pred);
      assert |parts| == 3 ==> parts == [parts[0], parts[1], parts[2]];
      assert parts == [kind, key, pred] ==> |parts| == 3 && parts[0] == kind && parts[1] == key && parts[2] == pred;
    }
  }

  /** The reference stands in its line at its column, counted from one in bytes, and ends where no URI can go on. */
  ghost predicate StandsIn(reference: Reference, line: string)
  {
    exists start: nat ::
      && HasAt(line, start, reference.uri) && SCHEME <= reference.uri
      && reference.column == 1 + |Encode(line[..start])|
      && (forall i :: 0 <= i < |reference.uri| ==> !IsUriTerminator(reference.uri[i]))
      && (start + |reference.uri| < |line| ==> IsUriTerminator(line[start + |reference.uri|]))
  }

  /** Every reference is where it says: on its line, counted from one, and at its column. */
  lemma {:induction false} ReferencesAreWhereTheySay(lines: seq<string>, n: nat, k: nat)
    requires k < |ReferencesOf(lines, n)|
    ensures var reference := ReferencesOf(lines, n)[k];
            n <= reference.line < n + |lines| && StandsIn(reference, lines[reference.line - n])
    decreases |lines|
  {
    hide ReferencesOfLine, StandsIn;
    var here := ReferencesOfLine(lines[0], n);
    if k < |here| {
      ReferenceOfLineStandsIn(lines[0], n, k);
    } else {
      ReferencesAreWhereTheySay(lines[1..], n + 1, k - |here|);
    }
  }

  lemma ReferenceOfLineStandsIn(line: string, n: nat, k: nat)
    requires k < |ReferencesOfLine(line, n)|
    ensures ReferencesOfLine(line, n)[k].line == n && StandsIn(ReferencesOfLine(line, n)[k], line)
  {
    hide SCHEME, IsToken, StandsIn;
    TokensCoverEveryReference(line, 0);
    TokensAreInLine(line, 0);
    var tokens := TokensFrom(line, 0);
    assert k < |tokens| && IsToken(line, tokens[k]);
    TokenStands(line, n, tokens[k]);
  }

  lemma SchemeIsEight()
    ensures |SCHEME| == 8
  {
  }

  lemma TokenStands(line: string, n: nat, token: Token)
    requires IsToken(line, token)
    ensures StandsIn(ReferenceOf(line, n, token), line) && ReferenceOf(line, n, token).line == n
  {
    hide IsUriTerminator, Encode, ParseReceiptReference, SCHEME;
    var start, uri := token.start, line[token.start..token.end];
    SchemeIsEight();
    assert HasAt(line, start, uri);
    assert line[start..start + 8] == uri[..8];
    assert forall i :: 0 <= i < |uri| ==> uri[i] == line[start + i];
    hide HasAt;
  }

  lemma ParsesThreeSegments(kind: string, key: string, pred: string)
    requires '/' !in EncodeSegment(kind) && '/' !in EncodeSegment(key) && '/' !in EncodeSegment(pred)
    requires !IsBlank(EncodeSegment(kind)) && !IsBlank(EncodeSegment(key)) && !IsBlank(EncodeSegment(pred))
    ensures ParseReceiptReference(ResourceUri.ResourceUri(kind, key, pred))
         == Some(Named(EncodeSegment(kind), EncodeSegment(key), EncodeSegment(pred)))
  {
    hide EncodeSegment, SplitSlash, IsBlank, SCHEME;
    var a, b, c := EncodeSegment(kind), EncodeSegment(key), EncodeSegment(pred);
    var uri := ResourceUri.ResourceUri(kind, key, pred);
    assert uri[|SCHEME|..] == a + "/" + (b + "/" + c);
    SplitAtSlash(a, b + "/" + c);
    SplitAtSlash(b, c);
    SplitOfPlain(c);
  }

  lemma SegmentIsNotBlank(segment: string)
    requires segment != ""
    ensures !IsBlank(EncodeSegment(segment))
  {
    SegmentReadsBack(segment);
    hide EncodeSegment, IsSegmentChar, IsUriTerminator, IsUriChar;
    var encoded := EncodeSegment(segment);
    UriCharEndsNothing(encoded[0]) by { SegmentCharIsUriChar(encoded[0]); }
    TerminatorIfWhitespace(encoded[0]);
  }

  lemma SegmentCharIsUriChar(c: char)
    requires IsSegmentChar(c)
    ensures IsUriChar(c)
  {
  }

  lemma TerminatorIfWhitespace(c: char)
    ensures IsWhitespace(c) ==> IsUriTerminator(c)
  {
  }

  /** A key with a space is such a name: the reference to `repo:a b` is taken to name `repo:a%20b`. */
  lemma KeyWithASpaceIsMisread()
    ensures ParseReceiptReference(ResourceUri.ResourceUri("repo", "a b", "owner")) == Some(Named("repo", "a%20b", "owner"))
  {
    ReferenceNamesTheFactIffUnencoded("repo", "a b", "owner");
    hide EncodeSegment, ParseReceiptReference, ResourceUri.ResourceUri;
    UnreservedNames();
    EncodingIsIdentityIffUnreserved("repo");
    EncodingIsIdentityIffUnreserved("owner");
    EncodedSpace();
  }

  lemma UnreservedNames()
    ensures IsUnreservedText("repo") && IsUnreservedText("owner")
  {
  }

  lemma EncodedSpace()
    ensures EncodeSegment("a b") == "a%20b"
  {
    TripleAscii('a', ' ', 'b');
    hide Encode;
    var bytes := ['a' as int, 0x20, 'b' as int];
    assert Encode("a b") == bytes;
    assert bytes == [bytes[0]] + [bytes[1]] + [bytes[2]];
    EncodeBytesConcat([bytes[0]] + [bytes[1]], [bytes[2]]);
    EncodeBytesConcat([bytes[0]], [bytes[1]]);
    assert EncodeBytes([0x20]) == EncodeByte(0x20) + "" && EncodeByte(0x20) == "%20";
    assert EncodeBytes(['a' as int]) == EncodeByte('a' as int) + "" && EncodeBytes(['b' as int]) == EncodeByte('b' as int) + "";
  }
}
