/** A rendered block: the line of each fact read back, the shape of every line, and the block as the splice takes it. */
module RoundTrip {
  import opened Wrappers
  import opened AuthorityLevels
  import opened Text
  import opened JsonText
  import opened EventIds
  import opened ResourceUri
  import opened ManagedBlock
  import opened BlockLines
  import opened FactLines
  import Splice
  import SpliceScan
  import SpliceProofs

  // ---- One fact line ------------------------------------------------------------------

  /** What import recovers from a fact's line. */
  function Expected(fact: ContextFact): Receipt
  {
    Receipt(fact.kind, fact.key, fact.pred, ValueText(fact.value), Some(Name(fact.authority)), Some(SourceText(fact)))
  }

  predicate IsUriChar(c: char) { IsSegmentChar(c) || c == '/' || c == ':' }

  lemma UriCharEndsNothing(c: char)
    requires IsUriChar(c)
    ensures !IsUriTerminator(c) && c != '<' && c != '\n' && c != '\r'
  {
  }

  lemma SchemeCharacters()
    ensures forall i :: 0 <= i < |SCHEME| ==> IsUriChar(SCHEME[i])
    ensures IsUriChar('/')
  {
  }

  lemma SegmentCharacters(segment: string)
    ensures forall i :: 0 <= i < |EncodeSegment(segment)| ==> IsUriChar(EncodeSegment(segment)[i])
  {
    hide EncodeSegment, IsSegmentChar;
    SegmentReadsBack(segment);
  }

  predicate AreUriChars(s: string) { forall i :: 0 <= i < |s| ==> IsUriChar(s[i]) }

  lemma UriCharsJoin(a: string, b: string)
    requires AreUriChars(a) && AreUriChars(b)
    ensures AreUriChars(a + b)
  {
    hide IsUriChar;
  }

  lemma UriCharacters(fact: ContextFact)
    ensures AreUriChars(fact.Uri())
  {
    SchemeCharacters();
    SegmentCharacters(fact.kind);
    SegmentCharacters(fact.key);
    SegmentCharacters(fact.pred);
    var a, b, c := EncodeSegment(fact.kind), EncodeSegment(fact.key), EncodeSegment(fact.pred);
    assert AreUriChars(SCHEME) && AreUriChars("/") && AreUriChars(a) && AreUriChars(b) && AreUriChars(c);
    hide EncodeSegment, AreUriChars, IsUriChar;
    UriCharsJoin(SCHEME, a);
    UriCharsJoin(SCHEME + a, "/");
    UriCharsJoin(SCHEME + a + "/", b);
    UriCharsJoin(SCHEME + a + "/" + b, "/");
    UriCharsJoin(SCHEME + a + "/" + b + "/", c);
  }

  lemma {:induction false} TokenStops(token: string, rest: string)
    requires forall i :: 0 <= i < |token| ==> !IsUriTerminator(token[i])
    requires rest != "" && IsUriTerminator(rest[0])
    ensures TokenLength(token + rest) == |token|
  {
    hide IsUriTerminator;
    if token == "" {
      assert token + rest == rest;
    } else {
      assert (token + rest)[1..] == token[1..] + rest;
      TokenStops(token[1..], rest);
    }
  }

  lemma UriIsTheToken(fact: ContextFact, rest: string)
    requires rest != "" && rest[0] == '`'
    ensures TokenLength(fact.Uri() + rest) == |fact.Uri()|
  {
    UriCharacters(fact);
    assert IsUriTerminator('`');
    hide ContextFact.Uri, IsUriTerminator, IsUriChar;
    forall i | 0 <= i < |fact.Uri()| ensures !IsUriTerminator(fact.Uri()[i]) { UriCharEndsNothing(fact.Uri()[i]); }
    TokenStops(fact.Uri(), rest);
  }

  lemma UriStartsWithScheme(fact: ContextFact)
    ensures SCHEME <= fact.Uri() && |SCHEME| == 8 && SCHEME[0] == 'd' && SCHEME[6] == '/'
  {
    hide EncodeSegment;
  }

  lemma MarkerIsThird(fact: ContextFact, rest: string)
    ensures Find("- `" + (fact.Uri() + rest), SCHEME) == Some(3)
  {
    UriStartsWithScheme(fact);
    hide ContextFact.Uri;
    var line := "- `" + (fact.Uri() + rest);
    assert line[3..3 + 8] == fact.Uri()[..8] == SCHEME;
    assert HasAt(line, 3, SCHEME);
    forall i | 0 <= i < 3 ensures !HasAt(line, i, SCHEME)
    {
      HasAtChar(line, i, SCHEME, 0);
    }
  }

  lemma LastCommentIsTheReceipt(fact: ContextFact, encoded: string)
    requires IsHash(fact.eventHash) && Find(fact.factId, RECEIPT_COMMENT_PREFIX) == None
    requires Find(SourceText(fact) + " -->", RECEIPT_COMMENT_PREFIX) == None
    ensures FindLast(encoded + Trailer(fact), RECEIPT_COMMENT_PREFIX) == Some(|encoded|)
  {
    hide RECEIPT_COMMENT_PREFIX, HasAt, IsHash, Find, SourceText;
    var prefix, meta := RECEIPT_COMMENT_PREFIX, Spaced(ReceiptWords(fact)) + FactMarkers(fact);
    TrailerOpens(fact);
    hide Trailer;
    SpliceScan.AtFront(prefix, meta);
    SpliceScan.BehindFront(encoded, Trailer(fact), prefix, |encoded|);
    forall i: nat | |encoded| < i ensures !HasAt(encoded + Trailer(fact), i, prefix)
    {
      CommentOpensOnce(fact, i - |encoded|);
      SpliceScan.BehindFront(encoded, Trailer(fact), prefix, i);
    }
  }

  lemma TrailerOpens(fact: ContextFact)
    ensures Trailer(fact) == RECEIPT_COMMENT_PREFIX + (Spaced(ReceiptWords(fact)) + FactMarkers(fact))
  {
    hide RECEIPT_COMMENT_PREFIX, Spaced, ReceiptWords, FactMarkers;
  }

  /** The line of a fact, cut where import cuts it. */
  lemma FactLineParts(fact: ContextFact, encoded: string)
    ensures FactLine(fact, encoded) == "- `" + (fact.Uri() + ("` = " + (encoded + Trailer(fact))))
    ensures FactLine(fact, encoded) == "- `" + fact.Uri() + "` = " + encoded + Trailer(fact)
  {
    hide ContextFact.Uri, Spaced, ReceiptWords, FactMarkers, RECEIPT_COMMENT_PREFIX;
    var trailer := RECEIPT_COMMENT_PREFIX + Spaced(ReceiptWords(fact)) + FactMarkers(fact);
    assert FactLine(fact, encoded) == "- `" + fact.Uri() + "` = " + encoded + trailer;
  }

  lemma SeparatorIsSecond(rest: string)
    ensures IndexOf("` = " + rest, '=') == Some(2) && ("` = " + rest)[3..] == " " + rest
  {
    var s := "` = " + rest;
    assert s == "` " + ['='] + (" " + rest);
    hide IndexOf;
    IndexOfFirst("` ", '=', " " + rest);
  }

  lemma TrimStartOfSpaced(rest: string)
    requires rest != "" && !IsWhitespace(rest[0])
    ensures TrimStart(" " + rest) == rest
  {
    SpaceIsWhitespace();
    hide IsWhitespace;
    assert (" " + rest)[1..] == rest;
  }

  lemma RegionReads(parsed: Parsed, encoded: string, meta: string, value: string, hints: Hints)
    requires FindLast(encoded + (RECEIPT_COMMENT_PREFIX + meta), RECEIPT_COMMENT_PREFIX) == Some(|encoded|)
    requires DecodeBlockValue(encoded) == Some(value) && ParseMetaHints(meta) == hints
    ensures ReadRegion(parsed, encoded + (RECEIPT_COMMENT_PREFIX + meta))
         == Recovered(Receipt(parsed.kind, parsed.key, parsed.pred, value, hints.authority, hints.source))
  {
    hide DecodeBlockValue, ParseMetaHints, RECEIPT_COMMENT_PREFIX, FindLast;
    var region := encoded + (RECEIPT_COMMENT_PREFIX + meta);
    assert region[..|encoded|] == encoded && region[|encoded| + |RECEIPT_COMMENT_PREFIX|..] == meta;
  }

  /** Parsing, step by step: each step finds what the line was built from. */
  lemma ReadsByParts(line: string, uri: string, region: string, parsed: Parsed)
    requires Find(line, SCHEME) == Some(3) && 3 <= |line| && line[3..] == uri + ("` = " + region)
    requires TokenLength(line[3..]) == |uri| && ParseResourceUri(uri) == Some(parsed)
    requires region != "" && !IsWhitespace(region[0])
    ensures ParseReceiptLine(line) == ReadRegion(parsed, region)
  {
    hide TokenLength, IsWhitespace, ParseResourceUri, TrimStart, ReadRegion, SCHEME, Find, IndexOf;
    TrimStartOfSpaced(region);
    SeparatorIsSecond(region);
    assert line[3..][..|uri|] == uri && line[3..][|uri|..] == "` = " + region;
  }

  /** Import finds the URI and reads what stands behind the equals sign. */
  lemma BuiltLineIsItsRegion(fact: ContextFact, encoded: string)
    requires encoded != "" && !IsWhitespace(encoded[0]) && fact.kind != "" && fact.key != "" && fact.pred != ""
    ensures ParseReceiptLine(FactLine(fact, encoded)) == ReadRegion(Parsed(fact.kind, fact.key, fact.pred), encoded + Trailer(fact))
  {
    hide Trailer, FactLine, TokenLength, IsWhitespace, ContextFact.Uri, ParseResourceUri, ParseReceiptLine, SCHEME, Find, ReadRegion;
    var region := encoded + Trailer(fact);
    FactLineParts(fact, encoded);
    MarkerIsThird(fact, "` = " + region);
    UriIsTheToken(fact, "` = " + region);
    UriReadsBack(fact);
    AfterTheTick(fact.Uri() + ("` = " + region));
    ReadsByParts(FactLine(fact, encoded), fact.Uri(), region, Parsed(fact.kind, fact.key, fact.pred));
  }

  lemma AfterTheTick(rest: string)
    ensures |"- `" + rest| >= 3 && ("- `" + rest)[3..] == rest
  {
  }

  /** Everything the file needs comes back, even when the value holds quotes, newlines, `=`, a URI or the receipt token. */
  lemma FactLineReadsBack(fact: ContextFact)
    requires IsStored(fact) && !fact.value.Redacted?
    requires IsReadableSource(SourceText(fact)) && Find(fact.factId, RECEIPT_COMMENT_PREFIX) == None
    ensures EncodeBlockValue(fact.value).Some?
    ensures ParseReceiptLine(FactLine(fact, EncodeBlockValue(fact.value).value)) == Recovered(Expected(fact))
  {
    hide Spaced, ReceiptWords, FactMarkers, FactLine, IsWhitespace, DecodeBlockValue, ParseMetaHints, IsCompact, IsHash, ReadRegion;
    hide ParseReceiptLine, ValueText, SourceText, Name, EncodeBlockValue, IsReadableSource, Find, FindLast, RECEIPT_COMMENT_PREFIX, Trailer;
    ValueReadsBack(fact);
    var encoded, meta := EncodeBlockValue(fact.value).value, Spaced(ReceiptWords(fact)) + FactMarkers(fact);
    BuiltLineIsItsRegion(fact, encoded);
    ReadableIsPlain(SourceText(fact));
    LastCommentIsTheReceipt(fact, encoded);
    TrailerOpens(fact);
    HintsReadBack(fact);
    RegionReads(Parsed(fact.kind, fact.key, fact.pred), encoded, meta, ValueText(fact.value),
                Hints(Some(Name(fact.authority)), Some(SourceText(fact))));
  }

  /** A receipt says no source but a readable one. */
  lemma RecoveredSourceIsReadable(line: string)
    ensures ParseReceiptLine(line).Recovered? && ParseReceiptLine(line).receipt.source.Some? ==>
              IsReadableSource(ParseReceiptLine(line).receipt.source.value)
  {
    hide Find, FindLast, IndexOf, TokenLength, ParseResourceUri, TrimStart, DecodeBlockValue, ParseMetaHints, IsReadableSource;
    hide RECEIPT_COMMENT_PREFIX, SCHEME;
    forall region: string
      ensures ParseMetaHints(region).source.Some? ==> IsReadableSource(ParseMetaHints(region).source.value)
    {
      ReadSourcesAreReadable(region);
    }
  }

  /** A receipt opened in the id is taken for the receipt of the line, and what is before it for the value. */
  lemma ReceiptInTheIdSpoilsTheValue(fact: ContextFact)
    requires IsStored(fact) && !fact.value.Redacted? && Find(fact.factId, RECEIPT_COMMENT_PREFIX).Some?
    ensures EncodeBlockValue(fact.value).Some?
    ensures ParseReceiptLine(FactLine(fact, EncodeBlockValue(fact.value).value)) != Recovered(Expected(fact))
  {
    ValueReadsBack(fact);
    AngleIsNotWhitespace();
    hide FactLine, IsWhitespace, DecodeBlockValue, ParseMetaHints, IsCompact, IsHash, FromId;
    hide ParseReceiptLine, ValueText, SourceText, Name, EncodeBlockValue, Find, FindLast, RECEIPT_COMMENT_PREFIX, Trailer;
    var encoded := EncodeBlockValue(fact.value).value;
    BuiltLineIsItsRegion(fact, encoded);
    TrailerHolds(fact, RECEIPT_COMMENT_PREFIX);
    TrailerText(fact);
    var more := LastCommentIsLater(encoded, FromId(fact));
    ValueWithMoreIsAnother(fact, more, 2);
  }

  lemma LastCommentIsLater(encoded: string, later: string) returns (more: string)
    requires Find(later, RECEIPT_COMMENT_PREFIX).Some?
    ensures var region := encoded + (RECEIPT_COMMENT_PREFIX + " fact=" + later);
            && FindLast(region, RECEIPT_COMMENT_PREFIX).Some?
            && FindLast(region, RECEIPT_COMMENT_PREFIX).value <= |region|
            && region[..FindLast(region, RECEIPT_COMMENT_PREFIX).value] == encoded + more
    ensures 2 < |more| && more[2] == '<'
  {
    PrefixShape();
    hide Find, FindLast, RECEIPT_COMMENT_PREFIX, IsSeamSafe, IsOneLine;
    var prefix := RECEIPT_COMMENT_PREFIX;
    var opening := prefix + " fact=";
    var region := encoded + (opening + later);
    var i := Find(later, prefix).value;
    SpliceScan.BehindFront(opening, later, prefix, |opening| + i);
    SpliceScan.BehindFront(encoded, opening + later, prefix, |encoded| + (|opening| + i));
    var p := FindLast(region, prefix).value;
    SpliceScan.HasAtBounds(region, p, prefix);
    more := (opening + later)[..p - |encoded|];
    assert more[2] == opening[2] == prefix[2];
  }

  lemma AngleIsNotWhitespace()
    ensures !IsWhitespace('<')
  {
  }

  /** A fact's line reads back as the fact if and only if a receipt can say its source and its id opens no receipt. */
  lemma FactLineReadsBackIff(fact: ContextFact)
    requires IsStored(fact) && !fact.value.Redacted?
    ensures EncodeBlockValue(fact.value).Some?
    ensures ParseReceiptLine(FactLine(fact, EncodeBlockValue(fact.value).value)) == Recovered(Expected(fact)) <==>
            IsReadableSource(SourceText(fact)) && Find(fact.factId, RECEIPT_COMMENT_PREFIX) == None
  {
    OnlyRedactedIsSkipped(fact.value);
    hide IsStored, ParseReceiptLine, FactLine, IsReadableSource, EncodeBlockValue, SourceText, Find, RECEIPT_COMMENT_PREFIX;
    RecoveredSourceIsReadable(FactLine(fact, EncodeBlockValue(fact.value).value));
    if Find(fact.factId, RECEIPT_COMMENT_PREFIX).Some? {
      ReceiptInTheIdSpoilsTheValue(fact);
    } else if IsReadableSource(SourceText(fact)) {
      FactLineReadsBack(fact);
    }
  }

  lemma UriReadsBack(fact: ContextFact)
    requires fact.kind != "" && fact.key != "" && fact.pred != ""
    ensures ParseResourceUri(fact.Uri()) == Some(Parsed(fact.kind, fact.key, fact.pred))
  {
    hide ParseResourceUri, ResourceUri.ResourceUri;
    ResourceUriReadsBack(fact.kind, fact.key, fact.pred);
  }

  // ---- The lines of a block -----------------------------------------------------------

  /** One line, which starts with no backtick, tilde or whitespace: no fence for anyone. */
  predicate IsTightLine(line: string)
  {
    IsOneLine(line) && (line != "" ==> !IsWhitespace(line[0]) && line[0] != '`' && line[0] != '~')
  }

  /** And no sentinel on it. */
  predicate IsPlainLine(line: string) { IsTightLine(line) && HoldsNoSentinel(line) }

  function Join(lines: seq<string>): string
  {
    if lines == [] then "" else lines[0] + "\n" + Join(lines[1..])
  }

  /** The body, line by line. */
  function BodyLines(facts: seq<ContextFact>, current: Option<string>): seq<string>
    decreases |facts|
  {
    if facts == [] then []
    else
      var fact, encoded := facts[0], EncodeBlockValue(facts[0].value);
      if encoded.None? then BodyLines(facts[1..], current)
      else
        HeadingLines(fact, current) + ([FactLine(fact, encoded.value)] + BodyLines(facts[1..], Some(fact.Subject())))
  }

  function HeadingLines(fact: ContextFact, current: Option<string>): seq<string>
  {
    if current == Some(fact.Subject()) then [] else ["", "### " + fact.Subject(), ""]
  }

  function InteriorLines(facts: seq<ContextFact>): seq<string>
  {
    var emitted := CountEmitted(facts);
    [Summary(emitted)] + ((if emitted == 0 then ["", NothingYet()] else BodyLines(facts, None)) + [""])
  }

  lemma {:induction false} JoinConcat(a: seq<string>, b: seq<string>)
    ensures Join(a + b) == Join(a) + Join(b)
  {
    if a == [] {
      assert a + b == b;
    } else {
      assert (a + b)[1..] == a[1..] + b;
      JoinConcat(a[1..], b);
    }
  }

  lemma JoinOne(line: string)
    ensures Join([line]) == line + "\n"
  {
    assert [line][1..] == [];
  }

  lemma JoinHeading(fact: ContextFact, current: Option<string>)
    ensures Join(HeadingLines(fact, current)) == Heading(fact, current)
  {
    hide ContextFact.Subject;
    var h := "### " + fact.Subject();
    assert ["", h, ""] == [""] + ([h] + [""]);
    JoinConcat([""], [h] + [""]);
    JoinConcat([h], [""]);
    JoinOne("");
    JoinOne(h);
    assert "" + "\n" == "\n";
    assert "\n" + (h + "\n" + "\n") == "\n### " + fact.Subject() + "\n\n";
  }

  lemma {:induction false} BodyIsItsLines(facts: seq<ContextFact>, current: Option<string>)
    ensures Body(facts, current) == Join(BodyLines(facts, current))
    decreases |facts|
  {
    hide EncodeBlockValue, FactLine, Heading, HeadingLines, ContextFact.Subject;
    if facts != [] {
      var fact, encoded := facts[0], EncodeBlockValue(facts[0].value);
      if encoded.None? {
        BodyIsItsLines(facts[1..], current);
      } else {
        var line, rest := FactLine(fact, encoded.value), BodyLines(facts[1..], Some(fact.Subject()));
        BodyIsItsLines(facts[1..], Some(fact.Subject()));
        JoinHeading(fact, current);
        JoinConcat(HeadingLines(fact, current), [line] + rest);
        JoinConcat([line], rest);
        JoinOne(line);
      }
    }
  }

  /** A rendered block is BEGIN, its interior lines, END. */
  lemma BlockIsItsLines(facts: seq<ContextFact>)
    ensures RenderManagedBlock(facts) == BEGIN_SENTINEL + "\n" + Join(InteriorLines(facts)) + END_SENTINEL
  {
    hide BEGIN_SENTINEL, END_SENTINEL, Summary, NothingYet, CountEmitted, Body, BodyLines;
    var emitted := CountEmitted(facts);
    var inner := if emitted == 0 then ["", NothingYet()] else BodyLines(facts, None);
    var text := if emitted == 0 then "\n" + NothingYet() + "\n" else Body(facts, None);
    BodyIsItsLines(facts, None);
    JoinConcat([""], [NothingYet()]);
    JoinOne("");
    JoinOne(NothingYet());
    assert [""] + [NothingYet()] == ["", NothingYet()];
    assert "" + "\n" == "\n" && "\n" + (NothingYet() + "\n") == "\n" + NothingYet() + "\n";
    assert Join(inner) == text;
    JoinConcat([Summary(emitted)], inner + [""]);
    JoinOne(Summary(emitted));
    JoinConcat(inner, [""]);
    var a, b, c, d := BEGIN_SENTINEL, Summary(emitted), text, END_SENTINEL;
    Reassociate(a, b, c, d);
  }

  lemma Reassociate(a: string, b: string, c: string, d: string)
    ensures a + "\n" + b + "\n" + c + "\n" + d == a + "\n" + (b + "\n" + (c + "\n")) + d
  {
  }

  // ---- The shape of the lines ---------------------------------------------------------

  lemma HashIsPlain()
    ensures !IsWhitespace('#') && !IsWhitespace('-') && !IsWhitespace('<') && !IsWhitespace('_')
    ensures IsWhitespace(' ') && IsWhitespace('\n') && IsWhitespace('\r')
  {
  }

  /** A sentinel takes a `<` with a space four characters on. */
  lemma NoSentinelWithout(line: string)
    requires forall i :: 0 <= i && i + 5 < |line| && line[i] == '<' && line[i + 1] == '!' && line[i + 4] == ' ' ==>
               line[i + 5] != 'B' && line[i + 5] != 'E'
    ensures HoldsNoSentinel(line)
  {
    BeginIsSentinel();
    EndIsSentinel();
    hide BEGIN_SENTINEL, END_SENTINEL;
    NoSuchSentinel(line, BEGIN_SENTINEL);
    NoSuchSentinel(line, END_SENTINEL);
  }

  lemma NoSuchSentinel(line: string, sentinel: string)
    requires IsSentinel(sentinel)
    requires forall i :: 0 <= i && i + 5 < |line| && line[i] == '<' && line[i + 1] == '!' && line[i + 4] == ' ' ==>
               line[i + 5] != 'B' && line[i + 5] != 'E'
    ensures Find(line, sentinel) == None
  {
    hide Find;
    forall i: nat ensures !HasAt(line, i, sentinel)
    {
      HasAtIff(line, i, sentinel);
    }
  }

  lemma FlatLineIsPlain(line: string)
    requires IsFlat(line) && line != "" && !IsWhitespace(line[0]) && line[0] != '`' && line[0] != '~'
    ensures IsPlainLine(line) && Find(line, SCHEME) == None
  {
    NoSentinelWithout(line);
    NoSlashNoScheme(line);
    hide HoldsNoSentinel;
  }

  lemma NoSlashNoScheme(line: string)
    requires '/' !in line
    ensures Find(line, SCHEME) == None
  {
    assert |SCHEME| == 8 && SCHEME[6] == '/';
    hide SCHEME;
    var found := Find(line, SCHEME);
    if found.Some? { HasAtChar(line, found.value, SCHEME, 6); }
  }

  lemma NothingYetPieces()
    ensures IsFlat("_No believed facts") && IsFlat(" to export yet \U{2014}") && IsFlat(" seed them with")
    ensures IsFlat(" `dent8 assert` or") && IsFlat(" `dent8 import`._")
  {
  }

  lemma NothingYetIsPlain()
    ensures IsPlainLine(NothingYet()) && Find(NothingYet(), SCHEME) == None
  {
    NothingYetPieces();
    HashIsPlain();
    hide IsFlat, IsPlainLine, IsWhitespace;
    var a, b, c, d, e := "_No believed facts", " to export yet \U{2014}", " seed them with", " `dent8 assert` or", " `dent8 import`._";
    FlatConcat(a, b);
    FlatConcat(a + b, c);
    FlatConcat(a + b + c, d);
    FlatConcat(a + b + c + d, e);
    FlatLineIsPlain(NothingYet());
  }

  lemma SummaryPieces()
    ensures IsFlat("!-- dent8 export:") && IsFlat(" believed fact(s);") && IsFlat(" do not edit inside")
    ensures IsFlat(" this block \U{2014} run")
  {
  }

  lemma SummaryLastPieces()
    ensures IsFlat(" `dent8 export") && IsFlat(" --target ") && IsFlat("file>`") && IsFlat(" to refresh -->")
  {
  }

  /** `<` opens the summary and the placeholder, and neither opens a sentinel. */
  lemma SummaryIsPlain(emitted: nat)
    ensures IsPlainLine(Summary(emitted)) && Find(Summary(emitted), SCHEME) == None
  {
    SummaryPieces();
    SummaryLastPieces();
    NumberIsFlat(emitted);
    HashIsPlain();
    hide IsFlat, IsPlainLine, IsWhitespace, Decimal;
    var a, n, b, c, d := "!-- dent8 export:", " " + Decimal(emitted), " believed fact(s);", " do not edit inside", " this block \U{2014} run";
    FlatConcat(a, n);
    FlatConcat(a + n, b);
    FlatConcat(a + n + b, c);
    FlatConcat(a + n + b + c, d);
    FlatConcat(a + n + b + c + d, " `dent8 export");
    FlatConcat(a + n + b + c + d + " `dent8 export", " --target ");
    FlatConcat("file>`", " to refresh -->");
    var x, y := a + n + b + c + d + " `dent8 export" + " --target ", "file>`" + " to refresh -->";
    assert x[4] == 'd' && y[0] == 'f';
    SummaryParts(emitted, x, y);
    TwoAngles(x, y);
  }

  lemma SummaryIsThere(emitted: nat)
    ensures Summary(emitted) != ""
  {
    hide Decimal;
  }

  lemma SummaryParts(emitted: nat, x: string, y: string)
    requires x == "!-- dent8 export:" + (" " + Decimal(emitted)) + " believed fact(s);" + " do not edit inside" + " this block \U{2014} run"
                  + " `dent8 export" + " --target "
    requires y == "file>`" + " to refresh -->"
    ensures Summary(emitted) == "<" + x + "<" + y
  {
    hide Decimal;
    assert "<!-- dent8 export:" == "<" + "!-- dent8 export:" && "<file>`" == "<" + "file>`";
  }

  lemma TwoAngles(x: string, y: string)
    requires IsFlat(x) && IsFlat(y) && 5 <= |x| && x[4] == 'd' && y != "" && y[0] == 'f'
    ensures IsPlainLine("<" + x + "<" + y) && Find("<" + x + "<" + y, SCHEME) == None
  {
    HashIsPlain();
    hide IsWhitespace;
    var line := "<" + x + "<" + y;
    assert forall i :: 1 <= i <= |x| ==> line[i] == x[i - 1];
    assert forall i :: |x| + 2 <= i < |line| ==> line[i] == y[i - |x| - 2];
    NoSentinelWithout(line);
    NoSlashNoScheme(line);
    hide HoldsNoSentinel;
  }

  /** A heading spells a sentinel exactly when its subject does. */
  lemma HeadingShape(subject: string)
    requires IsOneLine(subject)
    ensures IsTightLine("### " + subject)
    ensures HoldsNoSentinel("### " + subject) <==> HoldsNoSentinel(subject)
  {
    HashIsPlain();
    BeginIsSentinel();
    EndIsSentinel();
    hide IsWhitespace, BEGIN_SENTINEL, END_SENTINEL, Find, IsSentinelText;
    assert '<' !in "### " && IsOneLine("### ");
    HeadingSpells(subject, BEGIN_SENTINEL);
    HeadingSpells(subject, END_SENTINEL);
    OneLineConcat("### ", subject);
  }

  lemma HeadingSpells(subject: string, sentinel: string)
    requires sentinel != "" && sentinel[0] == '<'
    ensures Find("### " + subject, sentinel) == None <==> Find(subject, sentinel) == None
  {
    hide Find;
    if Find(subject, sentinel).None? {
      assert '<' !in "### ";
      NoneBehindFirst("### ", subject, sentinel);
    } else {
      FoundInside("### ", subject, "", sentinel);
      assert "### " + subject + "" == "### " + subject;
    }
  }

  lemma {:induction false} EscapeKeepsLineEndingsOut(s: string)
    ensures '\n' !in Escape(s) && '\r' !in Escape(s)
  {
    hide EscapeChar;
    if s != "" {
      EscapeKeepsLineEndingsOut(s[1..]);
      EscapedCharIsNoLineEnding(s[0]);
    }
  }

  lemma EscapedCharIsNoLineEnding(c: char)
    ensures '\n' !in EscapeChar(c) && '\r' !in EscapeChar(c)
  {
  }

  lemma EncodedHasNoLineEnding(fact: ContextFact)
    requires !fact.value.Redacted? && (fact.value.Json? ==> IsCompact(fact.value.json))
    ensures '\n' !in EncodeBlockValue(fact.value).value && '\r' !in EncodeBlockValue(fact.value).value
  {
    hide IsWhitespace, Escape, Find, HasNoWhitespace, IsWord;
    if fact.value.Text? { EscapeKeepsLineEndingsOut(fact.value.text); }
  }

  lemma UriIsOneLine(fact: ContextFact)
    ensures IsOneLine("- `" + fact.Uri() + "` = ") && '<' !in "- `" + fact.Uri() + "` = "
  {
    UriCharacters(fact);
    hide ContextFact.Uri, IsUriChar;
    var uri := fact.Uri();
    forall i | 0 <= i < |uri| ensures uri[i] != '<' && uri[i] != '\n' && uri[i] != '\r' { UriCharEndsNothing(uri[i]); }
    var head := "- `" + uri + "` = ";
    assert forall i :: 3 <= i < 3 + |uri| ==> head[i] == uri[i - 3];
  }

  lemma TrailerIsOneLine(fact: ContextFact)
    requires IsPlaceable(fact)
    ensures IsOneLine(Trailer(fact))
  {
    MiddleShape(fact);
    MarkersAreFlat(fact);
    FlatIsOneLine(FactMarkers(fact));
    PrefixShape();
    assert IsOneLine(" -->") && IsOneLine(" fact=");
    hide RECEIPT_COMMENT_PREFIX, IsFlat, FactMarkers, SourceText, Middle, Trailer, IsOneLine, IsSeamSafe, IsHash, ContextFact.Subject;
    TrailerText(fact);
    var source, middle := SourceText(fact), Middle(fact);
    OneLineConcat(source, " -->");
    OneLineConcat(source + " -->", FactMarkers(fact));
    OneLineConcat(middle, source + " -->" + FactMarkers(fact));
    OneLineConcat(fact.factId, middle + (source + " -->" + FactMarkers(fact)));
    OneLineConcat(RECEIPT_COMMENT_PREFIX, " fact=");
    OneLineConcat(RECEIPT_COMMENT_PREFIX + " fact=", FromId(fact));
  }

  lemma FlatIsOneLine(s: string)
    requires IsFlat(s)
    ensures IsOneLine(s)
  {
  }

  lemma FactLineStarts(fact: ContextFact, encoded: string)
    ensures FactLine(fact, encoded) != "" && FactLine(fact, encoded)[0] == '-'
  {
    hide Trailer, FactLine, ContextFact.Uri;
    FactLineParts(fact, encoded);
  }

  lemma FactLineIsTight(fact: ContextFact)
    requires IsPlaceable(fact) && !fact.value.Redacted?
    ensures EncodeBlockValue(fact.value).Some?
    ensures IsTightLine(FactLine(fact, EncodeBlockValue(fact.value).value))
  {
    HashIsPlain();
    OnlyRedactedIsSkipped(fact.value);
    EncodedHasNoLineEnding(fact);
    UriIsOneLine(fact);
    hide EncodeBlockValue, FactLine, IsNameable, SourceText, IsWhitespace, Trailer, ContextFact.Uri;
    var encoded, head := EncodeBlockValue(fact.value).value, "- `" + fact.Uri() + "` = ";
    TrailerIsOneLine(fact);
    FactLineStarts(fact, encoded);
    FactLineParts(fact, encoded);
    assert IsOneLine(encoded);
    hide IsOneLine;
    OneLineConcat(head, encoded);
    OneLineConcat(head + encoded, Trailer(fact));
  }

  /** The line of a fact spells a sentinel exactly where the block prints one: in the value, the id or the source. */
  lemma FactLineSpells(fact: ContextFact, sentinel: string)
    requires IsHash(fact.eventHash) && !fact.value.Redacted? && IsSentinel(sentinel)
    ensures EncodeBlockValue(fact.value).Some?
    ensures Find(FactLine(fact, EncodeBlockValue(fact.value).value), sentinel) == None <==>
            && Find(ValueText(fact.value), sentinel) == None && Find(fact.factId, sentinel) == None
            && Find(SourceText(fact) + " -->", sentinel) == None
  {
    OnlyRedactedIsSkipped(fact.value);
    UriIsOneLine(fact);
    TrailerIndented(fact);
    hide IsSentinel, EncodeBlockValue, FactLine, Trailer, IsOneLine, SourceText, IsHash, ContextFact.Uri, Find, ValueText, FromId;
    var encoded, head := EncodeBlockValue(fact.value).value, "- `" + fact.Uri() + "` = ";
    FactLineParts(fact, encoded);
    assert head + encoded + Trailer(fact) == head + encoded + Trailer(fact) + "";
    if Find(ValueText(fact.value), sentinel).Some? {
      EncodedSpells(fact.value, sentinel);
      FoundInside(head, encoded, Trailer(fact), sentinel);
    } else if Find(fact.factId, sentinel).Some? || Find(SourceText(fact) + " -->", sentinel).Some? {
      TrailerHolds(fact, sentinel);
      FoundInside(head + encoded, Trailer(fact), "", sentinel);
    } else {
      EncodedHoldsNone(fact.value, sentinel);
      TrailerHoldsNone(fact, sentinel);
      FactLineHoldsNone(head, encoded, Trailer(fact), sentinel);
    }
  }

  lemma FactLineSentinels(fact: ContextFact)
    requires IsHash(fact.eventHash) && !fact.value.Redacted?
    ensures EncodeBlockValue(fact.value).Some?
    ensures HoldsNoSentinel(FactLine(fact, EncodeBlockValue(fact.value).value)) <==>
            HoldsNoSentinel(ValueText(fact.value)) && HoldsNoSentinel(fact.factId) && HoldsNoSentinel(SourceText(fact) + " -->")
  {
    BeginIsSentinel();
    EndIsSentinel();
    hide IsSentinel, BEGIN_SENTINEL, END_SENTINEL, EncodeBlockValue, FactLine, SourceText, IsHash, Find, ValueText;
    FactLineSpells(fact, BEGIN_SENTINEL);
    FactLineSpells(fact, END_SENTINEL);
  }

  lemma TrailerIndented(fact: ContextFact)
    ensures |Trailer(fact)| >= 2 && Trailer(fact)[0] == Trailer(fact)[1] == ' '
  {
    PrefixShape();
    hide RECEIPT_COMMENT_PREFIX, Trailer, IsSeamSafe, FromId;
    TrailerText(fact);
    assert RECEIPT_COMMENT_PREFIX[..2][0] == ' ' && RECEIPT_COMMENT_PREFIX[..2][1] == ' ';
  }

  // ---- The lines are the lines --------------------------------------------------------

  lemma {:induction false} LinesOfJoin(lines: seq<string>, rest: string)
    requires forall line :: line in lines ==> '\n' !in line && '\r' !in line
    ensures Lines(Join(lines) + rest) == lines + Lines(rest)
  {
    hide Lines, StripCr;
    if lines == [] {
      assert Join(lines) + rest == rest;
    } else {
      var line, below := lines[0], Join(lines[1..]);
      assert line in lines;
      LinesOfJoin(lines[1..], rest);
      assert Join(lines) == line + "\n" + below;
      hide Join;
      FirstLine(line, below + rest);
      NoCrToStrip(line);
      assert Join(lines) + rest == line + "\n" + (below + rest);
      assert lines + Lines(rest) == [line] + (lines[1..] + Lines(rest));
    }
  }

  lemma NoCrToStrip(line: string)
    requires '\r' !in line
    ensures StripCr(line) == line
  {
  }

  lemma NothingIsPlain()
    ensures IsPlainLine("")
  {
    NoSentinelWithout("");
    hide HoldsNoSentinel;
  }

  lemma {:induction false} BodyIsTight(facts: seq<ContextFact>, current: Option<string>)
    requires ArePlaceable(facts)
    ensures forall line :: line in BodyLines(facts, current) ==> IsTightLine(line)
    ensures AreSpliceable(facts) ==> forall line :: line in BodyLines(facts, current) ==> HoldsNoSentinel(line)
    decreases |facts|
  {
    hide IsStored, IsTightLine, EncodeBlockValue, FactLine, ContextFact.Subject, HoldsNoSentinel, SourceText, ValueText, IsOneLine;
    if facts != [] {
      var fact := facts[0];
      OnlyRedactedIsSkipped(fact.value);
      if fact.value.Redacted? {
        BodyIsTight(facts[1..], current);
      } else {
        BodyIsTight(facts[1..], Some(fact.Subject()));
        StoredIsHashed(fact);
        FactLineIsTight(fact);
        FactLineSentinels(fact);
        HeadingShape(fact.Subject());
        NothingIsPlain();
      }
    }
  }

  lemma StoredIsHashed(fact: ContextFact)
    requires IsStored(fact)
    ensures IsHash(fact.eventHash) && fact.kind != "" && fact.key != "" && fact.pred != ""
    ensures fact.value.Json? ==> IsCompact(fact.value.json)
  {
  }

  lemma InteriorIsTight(facts: seq<ContextFact>)
    requires ArePlaceable(facts)
    ensures forall line :: line in InteriorLines(facts) ==> IsTightLine(line)
    ensures AreSpliceable(facts) ==> forall line :: line in InteriorLines(facts) ==> IsPlainLine(line)
  {
    hide ArePlaceable, AreSpliceable, IsTightLine, HoldsNoSentinel, Summary, NothingYet, CountEmitted, BodyLines, Find, SCHEME;
    SummaryIsPlain(CountEmitted(facts));
    NothingYetIsPlain();
    NothingIsPlain();
    BodyIsTight(facts, None);
  }

  lemma TightHasNoEnding(line: string)
    requires IsTightLine(line)
    ensures '\n' !in line && '\r' !in line
  {
    hide IsWhitespace;
  }

  lemma SentinelLines()
    ensures '\n' !in BEGIN_SENTINEL && '\r' !in BEGIN_SENTINEL && '\n' !in END_SENTINEL && '\r' !in END_SENTINEL
    ensures Find(BEGIN_SENTINEL, BEGIN_SENTINEL).Some? && Find(END_SENTINEL, END_SENTINEL).Some?
    ensures Find(END_SENTINEL, BEGIN_SENTINEL) == None && END_SENTINEL != ""
  {
    BeginIsSentinel();
    EndIsSentinel();
    assert BEGIN_SENTINEL[5] == 'B' && END_SENTINEL[5] == 'E';
    hide BEGIN_SENTINEL, END_SENTINEL;
    SentinelIsOneLine(BEGIN_SENTINEL);
    SentinelIsOneLine(END_SENTINEL);
    OtherSentinelIsNot(BEGIN_SENTINEL, END_SENTINEL);
  }

  lemma SentinelIsOneLine(sentinel: string)
    requires IsSentinel(sentinel)
    ensures '\n' !in sentinel && '\r' !in sentinel && Find(sentinel, sentinel).Some?
  {
    assert forall i :: 0 < i < |sentinel| ==> sentinel[i] == sentinel[1..][i - 1];
    assert HasAt(sentinel, 0, sentinel);
  }

  lemma OtherSentinelIsNot(a: string, b: string)
    requires IsSentinel(a) && IsSentinel(b) && a[5] != b[5]
    ensures Find(b, a) == None
  {
    hide Find;
    assert forall i :: 0 < i < |b| ==> b[i] == b[1..][i - 1];
    forall i: nat ensures !HasAt(b, i, a)
    {
      HasAtIff(b, i, a);
    }
  }

  lemma LinesOfBlock(facts: seq<ContextFact>)
    requires ArePlaceable(facts)
    ensures Lines(RenderManagedBlock(facts)) == [BEGIN_SENTINEL] + InteriorLines(facts) + [END_SENTINEL]
  {
    hide BEGIN_SENTINEL, END_SENTINEL, RenderManagedBlock, InteriorLines, Lines, ArePlaceable, IsTightLine, AreSpliceable;
    InteriorIsTight(facts);
    forall line | line in InteriorLines(facts) ensures '\n' !in line && '\r' !in line { TightHasNoEnding(line); }
    LinesOfInterior(facts);
  }

  lemma LinesOfInterior(facts: seq<ContextFact>)
    requires forall line :: line in InteriorLines(facts) ==> '\n' !in line && '\r' !in line
    ensures Lines(RenderManagedBlock(facts)) == [BEGIN_SENTINEL] + InteriorLines(facts) + [END_SENTINEL]
  {
    hide BEGIN_SENTINEL, END_SENTINEL, RenderManagedBlock, InteriorLines, Lines;
    SentinelLines();
    BlockIsItsLines(facts);
    var lines := InteriorLines(facts);
    LinesOfJoin(lines, END_SENTINEL);
    FirstLine(BEGIN_SENTINEL, Join(lines) + END_SENTINEL);
    NoCrToStrip(BEGIN_SENTINEL);
    LastLine(END_SENTINEL);
    assert RenderManagedBlock(facts) == BEGIN_SENTINEL + "\n" + (Join(lines) + END_SENTINEL);
  }

  lemma LastLine(line: string)
    requires '\n' !in line && line != ""
    ensures Lines(line) == [line]
  {
  }

  // ---- The rendered block and the splice ----------------------------------------------

  lemma {:induction false} JoinedIsWhole(lines: seq<string>)
    ensures SpliceScan.WholeLines(Join(lines))
  {
    if lines != [] {
      JoinedIsWhole(lines[1..]);
      var text, rest := Join(lines), Join(lines[1..]);
      assert rest == "" ==> text[|text| - 1] == '\n';
      assert rest != "" ==> text[|text| - 1] == rest[|rest| - 1];
    }
  }

  lemma PlainIsNoFence(line: string)
    requires IsPlainLine(line)
    ensures !Splice.IsFenceLine(line) && Splice.LineOf(line + "\n") == line
    ensures Find(line, MARKERS.begin) == None && Find(line, MARKERS.end) == None
  {
    hide BEGIN_SENTINEL, END_SENTINEL, Find;
    if line != "" {
      TrimKeepsTightStart(line);
      assert line[|line| - 1] != '\r' && line[|line| - 1] != '\n';
    }
    assert (line + "\n")[..|line|] == line;
    assert Splice.TrimEndChar(line + "\n", '\n') == Splice.TrimEndChar(line, '\n') == line;
    assert Splice.TrimEndChar(line, '\r') == line;
  }

  lemma {:induction false} JoinedIsPlain(lines: seq<string>)
    requires forall line :: line in lines ==> IsPlainLine(line)
    ensures SpliceProofs.PlainLines(MARKERS, Join(lines)) && '\r' !in Join(lines)
  {
    hide IsTightLine, HoldsNoSentinel, Splice.IsFenceLine, Splice.LineOf, Find, BEGIN_SENTINEL, END_SENTINEL;
    if lines != [] {
      var line, rest := lines[0], Join(lines[1..]);
      assert line in lines;
      PlainIsNoFence(line);
      TightHasNoEnding(line);
      JoinedIsPlain(lines[1..]);
      var text := Join(lines);
      assert text[..|line|] == line && text[|line|] == '\n';
      SpliceScan.FirstSegmentIs(text, |line| + 1);
      assert text[..|line| + 1] == line + "\n" && text[|line| + 1..] == rest;
    }
  }

  /** What export renders is a block the splice keeps: every fixed-point and no-loss theorem applies to it. */
  lemma RenderedBlockIsABlock(facts: seq<ContextFact>)
    requires AreSpliceable(facts)
    ensures MARKERS.WellChosen()
    ensures SpliceProofs.BlockOf(MARKERS, RenderManagedBlock(facts), Join(InteriorLines(facts)))
  {
    hide BEGIN_SENTINEL, END_SENTINEL, RenderManagedBlock, InteriorLines, AreSpliceable, ArePlaceable, IsPlainLine, IsTightLine, SpliceProofs.PlainLines,
      SpliceScan.WholeLines, Splice.Markers.WellChosen, Find;
    MarkersAreWellChosen();
    BlockIsItsLines(facts);
    SpliceableArePlaceable(facts);
    InteriorIsTight(facts);
    JoinedIsWhole(InteriorLines(facts));
    JoinedIsPlain(InteriorLines(facts));
    SentinelLines();
  }

  /** Exporting the same facts twice in a row leaves the file the second time as the first time left it. */
  lemma ExportingTwiceIsExportingOnce(facts: seq<ContextFact>, file: Option<string>)
    requires AreSpliceable(facts)
    requires Splice.SpliceManagedBlock(MARKERS, file, RenderManagedBlock(facts)).Ok?
    requires Splice.SpliceManagedBlock(MARKERS, file, RenderManagedBlock(facts)).value.1 != Splice.Refreshed
    ensures var text := Splice.SpliceManagedBlock(MARKERS, file, RenderManagedBlock(facts)).value.0;
            Splice.SpliceManagedBlock(MARKERS, Some(text), RenderManagedBlock(facts)) == Ok((text, Splice.Refreshed))
  {
    hide BEGIN_SENTINEL, END_SENTINEL, RenderManagedBlock, InteriorLines, AreSpliceable, Splice.SpliceManagedBlock, MARKERS,
      SpliceProofs.BlockOf, Splice.Markers.WellChosen;
    RenderedBlockIsABlock(facts);
    SpliceProofs.ExportingAgainChangesNothing(MARKERS, file, RenderManagedBlock(facts), Join(InteriorLines(facts)));
  }
}
