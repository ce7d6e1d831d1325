/** One fact line of a managed block reads back as exactly its fact. */
module FactLines {
  import opened Wrappers
  import opened AuthorityLevels
  import opened Text
  import opened JsonText
  import opened FactLog
  import opened ManagedBlock
  import opened BlockLines
  import Splice
  import SpliceScan

  // ---- Words and hints ----------------------------------------------------------------

  lemma {:induction false} WordLengthStops(w: string, rest: string)
    requires HasNoWhitespace(w) && (rest != "" ==> IsWhitespace(rest[0]))
    ensures WordLength(w + rest) == |w|
  {
    hide IsWhitespace;
    if w == "" {
      assert w + rest == rest;
    } else {
      assert (w + rest)[1..] == w[1..] + rest;
      WordLengthStops(w[1..], rest);
    }
  }

  /** Splitting undoes spacing. */
  lemma {:induction false} SplittingUndoesSpacing(ws: seq<string>, rest: string)
    requires AreWords(ws) && (rest != "" ==> IsWhitespace(rest[0]))
    ensures SplitWhitespace(Spaced(ws) + rest) == ws + SplitWhitespace(rest)
    decreases |ws|
  {
    hide IsWhitespace, SplitWhitespace, IsWord, Spaced;
    SpacedStep(ws);
    if ws == [] {
      assert "" + rest == rest;
    } else {
      var tail := Spaced(ws[1..]) + rest;
      SplittingUndoesSpacing(ws[1..], rest);
      SpacedStartsWithSpace(ws[1..], rest);
      SpacedApart(ws[0], Spaced(ws[1..]), rest);
      assert IsWord(ws[0]);
      SplitsOneWord(ws[0], tail);
      FirstApart(ws, SplitWhitespace(rest));
    }
  }

  lemma SpacedApart(w: string, later: string, rest: string)
    ensures " " + w + later + rest == " " + (w + (later + rest))
  {
  }

  lemma FirstApart(ws: seq<string>, later: seq<string>)
    requires ws != []
    ensures ws + later == [ws[0]] + (ws[1..] + later)
  {
  }

  /** One unfolding of `Spaced`. */
  lemma SpacedStep(ws: seq<string>)
    ensures Spaced(ws) == if ws == [] then "" else " " + ws[0] + Spaced(ws[1..])
  {
  }

  lemma SpacedStartsWithSpace(ws: seq<string>, rest: string)
    requires rest != "" ==> IsWhitespace(rest[0])
    ensures Spaced(ws) + rest != "" ==> IsWhitespace((Spaced(ws) + rest)[0])
  {
    SpaceIsWhitespace();
    hide IsWhitespace;
  }

  lemma SplitsOneWord(w: string, tail: string)
    requires IsWord(w) && (tail != "" ==> IsWhitespace(tail[0]))
    ensures SplitWhitespace(" " + (w + tail)) == [w] + SplitWhitespace(tail)
  {
    SpaceIsWhitespace();
    hide IsWhitespace;
    var s := " " + (w + tail);
    assert WordLength(s) == 0 && s[1..] == w + tail;
    WordLengthStops(w, tail);
    assert (w + tail)[..|w|] == w && (w + tail)[|w|..] == tail;
  }

  /** A text falls into words on each side of a space alike. */
  lemma {:induction false} SplitsAtSpace(a: string, b: string)
    requires b != "" ==> IsWhitespace(b[0])
    ensures SplitWhitespace(a + b) == SplitWhitespace(a) + SplitWhitespace(b)
    decreases |a|
  {
    hide IsWhitespace, SplitWhitespace;
    SplitStep(a);
    SplitStep(a + b);
    if a == "" {
      assert a + b == b;
    } else {
      var n := WordLength(a);
      WordStopsAtSpace(a, b);
      if n == 0 {
        assert (a + b)[1..] == a[1..] + b;
        SplitsAtSpace(a[1..], b);
      } else {
        assert (a + b)[..n] == a[..n] && (a + b)[n..] == a[n..] + b;
        SplitsAtSpace(a[n..], b);
      }
    }
  }

  lemma SplitStep(s: string)
    ensures SplitWhitespace(s) ==
            if s == "" then []
            else if WordLength(s) == 0 then SplitWhitespace(s[1..])
            else [s[..WordLength(s)]] + SplitWhitespace(s[WordLength(s)..])
  {
    hide WordLength;
  }

  lemma {:induction false} WordStopsAtSpace(a: string, b: string)
    requires b != "" ==> IsWhitespace(b[0])
    ensures WordLength(a + b) == WordLength(a)
    decreases |a|
  {
    hide IsWhitespace;
    if a == "" {
      assert a + b == b;
    } else if !IsWhitespace(a[0]) {
      assert (a + b)[1..] == a[1..] + b;
      WordStopsAtSpace(a[1..], b);
    }
  }

  lemma {:induction false} SplitGivesWords(s: string)
    ensures AreWords(SplitWhitespace(s))
    decreases |s|
  {
    hide IsWhitespace, SplitWhitespace;
    SplitStep(s);
    if s != "" {
      var n := WordLength(s);
      if n == 0 { SplitGivesWords(s[1..]); } else { SplitGivesWords(s[n..]); }
    }
  }

  lemma {:induction false} SplitAddsNothing(s: string, c: char)
    requires c !in s
    ensures forall w :: w in SplitWhitespace(s) ==> c !in w
    decreases |s|
  {
    if s != "" {
      var n := WordLength(s);
      if n == 0 { SplitAddsNothing(s[1..], c); } else { SplitAddsNothing(s[n..], c); }
    }
  }

  lemma {:induction false} TrimmedIsPrefix(s: string, suffix: string)
    requires suffix != ""
    ensures TrimEndMatches(s, suffix) <= s
    decreases |s|
  {
    if |suffix| <= |s| && s[|s| - |suffix|..] == suffix { TrimmedIsPrefix(s[..|s| - |suffix|], suffix); }
  }

  lemma NoEqualsNoHint(word: string, hints: Hints)
    requires '=' !in word
    ensures HintOf(word, hints) == hints
  {
    TrimmedIsPrefix(word, "-->");
    hide TrimEndMatches;
    var token := TrimEndMatches(word, "-->");
    assert '=' !in token;
    assert "authority="[9] == '=' && "source="[6] == '=';
  }

  lemma {:induction false} NoEqualsNoHints(words: seq<string>, hints: Hints)
    requires forall w :: w in words ==> '=' !in w
    ensures HintsOf(words, hints) == hints
    decreases |words|
  {
    hide HintOf;
    if words != [] {
      NoEqualsNoHint(words[0], hints);
      NoEqualsNoHints(words[1..], hints);
    }
  }

  /** A word that starts like neither hint is no hint. */
  lemma OtherWordNoHint(word: string, hints: Hints)
    requires word != "" ==> word[0] != 'a' && word[0] != 's'
    ensures HintOf(word, hints) == hints
  {
    TrimmedIsPrefix(word, "-->");
    hide TrimEndMatches;
    var token := TrimEndMatches(word, "-->");
    assert "authority="[0] == 'a' && "source="[0] == 's';
  }

  lemma AuthorityHint(name: string, hints: Hints)
    requires name != "" && name[|name| - 1] != '>'
    ensures HintOf("authority=" + name, hints) == hints.(authority := Some(name))
  {
    var word := "authority=" + name;
    assert word[|word| - 3..][2] == word[|word| - 1];
    assert TrimEndMatches(word, "-->") == word;
    assert word[10..] == name;
  }

  lemma SourceHint(source: string, hints: Hints)
    requires source != "" && !Splice.EndsWith(source, "-->")
    ensures HintOf("source=" + source, hints) == hints.(source := Some(source))
  {
    var word := "source=" + source;
    assert word[7..] == source && word[0] == 's' && "authority="[0] == 'a';
    if 3 <= |source| {
      assert word[|word| - 3..] == source[|source| - 3..];
    } else {
      assert word[|word| - 3..][2 - |source|] == word[6] == '=';
    }
    assert TrimEndMatches(word, "-->") == word;
  }

  lemma ArrowNoHint(hints: Hints)
    ensures HintOf("-->", hints) == hints
  {
    NoEqualsNoHint("-->", hints);
  }

  /** Only a readable source is ever read. */
  lemma HintedSourceIsReadable(word: string, hints: Hints)
    requires IsWord(word) && (hints.source.Some? ==> IsReadableSource(hints.source.value))
    ensures HintOf(word, hints).source.Some? ==> IsReadableSource(HintOf(word, hints).source.value)
  {
    TrimmedIsPrefix(word, "-->");
    TrimmedDoesNotEnd(word, "-->");
    hide TrimEndMatches, IsWhitespace;
    var token := TrimEndMatches(word, "-->");
    if 7 < |token| {
      var source := token[7..];
      assert 3 <= |source| ==> token[|token| - 3..] == source[|source| - 3..];
      assert forall i :: 0 <= i < |source| ==> source[i] == token[i + 7] == word[i + 7];
    }
  }

  lemma {:induction false} TrimmedDoesNotEnd(s: string, suffix: string)
    requires suffix != ""
    ensures !Splice.EndsWith(TrimEndMatches(s, suffix), suffix)
    decreases |s|
  {
    if |suffix| <= |s| && s[|s| - |suffix|..] == suffix { TrimmedDoesNotEnd(s[..|s| - |suffix|], suffix); }
  }

  lemma {:induction false} HintedSourcesAreReadable(words: seq<string>, hints: Hints)
    requires AreWords(words) && (hints.source.Some? ==> IsReadableSource(hints.source.value))
    ensures HintsOf(words, hints).source.Some? ==> IsReadableSource(HintsOf(words, hints).source.value)
    decreases |words|
  {
    hide HintOf, IsWord, IsReadableSource;
    if words != [] {
      HintedSourceIsReadable(words[0], hints);
      HintedSourcesAreReadable(words[1..], HintOf(words[0], hints));
    }
  }

  lemma ReadSourcesAreReadable(region: string)
    ensures ParseMetaHints(region).source.Some? ==> IsReadableSource(ParseMetaHints(region).source.value)
  {
    hide SplitWhitespace, HintsOf, IsReadableSource, AreWords;
    SplitGivesWords(region);
    HintedSourcesAreReadable(SplitWhitespace(region), Hints(None, None));
  }

  lemma {:induction false} HintsCompose(a: seq<string>, b: seq<string>, hints: Hints)
    ensures HintsOf(a + b, hints) == HintsOf(b, HintsOf(a, hints))
    decreases |a|
  {
    hide HintOf;
    if a == [] {
      assert a + b == b;
    } else {
      assert (a + b)[1..] == a[1..] + b;
      HintsCompose(a[1..], b, HintOf(a[0], hints));
    }
  }

  /** Authority and source come back, whatever the id holds, if and only if a receipt can say the source. */
  lemma HintsReadBackIff(fact: ContextFact)
    requires IsHash(fact.eventHash)
    ensures IsReadableSource(SourceText(fact)) <==>
            ParseMetaHints(Spaced(ReceiptWords(fact)) + FactMarkers(fact)) ==
            Hints(Some(Name(fact.authority)), Some(SourceText(fact)))
  {
    hide ParseMetaHints, IsReadableSource, Spaced, ReceiptWords, FactMarkers, SourceText, Name, IsHash;
    ReadSourcesAreReadable(Spaced(ReceiptWords(fact)) + FactMarkers(fact));
    if IsReadableSource(SourceText(fact)) { HintsReadBack(fact); }
  }

  lemma HintsReadBack(fact: ContextFact)
    requires IsHash(fact.eventHash) && IsReadableSource(SourceText(fact))
    ensures ParseMetaHints(Spaced(ReceiptWords(fact)) + FactMarkers(fact))
         == Hints(Some(Name(fact.authority)), Some(SourceText(fact)))
  {
    LaterWordsAreWords(fact);
    MarkersAreFlat(fact);
    MarkersHoldNoEquals(FactMarkers(fact));
    SpaceIsWhitespace();
    hide IsFlat, FactMarkers, AreWords, IsWhitespace, IsReadableSource, ReceiptWords, Spaced, SplitWhitespace, HintsOf, SourceText, Name;
    hide IsHash, HasNoWhitespace;
    var later, markers := ReceiptWords(fact)[1..], FactMarkers(fact);
    var front := " fact=" + fact.factId;
    SpacedReceipt(fact);
    SplitAddsNothing(markers, '=');
    HintsAfter(front, Spaced(ReceiptWords(fact)), later, markers);
    HintsOfLaterWords(fact, SplitWhitespace(markers), HintsOf(SplitWhitespace(front), Hints(None, None)));
  }

  lemma HintsAfter(front: string, words: string, later: seq<string>, markers: string)
    requires words == front + Spaced(later) && AreWords(later) && (markers != "" ==> IsWhitespace(markers[0]))
    ensures ParseMetaHints(words + markers) ==
            HintsOf(later + SplitWhitespace(markers), HintsOf(SplitWhitespace(front), Hints(None, None)))
  {
    hide AreWords, IsWhitespace, Spaced, SplitWhitespace, HintsOf;
    var rest := Spaced(later) + markers;
    assert words + markers == front + rest;
    SpacedStartsWithSpace(later, markers);
    SplitsAtSpace(front, rest);
    SplittingUndoesSpacing(later, markers);
    HintsCompose(SplitWhitespace(front), later + SplitWhitespace(markers), Hints(None, None));
  }

  lemma LaterWordsAreWords(fact: ContextFact)
    requires IsHash(fact.eventHash) && IsReadableSource(SourceText(fact))
    ensures AreWords(ReceiptWords(fact)[1..])
  {
    HashHasNoWhitespace(fact.eventHash);
    NameIsPrintable(fact.authority);
    SourceIsItsText(fact);
    hide IsWhitespace, Short, Name, SourceText, IsHash;
    JoinedWord("event_hash=", Short(fact.eventHash));
    JoinedWord("authority=", Name(fact.authority));
    JoinedWord("source=", SourceText(fact));
    PrintableIsWord("-->");
  }

  lemma HashHasNoWhitespace(hash: string)
    requires IsHash(hash)
    ensures HasNoWhitespace(Short(hash))
  {
    PrintableIsNotWhitespace('\U{2026}');
    var s := Short(hash);
    forall i | 0 <= i < |s| ensures !IsWhitespace(s[i]) { PrintableIsNotWhitespace(s[i]); }
  }

  lemma NameIsPrintable(level: AuthorityLevel)
    ensures HasNoWhitespace(Name(level)) && Name(level) != "" && Name(level)[|Name(level)| - 1] != '>'
  {
    assert IsPrintable(Name(level));
    PrintableIsWord(Name(level));
    hide IsWhitespace;
  }

  lemma MarkersHoldNoEquals(markers: string)
    requires IsFlat(markers)
    ensures '=' !in markers
  {
  }

  /** The words from the hash on settle both hints, whatever the words before them said. */
  lemma HintsOfLaterWords(fact: ContextFact, rest: seq<string>, hints: Hints)
    requires IsReadableSource(SourceText(fact)) && forall w :: w in rest ==> '=' !in w
    ensures HintsOf(ReceiptWords(fact)[1..] + rest, hints) == Hints(Some(Name(fact.authority)), Some(SourceText(fact)))
  {
    NameIsPrintable(fact.authority);
    SourceIsItsText(fact);
    hide Name, Short, HintOf, SourceText;
    var ws := ReceiptWords(fact)[1..] + rest;
    var named := hints.(authority := Some(Name(fact.authority)));
    var sourced := named.(source := Some(SourceText(fact)));
    assert ws[1..][1..] == ws[2..] && ws[2..][1..] == ws[3..] && ws[3..][1..] == ws[4..] && ws[4..] == rest;
    assert ws[0] == "event_hash=" + Short(fact.eventHash) && ws[1] == "authority=" + Name(fact.authority);
    assert ws[2] == "source=" + SourceText(fact) && ws[3] == "-->";
    hide ReceiptWords;
    OtherWordNoHint(ws[0], hints);
    AuthorityHint(Name(fact.authority), hints);
    SourceHint(SourceText(fact), named);
    ArrowNoHint(sourced);
    NoEqualsNoHints(rest, sourced);
    HintsStep(ws[3..], sourced);
    HintsStep(ws[2..], named);
    HintsStep(ws[1..], hints);
    HintsStep(ws, hints);
  }

  lemma HintsStep(words: seq<string>, hints: Hints)
    requires words != []
    ensures HintsOf(words, hints) == HintsOf(words[1..], HintOf(words[0], hints))
  {
    hide HintOf;
  }

  // ---- The value ----------------------------------------------------------------------

  lemma QuoteIsNotWhitespace()
    ensures !IsWhitespace('"') && !IsWhitespace('j')
  {
  }

  /** A rendered value decodes to its text. */
  lemma ValueReadsBack(fact: ContextFact)
    requires !fact.value.Redacted? && (fact.value.Json? ==> IsCompact(fact.value.json))
    ensures EncodeBlockValue(fact.value).Some?
    ensures var encoded := EncodeBlockValue(fact.value).value;
            && encoded != "" && !IsWhitespace(encoded[0])
            && DecodeBlockValue(encoded) == Some(ValueText(fact.value))
  {
    QuoteIsNotWhitespace();
    hide IsWhitespace, Escape;
    var encoded := EncodeBlockValue(fact.value).value;
    TrimOfTight(encoded);
    if fact.value.Text? { UnquoteQuote(fact.value.text); }
  }

  lemma {:induction false} TrimEndReaches(s: string, i: nat)
    requires i < |s| && !IsWhitespace(s[i])
    ensures i < |TrimEnd(s)|
  {
    hide IsWhitespace;
    if IsWhitespace(s[|s| - 1]) { TrimEndReaches(s[..|s| - 1], i); }
  }

  lemma TrimKeepsMore(encoded: string, more: string, i: nat) returns (y: string)
    requires encoded != "" && !IsWhitespace(encoded[0]) && i < |more| && !IsWhitespace(more[i])
    ensures y != "" && Trim(encoded + more) == encoded + y
  {
    hide IsWhitespace, TrimEnd;
    var raw := encoded + more;
    assert raw[0] == encoded[0] && raw[|encoded| + i] == more[i];
    TrimEndReaches(raw, |encoded| + i);
    y := TrimEnd(raw)[|encoded|..];
    assert TrimEnd(raw) == encoded + y;
  }

  /** With more behind it than whitespace, it decodes to nothing or to something else. */
  lemma ValueWithMoreIsAnother(fact: ContextFact, more: string, i: nat)
    requires !fact.value.Redacted? && (fact.value.Json? ==> IsCompact(fact.value.json))
    requires i < |more| && !IsWhitespace(more[i])
    ensures EncodeBlockValue(fact.value).Some?
    ensures DecodeBlockValue(EncodeBlockValue(fact.value).value + more) != Some(ValueText(fact.value))
  {
    QuoteIsNotWhitespace();
    hide IsWhitespace, IsCompact, Trim, Unquote;
    var encoded := EncodeBlockValue(fact.value).value;
    var y := TrimKeepsMore(encoded, more, i);
    if fact.value.Text? {
      QuoteWithMore(fact.value.text, y);
    } else {
      assert (encoded + y)[5..] == fact.value.json + y && "json:" <= encoded + y && (encoded + y)[0] == 'j';
    }
  }

  lemma QuoteWithMore(text: string, y: string)
    requires y != ""
    ensures Unquote(Quote(text) + y) == None && (Quote(text) + y)[0] == '"'
  {
    hide Escape, Unescape;
    UnescapeEscape(text, y);
    assert (Quote(text) + y)[1..] == Escape(text) + "\"" + y;
  }

  /** `needle` holds no character that is written escaped, and does not start with one that ends an escape. */
  predicate SurvivesEscaping(needle: string)
  {
    needle != "" && needle[0] == '<' && forall i :: 0 <= i < |needle| ==> needle[i] != '"' && needle[i] != '\\'
  }

  lemma EscapeOfChar(c: char)
    ensures EscapeChar(c) == [c] || EscapeChar(c)[0] == '\\'
    ensures forall i :: 0 <= i < |EscapeChar(c)| && EscapeChar(c) != [c] ==> EscapeChar(c)[i] != '<'
  {
  }

  /** Escaping brings in no sentinel: an occurrence would be verbatim text. */
  lemma {:induction false} EscapingAddsNone(s: string, needle: string, i: nat) returns (j: nat)
    requires SurvivesEscaping(needle) && HasAt(Escape(s), i, needle)
    ensures HasAt(s, j, needle)
    decreases |s|
  {
    hide EscapeChar;
    var text := Escape(s);
    HasAtChar(text, i, needle, 0);
    EscapeOfChar(s[0]);
    var head := EscapeChar(s[0]);
    assert forall k :: |head| <= k < |text| ==> text[k] == Escape(s[1..])[k - |head|];
    if |head| <= i {
      HasAtIff(text, i, needle);
      HasAtIff(Escape(s[1..]), i - |head|, needle);
      forall d | 0 <= d < |needle| ensures Escape(s[1..])[i - |head| + d] == needle[d] { assert text[i + d] == needle[d]; }
      j := EscapingAddsNone(s[1..], needle, i - |head|);
      HasAtIff(s[1..], j, needle);
      HasAtIff(s, j + 1, needle);
      j := j + 1;
    } else {
      assert text[i] == head[i];
      j := 0;
      VerbatimRun(s, needle);
    }
  }

  /** An occurrence at the front of an escaped text is verbatim. */
  lemma {:induction false} VerbatimRun(s: string, needle: string)
    requires HasAt(Escape(s), 0, needle) && forall i :: 0 <= i < |needle| ==> needle[i] != '\\'
    ensures HasAt(s, 0, needle)
    decreases |needle|
  {
    hide EscapeChar;
    if needle != "" {
      var text := Escape(s);
      HasAtChar(text, 0, needle, 0);
      EscapeOfChar(s[0]);
      var head := EscapeChar(s[0]);
      assert text[0] == head[0] && head == [s[0]];
      HasAtIff(text, 0, needle);
      HasAtIff(Escape(s[1..]), 0, needle[1..]);
      forall d | 0 <= d < |needle[1..]| ensures Escape(s[1..])[d] == needle[1..][d]
      {
        assert text[0 + (d + 1)] == needle[d + 1] && text[d + 1] == Escape(s[1..])[d];
      }
      VerbatimRun(s[1..], needle[1..]);
      HasAtIff(s[1..], 0, needle[1..]);
      HasAtIff(s, 0, needle);
      forall d | 0 <= d < |needle| ensures s[0 + d] == needle[d]
      {
        if d != 0 { assert s[1..][0 + (d - 1)] == needle[1..][d - 1]; }
      }
    }
  }

  lemma SentinelSurvives(sentinel: string)
    requires IsSentinel(sentinel)
    ensures SurvivesEscaping(sentinel)
  {
    forall i | 0 <= i < |sentinel| ensures sentinel[i] != '"' && sentinel[i] != '\\'
    {
      assert i != 0 ==> IsSentinelChar(sentinel[1..][i - 1]) && sentinel[i] == sentinel[1..][i - 1];
    }
  }

  /** A value without a sentinel is rendered without one. */
  lemma EncodedHoldsNone(value: FactValue, sentinel: string)
    requires IsSentinel(sentinel) && !value.Redacted? && Find(ValueText(value), sentinel) == None
    ensures Find(EncodeBlockValue(value).value, sentinel) == None
  {
    var encoded := EncodeBlockValue(value).value;
    SentinelSurvives(sentinel);
    var found := Find(encoded, sentinel);
    if found.Some? {
      hide IsSentinel, EscapeChar;
      HasAtIff(encoded, found.value, sentinel);
      if value.Text? {
        InsideQuotes(value.text, sentinel, found.value);
        var j := EscapingAddsNone(value.text, sentinel, found.value - 1);
      } else {
        AfterJsonMark(value.json, sentinel, found.value);
      }
    }
  }

  lemma InsideQuotes(s: string, needle: string, i: nat)
    requires SurvivesEscaping(needle) && HasAt(Quote(s), i, needle)
    ensures 1 <= i && HasAt(Escape(s), i - 1, needle)
  {
    hide Escape;
    var text := Quote(s);
    HasAtChar(text, i, needle, 0);
    HasAtChar(text, i, needle, |needle| - 1);
    assert text[|text| - 1] == '"' && text[0] == '"';
    HasAtIff(text, i, needle);
    HasAtIff(Escape(s), i - 1, needle);
    forall d | 0 <= d < |needle| ensures i - 1 + d < |Escape(s)| && Escape(s)[i - 1 + d] == needle[d]
    {
      assert text[i + d] == needle[d];
    }
  }

  lemma AfterJsonMark(json: string, needle: string, i: nat)
    requires needle != "" && needle[0] == '<' && HasAt("json:" + json, i, needle)
    ensures 5 <= i && HasAt(json, i - 5, needle)
  {
    var text := "json:" + json;
    HasAtChar(text, i, needle, 0);
    HasAtIff(text, i, needle);
    HasAtIff(json, i - 5, needle);
    forall d | 0 <= d < |needle| ensures json[i - 5 + d] == needle[d] { assert text[i + d] == needle[d]; }
  }

  // ---- A spelled sentinel shows in the line -------------------------------------------

  lemma {:induction false} EscapeConcat(a: string, b: string)
    ensures Escape(a + b) == Escape(a) + Escape(b)
    decreases |a|
  {
    hide EscapeChar;
    if a == "" {
      assert a + b == b;
    } else {
      assert (a + b)[1..] == a[1..] + b;
      EscapeConcat(a[1..], b);
    }
  }

  lemma {:induction false} VerbatimEscape(s: string)
    requires forall i :: 0 <= i < |s| ==> IsSentinelChar(s[i]) || s[i] == '<'
    ensures Escape(s) == s
  {
    if s != "" { VerbatimEscape(s[1..]); }
  }

  lemma SentinelIsVerbatim(sentinel: string)
    requires IsSentinel(sentinel)
    ensures Escape(sentinel) == sentinel
  {
    hide IsSentinelChar;
    assert forall i :: 1 <= i < |sentinel| ==> sentinel[i] == sentinel[1..][i - 1];
    VerbatimEscape(sentinel);
  }

  /** A value with one, with one. */
  lemma EncodedSpells(value: FactValue, sentinel: string)
    requires IsSentinel(sentinel) && !value.Redacted? && Find(ValueText(value), sentinel).Some?
    ensures Find(EncodeBlockValue(value).value, sentinel).Some?
  {
    hide IsSentinel, Find, Escape;
    if value.Json? {
      FoundInside("json:", value.json, "", sentinel);
      assert "json:" + value.json + "" == "json:" + value.json;
    } else {
      EscapedSpells(value.text, sentinel);
      FoundInside("\"", Escape(value.text), "\"", sentinel);
    }
  }

  lemma EscapedSpells(s: string, sentinel: string)
    requires IsSentinel(sentinel) && Find(s, sentinel).Some?
    ensures Find(Escape(s), sentinel).Some?
  {
    hide IsSentinel, Escape;
    var i := Find(s, sentinel).value;
    SpliceScan.HasAtBounds(s, i, sentinel);
    var x, y := s[..i], s[i + |sentinel|..];
    EscapeConcat(x + sentinel, y);
    EscapeConcat(x, sentinel);
    SentinelIsVerbatim(sentinel);
    FoundWhereItStands(Escape(x), sentinel, Escape(y));
  }
}
