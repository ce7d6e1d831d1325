/** The lines of a rendered block: what no line of it can contain, and how it falls into lines. */
module BlockLines {
  import opened Wrappers
  import opened AuthorityLevels
  import opened Text
  import opened EventIds
  import opened FactLog
  import opened ManagedBlock
  import Splice
  import SpliceScan

  // ---- Words --------------------------------------------------------------------------

  lemma PrintableIsNotWhitespace(c: char)
    requires '!' <= c <= '~' || c == '\U{2014}' || c == '\U{2026}'
    ensures !IsWhitespace(c)
  {
  }

  predicate IsPrintable(s: string)
  {
    forall i :: 0 <= i < |s| ==> '!' <= s[i] <= '~' || s[i] == '\U{2014}' || s[i] == '\U{2026}'
  }

  lemma PrintableIsWord(s: string)
    requires s != "" && IsPrintable(s)
    ensures IsWord(s)
  {
    hide IsWhitespace;
    forall i | 0 <= i < |s| ensures !IsWhitespace(s[i]) { PrintableIsNotWhitespace(s[i]); }
  }

  predicate HasNoWhitespace(s: string) { forall i :: 0 <= i < |s| ==> !IsWhitespace(s[i]) }

  lemma JoinedWord(prefix: string, s: string)
    requires prefix != "" && IsPrintable(prefix) && HasNoWhitespace(s)
    ensures IsWord(prefix + s) && (prefix + s)[0] == prefix[0]
  {
    PrintableIsWord(prefix);
    hide IsWhitespace;
  }

  predicate AreWords(ws: seq<string>) { forall w :: w in ws ==> IsWord(w) }

  predicate IsOneLine(s: string) { '\n' !in s && '\r' !in s }

  lemma OneLineConcat(a: string, b: string)
    requires IsOneLine(a) && IsOneLine(b)
    ensures IsOneLine(a + b)
  {
  }

  // ---- Flat text ----------------------------------------------------------------------

  predicate IsFlatChar(c: char) { c != '<' && c != '=' && c != '/' && c != '\n' && c != '\r' }

  /** Program text in which no sentinel, no URI and no hint can start, and no line ends. */
  predicate IsFlat(s: string) { forall i :: 0 <= i < |s| ==> IsFlatChar(s[i]) }

  lemma FlatConcat(a: string, b: string)
    requires IsFlat(a) && IsFlat(b)
    ensures IsFlat(a + b)
  {
    hide IsFlatChar;
  }

  lemma NumberIsFlat(n: nat)
    ensures IsFlat(" " + Decimal(n))
  {
    var s := " " + Decimal(n);
    assert forall i :: 1 <= i < |s| ==> '0' <= s[i] <= '9' by {
      assert forall i :: 1 <= i < |s| ==> s[i] == Decimal(n)[i - 1];
    }
  }

  lemma ContestedPieces()
    ensures IsFlat("  **[contested \U{2014}") && IsFlat(" rival value(s); run") && IsFlat(" `dent8 conflicts`")
    ensures IsFlat(" before relying on") && IsFlat(" this]**")
  {
  }

  lemma ContestedIsFlat(rivals: nat)
    ensures IsFlat(ContestedMarker(rivals))
  {
    NumberIsFlat(rivals);
    ContestedPieces();
    hide IsFlat, Decimal;
    var a, b, c, d, e := "  **[contested \U{2014}", " rival value(s); run", " `dent8 conflicts`", " before relying on", " this]**";
    var n := " " + Decimal(rivals);
    FlatConcat(a, n);
    FlatConcat(a + n, b);
    FlatConcat(a + n + b, c);
    FlatConcat(a + n + b + c, d);
    FlatConcat(a + n + b + c + d, e);
  }

  lemma StaleIsFlat()
    ensures IsFlat(StaleMarker())
  {
    assert IsFlat("  **[stale \U{2014} past") && IsFlat(" its validity window]**");
    hide IsFlat;
    FlatConcat("  **[stale \U{2014} past", " its validity window]**");
  }

  lemma MarkersAreFlat(fact: ContextFact)
    ensures IsFlat(FactMarkers(fact))
    ensures FactMarkers(fact) != "" ==> |FactMarkers(fact)| >= 2 && FactMarkers(fact)[0] == FactMarkers(fact)[1] == ' '
  {
    ContestedIsFlat(fact.contestedBy);
    StaleIsFlat();
    assert IsFlat("");
    MarkersStartWithSpace(fact);
    hide ContestedMarker, StaleMarker, IsFlat;
    if fact.contestedBy > 0 && fact.stale { FlatConcat(ContestedMarker(fact.contestedBy), StaleMarker()); }
    assert FactMarkers(fact) == (if fact.contestedBy > 0 && fact.stale then ContestedMarker(fact.contestedBy) + StaleMarker()
                                 else if fact.contestedBy > 0 then ContestedMarker(fact.contestedBy)
                                 else if fact.stale then StaleMarker() else "");
  }

  lemma MarkersStartWithSpace(fact: ContextFact)
    ensures FactMarkers(fact) != "" ==> |FactMarkers(fact)| >= 2 && FactMarkers(fact)[0] == FactMarkers(fact)[1] == ' '
  {
    hide Decimal;
  }

  lemma SpaceIsWhitespace()
    ensures IsWhitespace(' ')
  {
  }

  // ---- Facts that can be exported and read back ---------------------------------------

  /** A value's text, as import recovers it. */
  function ValueText(value: FactValue): string
  {
    match value case Text(text) => text case Json(json) => json case Redacted => ""
  }

  function SourceText(fact: ContextFact): string { if fact.source.Some? then fact.source.value else "-" }

  predicate HoldsNoSentinel(s: string)
  {
    Find(s, BEGIN_SENTINEL) == None && Find(s, END_SENTINEL) == None
  }

  /** Serialized JSON: no line endings, no whitespace at its ends. */
  predicate IsCompact(json: string)
  {
    json != "" && '\n' !in json && '\r' !in json && !IsWhitespace(json[|json| - 1])
  }

  predicate IsHash(s: string) { forall i :: 0 <= i < |s| ==> '0' <= s[i] <= '9' || 'a' <= s[i] <= 'f' }

  /** What the store guarantees of a fact. */
  predicate IsStored(fact: ContextFact)
  {
    && fact.kind != "" && fact.key != "" && fact.pred != ""
    && IsHash(fact.eventHash) && (fact.value.Json? ==> IsCompact(fact.value.json))
  }

  /** Besides, the subject and the id, which the block prints as they are, keep to one line. */
  predicate IsNameable(fact: ContextFact)
  {
    IsStored(fact) && IsOneLine(fact.Subject()) && IsOneLine(fact.factId)
  }

  /** A source that a receipt can say: one word, which is not taken for the end of the comment. */
  predicate IsReadableSource(source: string) { IsWord(source) && !Splice.EndsWith(source, "-->") }

  /** Import reads nothing in the heading of the subject and stays in the block. */
  predicate IsQuietSubject(subject: string)
  {
    var heading := "### " + subject;
    || Find(heading, BEGIN_SENTINEL).Some?
    || (Find(heading, END_SENTINEL).None? && ParseReceiptLine(heading).NotAFact?)
  }

  /** What the line of a fact carries: neither value nor id spells a sentinel, and a receipt can say id and source. */
  predicate IsCarried(fact: ContextFact)
  {
    && HoldsNoSentinel(ValueText(fact.value)) && HoldsNoSentinel(fact.factId)
    && Find(fact.factId, RECEIPT_COMMENT_PREFIX) == None && IsReadableSource(SourceText(fact))
  }

  /** What the round trip asks of a fact. */
  predicate IsExportable(fact: ContextFact)
  {
    IsNameable(fact) && IsCarried(fact) && IsQuietSubject(fact.Subject())
  }

  /** The lines of the fact are lines of the block. */
  predicate IsPlaceable(fact: ContextFact) { IsNameable(fact) && IsOneLine(SourceText(fact)) }

  /** Something that the block prints of the fact spells a sentinel. */
  predicate SpellsSentinel(fact: ContextFact)
  {
    || !HoldsNoSentinel(fact.Subject()) || !HoldsNoSentinel(fact.factId)
    || !HoldsNoSentinel(SourceText(fact) + " -->") || !HoldsNoSentinel(ValueText(fact.value))
  }

  /** What the splice asks of a fact. */
  predicate IsSpliceable(fact: ContextFact) { IsPlaceable(fact) && !SpellsSentinel(fact) }

  /** A redacted fact is not written, so nothing is asked of it. */
  predicate AreNameable(facts: seq<ContextFact>)
  {
    forall fact :: fact in facts && !fact.value.Redacted? ==> IsNameable(fact)
  }

  predicate AreExportable(facts: seq<ContextFact>)
  {
    forall fact :: fact in facts && !fact.value.Redacted? ==> IsExportable(fact)
  }

  predicate ArePlaceable(facts: seq<ContextFact>)
  {
    forall fact :: fact in facts && !fact.value.Redacted? ==> IsPlaceable(fact)
  }

  predicate AreSpliceable(facts: seq<ContextFact>)
  {
    forall fact :: fact in facts && !fact.value.Redacted? ==> IsSpliceable(fact)
  }

  lemma ExportableArePlaceable(facts: seq<ContextFact>)
    requires AreExportable(facts)
    ensures ArePlaceable(facts) && AreNameable(facts)
  {
    hide IsNameable, IsReadableSource, IsQuietSubject, HoldsNoSentinel, SourceText;
    forall fact | fact in facts && !fact.value.Redacted? ensures IsPlaceable(fact)
    {
      ReadableIsPlain(SourceText(fact));
    }
  }

  lemma SpliceableArePlaceable(facts: seq<ContextFact>)
    requires AreSpliceable(facts)
    ensures ArePlaceable(facts)
  {
    hide IsPlaceable, SpellsSentinel;
  }

  // ---- Sentinels ----------------------------------------------------------------------

  predicate IsSentinelChar(c: char) { ' ' <= c && c != '<' && c != '"' && c != '\\' && c != '=' }

  /** What a sentinel is made of after its `<`: single spaces, none at the end, and no word that starts with `ev`. */
  predicate IsSentinelText(s: string)
  {
    && s != "" && s[|s| - 1] != ' '
    && (forall i :: 0 <= i < |s| ==> IsSentinelChar(s[i]))
    && forall i :: 0 < i < |s| ==> StartsWell(s, i)
  }

  predicate StartsWell(s: string, i: int)
    requires 0 < i < |s|
  {
    s[i - 1] == ' ' ==> s[i] != ' ' && (s[i] == 'e' ==> i + 1 < |s| && s[i + 1] != 'v')
  }

  /** What tells a sentinel apart: one `<`, at the front; a single space before a capital; `>` at the end. */
  predicate IsSentinel(s: string)
  {
    && 6 <= |s| && s[0] == '<' && s[1] == '!' && IsSentinelText(s[1..])
    && s[4] == ' ' && (s[5] == 'B' || s[5] == 'E') && s[|s| - 1] == '>'
  }

  lemma SentinelTextConcat(a: string, b: string)
    requires IsSentinelText(a) && IsSentinelText(b)
    ensures IsSentinelText(a + b)
  {
    hide IsSentinelChar;
    var s := a + b;
    forall i | 0 < i < |s| ensures StartsWell(s, i)
    {
      if i < |a| { assert StartsWell(a, i); }
      if |a| < i { assert StartsWell(b, i - |a|); }
    }
  }

  lemma BeginFirstPieces()
    ensures IsSentinelText("!-- BEGIN dent8") && IsSentinelText(" managed block")
  {
  }

  lemma BeginMiddlePieces()
    ensures IsSentinelText(" (generated by") && IsSentinelText(" `dent8 export`;")
  {
  }

  lemma BeginLastPieces()
    ensures IsSentinelText(" edits inside are") && IsSentinelText(" overwritten) -->")
  {
  }

  lemma BeginIsSentinel()
    ensures IsSentinel(BEGIN_SENTINEL)
  {
    BeginFirstPieces();
    BeginMiddlePieces();
    BeginLastPieces();
    hide IsSentinelText;
    var a, b, c, d, e, f := "!-- BEGIN dent8", " managed block", " (generated by", " `dent8 export`;", " edits inside are", " overwritten) -->";
    SentinelTextConcat(a, b);
    SentinelTextConcat(a + b, c);
    SentinelTextConcat(a + b + c, d);
    SentinelTextConcat(a + b + c + d, e);
    SentinelTextConcat(a + b + c + d + e, f);
    DropFirst("<!-- BEGIN dent8", a, b + c + d + e + f);
    assert BEGIN_SENTINEL == "<!-- BEGIN dent8" + (b + c + d + e + f);
    assert a + b + c + d + e + f == a + (b + c + d + e + f);
  }

  lemma DropFirst(s: string, rest: string, more: string)
    requires s != "" && s[1..] == rest
    ensures (s + more)[1..] == rest + more
  {
  }

  lemma EndPieces()
    ensures IsSentinelText("!-- END dent8") && IsSentinelText(" managed block -->")
  {
  }

  lemma EndIsSentinel()
    ensures IsSentinel(END_SENTINEL)
  {
    EndPieces();
    hide IsSentinelText;
    SentinelTextConcat("!-- END dent8", " managed block -->");
    DropFirst("<!-- END dent8", "!-- END dent8", " managed block -->");
  }

  lemma SentinelIsMarker(s: string)
    requires IsSentinel(s)
    ensures Splice.IsMarker(s)
  {
  }

  /** The program's own sentinels satisfy what the splice proofs ask of them. */
  lemma MarkersAreWellChosen()
    ensures MARKERS.WellChosen()
  {
    hide IsSentinel;
    BeginIsSentinel();
    EndIsSentinel();
    SentinelIsMarker(BEGIN_SENTINEL);
    SentinelIsMarker(END_SENTINEL);
    hide Splice.IsMarker;
    assert BEGIN_SENTINEL[5] != END_SENTINEL[5];
  }

  // ---- Needles and seams --------------------------------------------------------------

  /** Where a fact line is pieced together no needle can straddle: after a space it has no second one, and no `ev`. */
  predicate IsSeamSafe(needle: string)
  {
    forall d :: 0 < d < |needle| && needle[d] == ' ' ==>
      d + 1 < |needle| && needle[d + 1] != ' ' && (needle[d + 1] == 'e' ==> d + 2 < |needle| && needle[d + 2] != 'v')
  }

  lemma SentinelIsSeamSafe(sentinel: string)
    requires IsSentinel(sentinel)
    ensures IsSeamSafe(sentinel) && '=' !in sentinel && sentinel[0] == '<'
  {
    var text := sentinel[1..];
    assert forall i :: 0 < i < |sentinel| ==> sentinel[i] == text[i - 1] && IsSentinelChar(text[i - 1]);
    forall d | 0 < d < |sentinel| && sentinel[d] == ' '
      ensures d + 1 < |sentinel| && sentinel[d + 1] != ' '
      ensures sentinel[d + 1] == 'e' ==> d + 2 < |sentinel| && sentinel[d + 2] != 'v'
    {
      assert text[d - 1] == ' ' && d < |text|;
      assert StartsWell(text, d) && text[d] == sentinel[d + 1];
    }
  }

  lemma PrefixShape()
    ensures |RECEIPT_COMMENT_PREFIX| == 20 && RECEIPT_COMMENT_PREFIX[..2] == "  " && RECEIPT_COMMENT_PREFIX[2] == '<'
    ensures IsSeamSafe(RECEIPT_COMMENT_PREFIX) && '=' !in RECEIPT_COMMENT_PREFIX && IsOneLine(RECEIPT_COMMENT_PREFIX)
    ensures RECEIPT_COMMENT_PREFIX[7] == 'd' && forall i :: 0 <= i < 20 && i != 2 ==> RECEIPT_COMMENT_PREFIX[i] != '<'
  {
    PrefixCharacters();
    hide RECEIPT_COMMENT_PREFIX;
    var s := RECEIPT_COMMENT_PREFIX;
    assert forall d :: 0 < d < 20 && s[d] == ' ' ==> d == 1 || d == 6 || d == 12;
    assert forall c :: c in s ==> exists d :: 0 <= d < 20 && s[d] == c;
  }

  lemma PrefixCharacters()
    ensures var s := RECEIPT_COMMENT_PREFIX;
            && |s| == 20 && s[0] == ' ' && s[1] == ' ' && s[2] == '<' && s[3] == '!' && s[4] == '-' && s[5] == '-'
            && s[6] == ' ' && s[7] == 'd' && s[8] == 'e' && s[9] == 'n' && s[10] == 't' && s[11] == '8'
            && s[12] == ' ' && s[13] == 'r' && s[14] == 'e' && s[15] == 'c' && s[16] == 'e' && s[17] == 'i'
            && s[18] == 'p' && s[19] == 't'
  {
    PrefixPieces();
    var a, b, c := "  <!--", " dent8", " receipt";
    assert |a| == 6 && |b| == 6 && |c| == 8 && RECEIPT_COMMENT_PREFIX == a + b + c;
  }

  lemma PrefixPieces()
    ensures var a := "  <!--"; a[0] == ' ' && a[1] == ' ' && a[2] == '<' && a[3] == '!' && a[4] == '-' && a[5] == '-'
    ensures var b := " dent8"; b[0] == ' ' && b[1] == 'd' && b[2] == 'e' && b[3] == 'n' && b[4] == 't' && b[5] == '8'
    ensures var c := " receipt"; c[0] == ' ' && c[1] == 'r' && c[2] == 'e' && c[3] == 'c' && c[4] == 'e' && c[5] == 'i'
                                 && c[6] == 'p' && c[7] == 't'
  {
  }

  /** `b` reads on where `needle` is at `d`, as far as both go. */
  predicate ReadsOn(needle: string, d: nat, b: string)
  {
    forall e :: 0 <= e < |b| && d + e < |needle| ==> needle[d + e] == b[e]
  }

  lemma NoneAcrossSeam(a: string, b: string, needle: string)
    requires Find(a, needle) == None && Find(b, needle) == None
    requires forall d :: 0 < d < |needle| ==> !ReadsOn(needle, d, b)
    ensures Find(a + b, needle) == None
  {
    hide Find;
    forall i: nat ensures !HasAt(a + b, i, needle)
    {
      if |a| <= i {
        SpliceScan.BehindFront(a, b, needle, i);
      } else if i + |needle| <= |a| {
        HasAtIff(a + b, i, needle);
        HasAtIff(a, i, needle);
      } else {
        HasAtIff(a + b, i, needle);
        StraddleReadsOn(a, b, needle, i);
      }
    }
  }

  lemma StraddleReadsOn(a: string, b: string, needle: string, i: nat)
    requires i < |a| < i + |needle|
    ensures HasAt(a + b, i, needle) ==> ReadsOn(needle, |a| - i, b)
  {
    HasAtIff(a + b, i, needle);
    if HasAt(a + b, i, needle) {
      forall e | 0 <= e < |b| && |a| - i + e < |needle| ensures needle[|a| - i + e] == b[e]
      {
        assert (a + b)[i + (|a| - i + e)] == needle[|a| - i + e];
      }
    }
  }

  /** No needle straddles a seam behind two spaces, or behind ` ev`. */
  lemma NoneAcrossSafeSeam(a: string, b: string, needle: string)
    requires Find(a, needle) == None && Find(b, needle) == None && IsSeamSafe(needle)
    requires b == "" || (|b| >= 2 && b[0] == b[1] == ' ') || (|b| >= 3 && b[0] == ' ' && b[1] == 'e' && b[2] == 'v')
    ensures Find(a + b, needle) == None
  {
    hide Find;
    if b == "" {
      assert a + b == a;
    } else {
      forall d | 0 < d < |needle| ensures !ReadsOn(needle, d, b)
      {
        if needle[d] == ' ' {
          assert d + 1 < |needle| && (needle[d + 1] == 'e' ==> d + 2 < |needle| && needle[d + 2] != 'v');
          assert needle[d + 1] != b[1] || (needle[d + 1] == 'e' && needle[d + 2] != b[2]);
        } else {
          assert needle[d + 0] != b[0];
        }
      }
      NoneAcrossSeam(a, b, needle);
    }
  }

  /** Nor one in front of which stands a character it does not have. */
  lemma NoneAfterForeign(a: string, b: string, needle: string)
    requires Find(a, needle) == None && Find(b, needle) == None && a != "" && a[|a| - 1] !in needle
    ensures Find(a + b, needle) == None
  {
    hide Find;
    forall i: nat ensures !HasAt(a + b, i, needle)
    {
      HasAtIff(a + b, i, needle);
      if |a| <= i {
        SpliceScan.BehindFront(a, b, needle, i);
      } else if i + |needle| <= |a| {
        HasAtIff(a, i, needle);
      } else {
        assert (a + b)[i + (|a| - 1 - i)] == a[|a| - 1];
        assert needle[|a| - 1 - i] in needle;
      }
    }
  }

  /** A needle that opens with a character `a` has nowhere can only stand behind it. */
  lemma NoneBehindFirst(a: string, b: string, needle: string)
    requires Find(b, needle) == None && needle != "" && needle[0] !in a
    ensures Find(a + b, needle) == None
  {
    hide Find;
    forall i: nat ensures !HasAt(a + b, i, needle)
    {
      if |a| <= i {
        SpliceScan.BehindFront(a, b, needle, i);
      } else {
        HasAtChar(a + b, i, needle, 0);
        assert (a + b)[i] in a;
      }
    }
  }

  lemma NoneWithoutAngle(s: string, needle: string)
    requires '<' !in s && '<' in needle
    ensures Find(s, needle) == None
  {
    hide Find;
    var d :| 0 <= d < |needle| && needle[d] == '<';
    forall i: nat ensures !HasAt(s, i, needle)
    {
      HasAtChar(s, i, needle, d);
      assert i + d < |s| ==> s[i + d] in s;
    }
  }

  // ---- After the value ----------------------------------------------------------------

  /** The receipt between the id and the source. */
  function Middle(fact: ContextFact): string
  {
    " event_hash=" + Short(fact.eventHash) + " authority=" + Name(fact.authority) + " source="
  }

  /** The receipt words, from the id on. */
  function FromId(fact: ContextFact): string
  {
    fact.factId + (Middle(fact) + (SourceText(fact) + " -->" + FactMarkers(fact)))
  }

  lemma ReceiptText(fact: ContextFact)
    ensures Spaced(ReceiptWords(fact)) + FactMarkers(fact) == " fact=" + FromId(fact)
    ensures Spaced(ReceiptWords(fact)[1..]) == Middle(fact) + (SourceText(fact) + " -->")
    ensures Spaced(ReceiptWords(fact)) == " fact=" + fact.factId + Spaced(ReceiptWords(fact)[1..])
  {
    hide Name, Short, FactMarkers, Spaced;
    SpacedReceipt(fact);
    JoinedMiddle(Short(fact.eventHash), Name(fact.authority), SourceText(fact));
    var rest, middle, source := Spaced(ReceiptWords(fact)[1..]), Middle(fact), SourceText(fact) + " -->";
    hide Middle, SourceText, ReceiptWords;
    assert " fact=" + fact.factId + (middle + source) + FactMarkers(fact)
        == " fact=" + (fact.factId + (middle + (source + FactMarkers(fact))));
  }

  lemma SpacedReceipt(fact: ContextFact)
    ensures Spaced(ReceiptWords(fact)) == " fact=" + fact.factId + Spaced(ReceiptWords(fact)[1..])
    ensures Spaced(ReceiptWords(fact)[1..]) ==
            " " + ("event_hash=" + Short(fact.eventHash)) +
            (" " + ("authority=" + Name(fact.authority)) + (" " + ("source=" + SourceText(fact)) + " -->"))
  {
    hide Name, Short, SourceText;
    var ws := ReceiptWords(fact);
    assert ws[4..][1..] == [] && ws[3..][1..] == ws[4..] && ws[2..][1..] == ws[3..] && ws[1..][1..] == ws[2..];
    assert ws[3] == "source=" + SourceText(fact) by { SourceIsItsText(fact); }
    hide ReceiptWords;
    assert Spaced(ws[4..]) == " -->" by { assert Spaced([]) == ""; }
    assert Spaced(ws[3..]) == " " + ws[3] + Spaced(ws[4..]);
    assert Spaced(ws[2..]) == " " + ws[2] + Spaced(ws[3..]);
    assert Spaced(ws[1..]) == " " + ws[1] + Spaced(ws[2..]);
    assert Spaced(ws) == " " + ws[0] + Spaced(ws[1..]);
    hide Spaced;
    assert " " + ("fact=" + fact.factId) == " fact=" + fact.factId;
  }

  lemma SourceIsItsText(fact: ContextFact)
    ensures SourceText(fact) == if fact.source.Some? then fact.source.value else "-"
  {
  }

  lemma JoinedMiddle(hash: string, name: string, source: string)
    ensures " " + ("event_hash=" + hash) + (" " + ("authority=" + name) + (" " + ("source=" + source) + " -->"))
         == " event_hash=" + hash + " authority=" + name + " source=" + (source + " -->")
  {
    assert " " + "event_hash=" == " event_hash=" && " " + "authority=" == " authority=" && " " + "source=" == " source=";
  }

  lemma HashHoldsNoAngle(hash: string)
    requires IsHash(hash)
    ensures '<' !in Short(hash) && IsOneLine(Short(hash))
  {
  }

  lemma NameHoldsNoAngle(level: AuthorityLevel)
    ensures '<' !in Name(level) && IsOneLine(Name(level))
  {
  }

  /** What the seams around it ask of the middle of a receipt. */
  predicate IsMiddle(s: string)
  {
    |s| >= 3 && s[0] == ' ' && s[1] == 'e' && s[2] == 'v' && s[|s| - 1] == '=' && '<' !in s && IsOneLine(s)
  }

  lemma MiddleShape(fact: ContextFact)
    requires IsHash(fact.eventHash)
    ensures IsMiddle(Middle(fact))
  {
    HashHoldsNoAngle(fact.eventHash);
    NameHoldsNoAngle(fact.authority);
    hide Short, Name, IsHash;
    JoinedIsMiddle(Short(fact.eventHash), Name(fact.authority));
  }

  lemma JoinedIsMiddle(hash: string, name: string)
    requires '<' !in hash && IsOneLine(hash) && '<' !in name && IsOneLine(name)
    ensures IsMiddle(" event_hash=" + hash + " authority=" + name + " source=")
  {
    var a, b, c := " event_hash=", " authority=", " source=";
    assert '<' !in a && '<' !in b && '<' !in c && IsOneLine(a) && IsOneLine(b) && IsOneLine(c);
    assert a[0] == ' ' && a[1] == 'e' && a[2] == 'v' && c[|c| - 1] == '=' && |a| >= 3 && |c| >= 1;
    JoinedFive(a, hash, b, name, c);
  }

  lemma JoinedFive(a: string, b: string, c: string, d: string, e: string)
    requires '<' !in a && '<' !in b && '<' !in c && '<' !in d && '<' !in e
    requires IsOneLine(a) && IsOneLine(b) && IsOneLine(c) && IsOneLine(d) && IsOneLine(e)
    requires |a| >= 3 && a[0] == ' ' && a[1] == 'e' && a[2] == 'v' && |e| >= 1 && e[|e| - 1] == '='
    ensures IsMiddle(a + b + c + d + e)
  {
    var s := a + b + c + d + e;
    assert forall x :: x in s ==> x in a || x in b || x in c || x in d || x in e;
  }

  /** From the id on, a needle could only be in the id or in the source. */
  lemma ReceiptHoldsNone(fact: ContextFact, needle: string)
    requires IsHash(fact.eventHash) && IsSeamSafe(needle) && '=' !in needle && '<' in needle
    requires Find(fact.factId, needle) == None && Find(SourceText(fact) + " -->", needle) == None
    ensures Find(FromId(fact), needle) == None
  {
    MiddleShape(fact);
    MarkersAreFlat(fact);
    FlatHoldsNoAngle(FactMarkers(fact));
    hide Find, IsSeamSafe, FactMarkers, Middle, IsFlat, SourceText;
    var source, markers, middle := SourceText(fact) + " -->", FactMarkers(fact), Middle(fact);
    NoneWithoutAngle(markers, needle);
    NoneAcrossSafeSeam(source, markers, needle);
    NoneWithoutAngle(middle, needle);
    NoneAfterForeign(middle, source + markers, needle);
    NoneAcrossSafeSeam(fact.factId, middle + (source + markers), needle);
  }

  lemma FlatHoldsNoAngle(s: string)
    requires IsFlat(s)
    ensures '<' !in s
  {
  }

  /** Everything after the value of a fact line. */
  function Trailer(fact: ContextFact): string
  {
    RECEIPT_COMMENT_PREFIX + Spaced(ReceiptWords(fact)) + FactMarkers(fact)
  }

  lemma TrailerText(fact: ContextFact)
    ensures Trailer(fact) == RECEIPT_COMMENT_PREFIX + " fact=" + FromId(fact)
  {
    hide RECEIPT_COMMENT_PREFIX, FromId, Spaced, ReceiptWords, FactMarkers;
    ReceiptText(fact);
    Regrouped(RECEIPT_COMMENT_PREFIX, Spaced(ReceiptWords(fact)), FactMarkers(fact));
    Regrouped(RECEIPT_COMMENT_PREFIX, " fact=", FromId(fact));
  }

  lemma Regrouped(a: string, b: string, c: string)
    ensures a + b + c == a + (b + c)
  {
  }

  /** No sentinel stands after the value but in the id or the source. */
  lemma TrailerHoldsNone(fact: ContextFact, sentinel: string)
    requires IsSentinel(sentinel) && IsHash(fact.eventHash)
    requires Find(fact.factId, sentinel) == None && Find(SourceText(fact) + " -->", sentinel) == None
    ensures Find(Trailer(fact), sentinel) == None
  {
    hide IsSentinel, RECEIPT_COMMENT_PREFIX, Find, IsSeamSafe, FromId, Trailer, SourceText, IsHash;
    SentinelIsSeamSafe(sentinel);
    SentinelHoldsNoSign(sentinel);
    ReceiptHoldsNone(fact, sentinel);
    FrontHoldsNone(sentinel);
    FrontEnds();
    NoneAfterForeign(RECEIPT_COMMENT_PREFIX + " fact=", FromId(fact), sentinel);
    TrailerText(fact);
  }

  /** What the id or the source holds, the trailer holds. */
  lemma TrailerHolds(fact: ContextFact, needle: string)
    requires Find(fact.factId, needle).Some? || Find(SourceText(fact) + " -->", needle).Some?
    ensures Find(FromId(fact), needle).Some? && Find(Trailer(fact), needle).Some?
  {
    hide RECEIPT_COMMENT_PREFIX, Find, Trailer, SourceText, Middle, FactMarkers;
    TrailerText(fact);
    var source, front := SourceText(fact) + " -->", RECEIPT_COMMENT_PREFIX + " fact=";
    if Find(fact.factId, needle).Some? {
      FoundInside("", fact.factId, Middle(fact) + (source + FactMarkers(fact)), needle);
      assert "" + fact.factId + (Middle(fact) + (source + FactMarkers(fact))) == FromId(fact);
    } else {
      FoundInside(fact.factId + Middle(fact), source, FactMarkers(fact), needle);
      assert fact.factId + Middle(fact) + source + FactMarkers(fact) == FromId(fact);
    }
    FoundInside(front, FromId(fact), "", needle);
    assert front + FromId(fact) + "" == Trailer(fact);
  }

  lemma FoundWhereItStands(a: string, needle: string, b: string)
    ensures Find(a + needle + b, needle).Some?
  {
    SpliceScan.HasAtHere(a + needle + b, |a|, needle);
  }

  lemma FoundInside(a: string, middle: string, b: string, needle: string)
    requires Find(middle, needle).Some?
    ensures Find(a + middle + b, needle).Some?
  {
    var i := Find(middle, needle).value;
    SpliceScan.HasAtBounds(middle, i, needle);
    var x, y := middle[..i], middle[i + |needle|..];
    assert a + middle + b == (a + x) + needle + (y + b);
    FoundWhereItStands(a + x, needle, y + b);
  }

  lemma FrontEnds()
    ensures var front := RECEIPT_COMMENT_PREFIX + " fact="; front[|front| - 1] == '='
  {
    hide RECEIPT_COMMENT_PREFIX;
    assert " fact="[5] == '=';
  }

  lemma SentinelHoldsNoSign(sentinel: string)
    requires IsSentinel(sentinel)
    ensures '<' in sentinel
  {
  }

  lemma FrontHoldsNone(sentinel: string)
    requires IsSentinel(sentinel)
    ensures Find(RECEIPT_COMMENT_PREFIX + " fact=", sentinel) == None
  {
    PrefixShape();
    hide RECEIPT_COMMENT_PREFIX, Find;
    var front := RECEIPT_COMMENT_PREFIX + " fact=";
    assert forall i :: 20 <= i < 26 ==> front[i] == " fact="[i - 20] != '<';
    forall i: nat ensures !HasAt(front, i, sentinel)
    {
      HasAtChar(front, i, sentinel, 0);
      HasAtChar(front, i, sentinel, 5);
    }
  }

  /** No second receipt comment opens after the value but in the id or the source. */
  lemma CommentOpensOnce(fact: ContextFact, j: nat)
    requires IsHash(fact.eventHash) && Find(fact.factId, RECEIPT_COMMENT_PREFIX) == None
    requires Find(SourceText(fact) + " -->", RECEIPT_COMMENT_PREFIX) == None && 0 < j
    ensures !HasAt(Trailer(fact), j, RECEIPT_COMMENT_PREFIX)
  {
    PrefixShape();
    hide RECEIPT_COMMENT_PREFIX, Find, FromId, Trailer, SourceText, IsHash, IsSeamSafe, IsOneLine;
    var prefix := RECEIPT_COMMENT_PREFIX;
    assert prefix[2] in prefix;
    ReceiptHoldsNone(fact, prefix);
    TrailerText(fact);
    OnceInFront(prefix, FromId(fact), j);
  }

  lemma OnceInFront(prefix: string, later: string, j: nat)
    requires |prefix| == 20 && prefix[2] == '<' && '=' !in prefix && forall i :: 0 <= i < 20 && i != 2 ==> prefix[i] != '<'
    requires Find(later, prefix) == None && 0 < j
    ensures !HasAt(prefix + " fact=" + later, j, prefix)
  {
    hide Find;
    var front := prefix + " fact=";
    var text := front + later;
    assert text[25] == '=' && forall i :: 20 <= i < 26 ==> text[i] == " fact="[i - 20] != '<';
    assert forall i :: 0 <= i < 20 ==> text[i] == prefix[i];
    if 26 <= j {
      SpliceScan.BehindFront(front, later, prefix, j);
    } else if 5 < j {
      HasAtChar(text, j, prefix, 25 - j);
      assert prefix[25 - j] in prefix;
    } else {
      HasAtChar(text, j, prefix, 2);
    }
  }

  /** One word and ` -->` hold neither a sentinel nor the opening of a receipt. */
  lemma WordHoldsNone(source: string, needle: string, d: nat)
    requires IsWord(source) && d + 1 < |needle| && needle[d] == ' ' && needle[d + 1] != '-'
    ensures Find(source + " -->", needle) == None
  {
    SpaceIsWhitespace();
    hide Find, IsWhitespace;
    var s := source + " -->";
    assert forall i :: 0 <= i < |source| ==> s[i] == source[i] != ' ';
    forall i: nat ensures !HasAt(s, i, needle)
    {
      HasAtChar(s, i, needle, d);
      HasAtChar(s, i, needle, d + 1);
    }
  }

  lemma ReadableIsPlain(source: string)
    requires IsReadableSource(source)
    ensures IsOneLine(source) && HoldsNoSentinel(source + " -->") && Find(source + " -->", RECEIPT_COMMENT_PREFIX) == None
  {
    WordIsOneLine(source);
    PrefixShape();
    BeginIsSentinel();
    EndIsSentinel();
    assert RECEIPT_COMMENT_PREFIX[..2][0] == ' ' && RECEIPT_COMMENT_PREFIX[..2][1] == ' ';
    hide BEGIN_SENTINEL, END_SENTINEL, RECEIPT_COMMENT_PREFIX, Find, IsSeamSafe;
    WordHoldsNone(source, RECEIPT_COMMENT_PREFIX, 0);
    WordHoldsNone(source, BEGIN_SENTINEL, 4);
    WordHoldsNone(source, END_SENTINEL, 4);
  }

  lemma WordIsOneLine(source: string)
    requires IsWord(source)
    ensures IsOneLine(source)
  {
    assert IsWhitespace('\n') && IsWhitespace('\r');
    hide IsWhitespace;
  }

  /** A sentinel in a fact line would be in its value: not before it, not after it, not across its end. */
  lemma FactLineHoldsNone(head: string, encoded: string, trailer: string, sentinel: string)
    requires IsSentinel(sentinel) && '<' !in head && Find(encoded, sentinel) == None && Find(trailer, sentinel) == None
    requires |trailer| >= 2 && trailer[0] == trailer[1] == ' '
    ensures Find(head + encoded + trailer, sentinel) == None
  {
    SentinelIsSeamSafe(sentinel);
    hide Find, IsSeamSafe, IsSentinel;
    NoneAcrossSafeSeam(encoded, trailer, sentinel);
    NoneBehindFirst(head, encoded + trailer, sentinel);
    assert head + encoded + trailer == head + (encoded + trailer);
  }
}
