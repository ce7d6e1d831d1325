/**
 What the managed block cannot carry. Whatever it prints that spells a sentinel: the next export refuses the file. A
 fact whose line or heading import misreads: at the end, one of each kind.
 */
module SentinelValues {
  import opened Wrappers
  import opened Text
  import opened AuthorityLevels
  import opened FactLog
  import opened ManagedBlock
  import opened BlockLines
  import opened FactLines
  import opened RoundTrip
  import opened BlockImport
  import opened ExportedFiles
  import ResourceUri
  import Splice
  import SpliceScan
  import SpliceProofs

  // ---- The next export ----------------------------------------------------------------

  /** Sentinels the scan meets on a line: at most one of each kind. */
  function SentinelsIn(line: string): nat
  {
    (if Find(line, BEGIN_SENTINEL).Some? then 1 else 0) + (if Find(line, END_SENTINEL).Some? then 1 else 0)
  }

  function Spelled(lines: seq<string>): nat
  {
    if lines == [] then 0 else SentinelsIn(lines[0]) + Spelled(lines[1..])
  }

  lemma {:induction false} SpelledConcat(a: seq<string>, b: seq<string>)
    ensures Spelled(a + b) == Spelled(a) + Spelled(b)
  {
    hide SentinelsIn;
    if a == [] {
      assert a + b == b;
    } else {
      assert (a + b)[1..] == a[1..] + b;
      SpelledConcat(a[1..], b);
    }
  }

  lemma {:induction false} SpelledCountsEach(lines: seq<string>, i: nat)
    requires i < |lines|
    ensures SentinelsIn(lines[i]) <= Spelled(lines)
  {
    hide SentinelsIn;
    if i > 0 { SpelledCountsEach(lines[1..], i - 1); }
  }

  /** Everything a scan recorded. */
  function Recorded(scan: Splice.ManagedBlockScan): nat { |scan.begins| + |scan.ends| }

  lemma TightLineScans(line: string, offset: nat)
    requires IsTightLine(line)
    ensures Splice.LineOf(line) == line
    ensures var here := Splice.ScanLine(MARKERS, line, offset, None); Recorded(here) == SentinelsIn(line) && here.fence == None
  {
    if line != "" {
      TrimKeepsTightStart(line);
      assert line[|line| - 1] in line;
    }
    assert !Splice.IsFenceLine(line);
    hide Splice.IsFenceLine, BEGIN_SENTINEL, END_SENTINEL, Find;
  }

  /** Scanning lines in either line ending records the sentinels on them. */
  lemma {:induction false} ScanCounts(lines: seq<string>, ending: string, offset: nat)
    requires (forall line :: line in lines ==> IsTightLine(line)) && Splice.IsEnding(ending)
    ensures var scan := Splice.Scan(MARKERS, Splice.Convert(Join(lines), ending), offset, None);
            Recorded(scan) == Spelled(lines) && scan.fence == None
    decreases |lines|
  {
    hide MARKERS, Splice.Scan, Splice.ScanLine, Splice.LineOf, Splice.Convert, IsTightLine, SentinelsIn, Splice.IsEnding;
    if lines == [] {
      ConvertedNothing(ending);
      SpliceScan.ScanNothing(MARKERS, offset, None);
    } else {
      var line, below := lines[0], Join(lines[1..]);
      assert line in lines;
      TightHasNoEnding(line);
      TightLineScans(line, offset);
      SpliceProofs.ConvertLine(line, below, ending);
      var later := Splice.Convert(below, ending);
      SpliceScan.ScanFirstLine(MARKERS, line, ending, later, offset, None);
      ScanCounts(lines[1..], ending, offset + |line| + |ending|);
    }
  }

  lemma SpelledShows(line: string)
    ensures HoldsNoSentinel(line) <==> SentinelsIn(line) == 0
  {
    hide Find, BEGIN_SENTINEL, END_SENTINEL;
  }

  /** If no line of the body spells one, no fact does: every subject has had its heading. */
  lemma {:induction false} BodySpells(facts: seq<ContextFact>, current: Option<string>)
    requires ArePlaceable(facts) && Spelled(BodyLines(facts, current)) == 0
    requires current.Some? ==> HoldsNoSentinel(current.value)
    ensures AreSpliceable(facts)
    decreases |facts|
  {
    hide IsPlaceable, EncodeBlockValue, FactLine, ContextFact.Subject, SentinelsIn, HoldsNoSentinel, SourceText, ValueText;
    if facts != [] {
      var fact, rest := facts[0], facts[1..];
      assert fact in facts && (forall f :: f in facts <==> f == fact || f in rest);
      OnlyRedactedIsSkipped(fact.value);
      if fact.value.Redacted? {
        BodySpells(rest, current);
      } else {
        var heading, line := HeadingLines(fact, current), FactLine(fact, EncodeBlockValue(fact.value).value);
        var below := BodyLines(rest, Some(fact.Subject()));
        SpelledConcat(heading, [line] + below);
        SpelledConcat([line], below);
        SpelledShows(line);
        SpelledCountsEach([line], 0);
        PlaceableSpells(fact);
        HeadingSpellsFor(fact, current);
        BodySpells(rest, Some(fact.Subject()));
      }
    }
  }

  lemma PlaceableSpells(fact: ContextFact)
    requires IsPlaceable(fact) && !fact.value.Redacted?
    ensures EncodeBlockValue(fact.value).Some?
    ensures HoldsNoSentinel(FactLine(fact, EncodeBlockValue(fact.value).value)) && HoldsNoSentinel(fact.Subject()) <==>
            !SpellsSentinel(fact)
  {
    StoredIsHashed(fact);
    hide EncodeBlockValue, FactLine, HoldsNoSentinel, SourceText, ValueText, IsHash, IsCompact, ContextFact.Subject;
    FactLineSentinels(fact);
  }

  lemma HeadingSpellsFor(fact: ContextFact, current: Option<string>)
    requires IsPlaceable(fact) && Spelled(HeadingLines(fact, current)) == 0
    requires current.Some? ==> HoldsNoSentinel(current.value)
    ensures HoldsNoSentinel(fact.Subject())
  {
    hide HoldsNoSentinel, SentinelsIn, IsStored, SourceText, ContextFact.Subject, IsTightLine;
    if current != Some(fact.Subject()) {
      var h := "### " + fact.Subject();
      HeadingShape(fact.Subject());
      SpelledShows(h);
      SpelledCountsEach(["", h, ""], 1);
    }
  }

  lemma BlockSpells(facts: seq<ContextFact>)
    requires ArePlaceable(facts) && !AreSpliceable(facts)
    ensures Spelled(WholeBlock(facts)) >= 3
  {
    hide IsPlaceable, SpellsSentinel, Summary, NothingYet, CountEmitted, BodyLines, BEGIN_SENTINEL, END_SENTINEL, Find;
    SomeAreWritten(facts);
    var inner, interior := BodyLines(facts, None), InteriorLines(facts);
    if Spelled(inner) == 0 { BodySpells(facts, None); }
    SpelledConcat([Summary(CountEmitted(facts))], inner + [""]);
    SpelledConcat(inner, [""]);
    SpelledConcat([BEGIN_SENTINEL], interior);
    SpelledConcat([BEGIN_SENTINEL] + interior, [END_SENTINEL]);
    SentinelLines();
    SpelledCountsEach([BEGIN_SENTINEL], 0);
    SpelledCountsEach([END_SENTINEL], 0);
  }

  lemma {:induction false} SomeAreWritten(facts: seq<ContextFact>)
    requires !AreSpliceable(facts)
    ensures CountEmitted(facts) != 0
  {
    hide IsSpliceable;
    if facts[0].value.Redacted? {
      assert forall fact :: fact in facts <==> fact == facts[0] || fact in facts[1..];
      SomeAreWritten(facts[1..]);
    }
  }

  /** Above an appended block the scan records nothing and leaves no fence open. */
  lemma HeadIsQuiet(file: Option<string>, block: string)
    requires Splice.SpliceManagedBlock(MARKERS, file, block).Ok?
    requires Splice.SpliceManagedBlock(MARKERS, file, block).value.1 != Splice.Refreshed
    ensures Splice.Scan(MARKERS, HeadOf(file), 0, None) == Splice.ManagedBlockScan([], [], None)
  {
    hide MARKERS, Splice.Scan, Splice.SpliceManagedBlock, EndingOf, Splice.Separator, Splice.Markers.WellChosen, Splice.IsEnding;
    MarkersAreWellChosen();
    SpliceScan.ScanNothing(MARKERS, 0, None);
    if file.Some? && file.value != "" {
      SpliceProofs.SpliceOutcomes(MARKERS, file.value, block);
      EndingIsEnding(file);
      SpliceProofs.AppendHead(MARKERS, file.value, EndingOf(file));
    }
  }

  lemma BlockTextIsItsLines(facts: seq<ContextFact>, ending: string)
    ensures Splice.Convert(RenderManagedBlock(facts), ending) + ending == Splice.Convert(Join(WholeBlock(facts)), ending)
  {
    hide BEGIN_SENTINEL, END_SENTINEL, InteriorLines, WholeBlock, RenderManagedBlock, Splice.Convert, Join;
    BlockIsItsLines(facts);
    JoinOfBlock(facts);
    SpliceProofs.ConvertConcat(RenderManagedBlock(facts), "\n", ending);
    ConvertedEnding(ending);
  }

  /** The scan of a file that the block was just added to. */
  lemma ExportedFileRecords(file: Option<string>, facts: seq<ContextFact>)
    requires ArePlaceable(facts)
    requires Splice.SpliceManagedBlock(MARKERS, file, RenderManagedBlock(facts)).Ok?
    requires Splice.SpliceManagedBlock(MARKERS, file, RenderManagedBlock(facts)).value.1 != Splice.Refreshed
    ensures var text := Splice.SpliceManagedBlock(MARKERS, file, RenderManagedBlock(facts)).value.0;
            Recorded(Splice.Scan(MARKERS, text, 0, None)) == Spelled(WholeBlock(facts))
  {
    hide MARKERS, ArePlaceable, WholeBlock, RenderManagedBlock, Splice.Scan, Splice.SpliceManagedBlock, Splice.Convert, HeadOf, EndingOf;
    hide Splice.IsEnding, IsTightLine, SpliceScan.WholeLines, Spelled, Join;
    var block, head, ending := RenderManagedBlock(facts), HeadOf(file), EndingOf(file);
    EndingIsEnding(file);
    SplicedText(file, block);
    HeadIsWhole(file);
    HeadIsQuiet(file, block);
    BlockTextIsItsLines(facts, ending);
    BlockIsTight(facts);
    var placed := Splice.Convert(Join(WholeBlock(facts)), ending);
    assert head + Splice.Convert(block, ending) + ending == head + placed;
    SpliceScan.ScanConcat(MARKERS, head, placed, 0, None);
    ScanCounts(WholeBlock(facts), ending, |head|);
  }

  lemma BlockIsTight(facts: seq<ContextFact>)
    requires ArePlaceable(facts)
    ensures forall line :: line in WholeBlock(facts) ==> IsTightLine(line)
  {
    BeginIsSentinel();
    EndIsSentinel();
    SentinelLines();
    HashIsPlain();
    hide ArePlaceable, AreSpliceable, InteriorLines, BEGIN_SENTINEL, END_SENTINEL, IsWhitespace, Find, IsPlainLine;
    InteriorIsTight(facts);
  }

  /** A block once added can be exported again exactly when nothing it prints spells a sentinel; else the file is refused. */
  lemma NextExportIsRefusedIffASentinelIsSpelled(file: Option<string>, facts: seq<ContextFact>)
    requires ArePlaceable(facts)
    requires Splice.SpliceManagedBlock(MARKERS, file, RenderManagedBlock(facts)).Ok?
    requires Splice.SpliceManagedBlock(MARKERS, file, RenderManagedBlock(facts)).value.1 != Splice.Refreshed
    ensures var text := Splice.SpliceManagedBlock(MARKERS, file, RenderManagedBlock(facts)).value.0;
            Splice.SpliceManagedBlock(MARKERS, Some(text), RenderManagedBlock(facts)) ==
            if AreSpliceable(facts) then Ok((text, Splice.Refreshed)) else Err(Splice.StraySentinel)
  {
    hide MARKERS, ArePlaceable, AreSpliceable, WholeBlock, RenderManagedBlock, Splice.Scan, Splice.SpliceManagedBlock, Spelled;
    var text := Splice.SpliceManagedBlock(MARKERS, file, RenderManagedBlock(facts)).value.0;
    if AreSpliceable(facts) {
      ExportingTwiceIsExportingOnce(facts, file);
    } else {
      ExportedFileRecords(file, facts);
      BlockSpells(facts);
      SpliceProofs.SpliceOutcomes(MARKERS, text, RenderManagedBlock(facts));
    }
  }

  /** Whenever the facts now exported take fewer lines than those the file was exported with, some file takes two exports. */
  lemma OneExportMayNotSettle(before: seq<ContextFact>, facts: seq<ContextFact>) returns (text: string)
    requires AreSpliceable(before) && AreSpliceable(facts)
    requires Splice.CountLf(RenderManagedBlock(facts)) < Splice.CountLf(RenderManagedBlock(before))
    ensures RenderManagedBlock(before) <= text
    ensures var first := Splice.SpliceManagedBlock(MARKERS, Some(text), RenderManagedBlock(facts));
            && first.Ok? && first.value.1 == Splice.Refreshed
            && var second := Splice.SpliceManagedBlock(MARKERS, Some(first.value.0), RenderManagedBlock(facts));
               second.Ok? && second.value.1 == Splice.Refreshed && second.value.0 != first.value.0
  {
    hide AreSpliceable, RenderManagedBlock, MARKERS, Splice.SpliceManagedBlock, Splice.CountLf, SpliceProofs.BlockOf, InteriorLines;
    hide Splice.Markers.WellChosen;
    RenderedBlockIsABlock(before);
    RenderedBlockIsABlock(facts);
    text := SpliceProofs.OneRefreshMayNotSettle(
      MARKERS, RenderManagedBlock(before), Join(InteriorLines(before)), RenderManagedBlock(facts), Join(InteriorLines(facts)));
  }

  // ---- Facts that are lost ------------------------------------------------------------

  function PlainFact(value: FactValue, source: string): ContextFact
  {
    ContextFact("fact:0", "repo", "x", "status", value, High, Some(source), false, 0, "00")
  }

  lemma ShortNames()
    ensures '<' !in "repo:x" && '/' !in "repo:x" && IsOneLine("repo:x") && "repo" + ":" + "x" == "repo:x"
    ensures '<' !in "fact:0" && '/' !in "fact:0" && IsOneLine("fact:0") && IsHash("00")
  {
  }

  /** Nothing but its value and its source can be wrong with it. */
  lemma PlainFactIsFine(value: FactValue, source: string)
    requires value.Text?
    ensures var fact := PlainFact(value, source);
            && IsNameable(fact) && HoldsNoSentinel(fact.Subject()) && IsQuietSubject(fact.Subject())
            && HoldsNoSentinel(fact.factId) && Find(fact.factId, RECEIPT_COMMENT_PREFIX) == None
            && SourceText(fact) == source
  {
    ShortNames();
    assert PlainFact(value, source).Subject() == "repo:x" && SourceText(PlainFact(value, source)) == source;
    hide Find, HoldsNoSentinel, RECEIPT_COMMENT_PREFIX, IsOneLine, IsHash, IsCompact, IsQuietSubject, SourceText, ContextFact.Subject;
    NameIsClean("repo:x");
    NameIsClean("fact:0");
    SlashlessIsQuiet("repo:x");
  }

  lemma SlashlessIsQuiet(subject: string)
    requires '/' !in subject && IsOneLine(subject) && HoldsNoSentinel(subject)
    ensures IsQuietSubject(subject)
  {
    var h := "### " + subject;
    assert '/' !in "### ";
    HeadingShape(subject);
    NoSlashNoScheme(h);
    WithoutSchemeNotAFact(h);
    hide ParseReceiptLine, Find, IsTightLine;
  }

  lemma NameIsClean(name: string)
    requires '<' !in name
    ensures HoldsNoSentinel(name) && Find(name, RECEIPT_COMMENT_PREFIX) == None
  {
    BeginIsSentinel();
    EndIsSentinel();
    PrefixShape();
    assert BEGIN_SENTINEL[0] in BEGIN_SENTINEL && END_SENTINEL[0] in END_SENTINEL && RECEIPT_COMMENT_PREFIX[2] in RECEIPT_COMMENT_PREFIX;
    hide BEGIN_SENTINEL, END_SENTINEL, RECEIPT_COMMENT_PREFIX, Find, IsSentinel, IsSeamSafe;
    NoneWithoutAngle(name, BEGIN_SENTINEL);
    NoneWithoutAngle(name, END_SENTINEL);
    NoneWithoutAngle(name, RECEIPT_COMMENT_PREFIX);
  }

  lemma WordsAndNot()
    ensures IsReadableSource("human") && !IsReadableSource("a b")
  {
    assert IsPrintable("human") && "human"[|"human"| - 3..] == "man";
    PrintableIsWord("human");
    SpaceIsWhitespace();
    hide IsWhitespace;
    assert "a b"[1] == ' ';
  }

  /** A line that spells a sentinel is not read, so its fact is proposed nowhere. */
  lemma SpelledLineIsLost(fact: ContextFact)
    requires IsPlaceable(fact) && !fact.value.Redacted? && IsQuietSubject(fact.Subject())
    requires EncodeBlockValue(fact.value).Some? && !HoldsNoSentinel(FactLine(fact, EncodeBlockValue(fact.value).value))
    ensures ProposalsOf(OUTSIDE, 1, Lines(RenderManagedBlock([fact]))) == []
  {
    hide Lines, RenderManagedBlock, ProposalsOf, SkipsOf, ModeThrough, FactLine, EncodeBlockValue, HoldsNoSentinel, IsQuietSubject;
    hide BEGIN_SENTINEL, END_SENTINEL, Find, IsPlaceable, ContextFact.Subject, Summary, IsPlainLine, InteriorLines;
    var line, heading := FactLine(fact, EncodeBlockValue(fact.value).value), ["", "### " + fact.Subject(), ""];
    LinesOfBlock([fact]);
    OneFactLines(fact);
    SentinelLines();
    SentinelsAreSpelled();
    SentinelLineRuns(OUTSIDE, 1, BEGIN_SENTINEL);
    SummaryIsPlain(1);
    QuietLineRuns(2, Summary(1));
    HeadingRuns(fact.Subject(), 3);
    SentinelLineRuns(INSIDE, 6, line);
    var mode := ModeThrough(INSIDE, [line]);
    EmptyLineRuns(mode, 7);
    SentinelLineRuns(mode, 8, END_SENTINEL);
    ProposalsCompose(mode, 7, [""], [END_SENTINEL]);
    ProposalsCompose(INSIDE, 6, [line], [""] + [END_SENTINEL]);
    ProposalsCompose(INSIDE, 3, heading, [line] + ([""] + [END_SENTINEL]));
    ProposalsCompose(INSIDE, 2, [Summary(1)], heading + ([line] + ([""] + [END_SENTINEL])));
    ProposalsCompose(OUTSIDE, 1, [BEGIN_SENTINEL], [Summary(1)] + (heading + ([line] + ([""] + [END_SENTINEL]))));
  }

  lemma SentinelsAreSpelled()
    ensures !HoldsNoSentinel(BEGIN_SENTINEL) && !HoldsNoSentinel(END_SENTINEL)
  {
    SentinelLines();
    hide BEGIN_SENTINEL, END_SENTINEL, Find;
  }

  lemma OneFactLines(fact: ContextFact)
    requires !fact.value.Redacted? && EncodeBlockValue(fact.value).Some?
    ensures var heading, line := ["", "### " + fact.Subject(), ""], FactLine(fact, EncodeBlockValue(fact.value).value);
            [BEGIN_SENTINEL] + InteriorLines([fact]) + [END_SENTINEL] ==
            [BEGIN_SENTINEL] + ([Summary(1)] + (heading + ([line] + ([""] + [END_SENTINEL]))))
  {
    hide FactLine, EncodeBlockValue, ContextFact.Subject, Summary, NothingYet, BEGIN_SENTINEL, END_SENTINEL;
    var none: seq<ContextFact> := [];
    assert [fact][1..] == none;
    assert CountEmitted(none) == 0 && CountEmitted([fact]) == 1;
    assert BodyLines(none, Some(fact.Subject())) == [];
  }

  /** A fact whose value is the END sentinel: import finds nothing, and the file it was exported to refuses the next export. */
  lemma EndSentinelValueIsLost()
    ensures var facts := [PlainFact(FactValue.Text(END_SENTINEL), "human")];
            var block := RenderManagedBlock(facts);
            && AreNameable(facts) && WrittenAt(facts, None, 3) != [] && ProposalsOf(OUTSIDE, 1, Lines(block)) == []
            && Splice.SpliceManagedBlock(MARKERS, None, block) == Ok((block + "\n", Splice.Created))
            && Splice.SpliceManagedBlock(MARKERS, Some(block + "\n"), block) == Err(Splice.StraySentinel)
  {
    hide IsNameable, IsReadableSource, SourceText, Lines, RenderManagedBlock, ProposalsOf, WrittenAt, Find, PlainFact, MARKERS, FactLine;
    hide BEGIN_SENTINEL, END_SENTINEL, Splice.Scan, Splice.DominantLineEnding, Splice.Convert, HoldsNoSentinel, IsQuietSubject;
    var value := FactValue.Text(END_SENTINEL);
    var fact := PlainFact(value, "human");
    PlainFactIsFine(value, "human");
    PlainValue(value, "human");
    WordsAndNot();
    ReadableIsPlain("human");
    SentinelsAreSpelled();
    PlaceableSpells(fact);
    SpelledLineIsLost(fact);
    SomeEmittedSomeWritten([fact], None, 3);
    assert fact in [fact] && !IsSpliceable(fact);
    NextExportIsRefusedIffASentinelIsSpelled(None, [fact]);
  }

  lemma PlainValue(value: FactValue, source: string)
    ensures PlainFact(value, source).value == value
  {
  }

  /** A fact of a source of two words is proposed nowhere, whatever its value: import reads the first word. */
  lemma TwoWordSourceIsLost(value: FactValue)
    requires !value.Redacted?
    ensures var fact := PlainFact(value, "a b");
            var found := ProposalsOf(OUTSIDE, 1, Lines(RenderManagedBlock([fact])));
            && WrittenAt([fact], None, 3) == [(6, FromBlock(Expected(fact)))]
            && forall i :: 0 <= i < |found| ==> found[i].1 != FromBlock(Expected(fact))
  {
    hide IsReadableSource, SourceText, Lines, RenderManagedBlock, ProposalsOf, Expected, PlainFact;
    var fact := PlainFact(value, "a b");
    PlainValue(value, "a b");
    assert SourceText(fact) == "a b" by { PlainSource(value, "a b"); }
    WordsAndNot();
    var found := ProposalsOf(OUTSIDE, 1, Lines(RenderManagedBlock([fact])));
    forall i: nat | i < |found| ensures found[i].1 != FromBlock(Expected(fact))
    {
      UnreadableSourceIsNowhere(fact, OUTSIDE, 1, Lines(RenderManagedBlock([fact])), i);
    }
  }

  lemma PlainSource(value: FactValue, source: string)
    ensures SourceText(PlainFact(value, source)) == source
  {
  }

  // ---- An id of more than one line ----------------------------------------------------

  lemma IdWords(front: string) returns (first: string, later: string)
    requires '=' !in front
    ensures SplitWhitespace(" fact=" + front) == [first] + SplitWhitespace(later)
    ensures first != "" && first[0] == 'f' && '=' !in later
  {
    SpaceIsWhitespace();
    FactStartsAWord(front);
    hide IsWhitespace, SplitWhitespace, WordLength;
    var region := "fact=" + front;
    assert (" fact=" + front)[1..] == region && (" fact=" + front)[0] == ' ';
    SplitStep(" fact=" + front);
    SplitStep(region);
    var n := WordLength(region);
    first, later := region[..n], region[n..];
    assert forall i :: 0 <= i < |later| ==> later[i] == front[i + n - 5];
  }

  /** Only the first word has an equals sign, and that is no hint. */
  lemma NoHintsInAnId(front: string)
    requires '=' !in front
    ensures ParseMetaHints(" fact=" + front) == Hints(None, None)
  {
    hide SplitWhitespace, HintOf;
    var none := Hints(None, None);
    var first, later := IdWords(front);
    SplitAddsNothing(later, '=');
    OtherWordNoHint(first, none);
    NoEqualsNoHints(SplitWhitespace(later), none);
    assert ([first] + SplitWhitespace(later))[1..] == SplitWhitespace(later);
  }

  lemma FactStartsAWord(front: string)
    ensures WordLength("fact=" + front) >= 5 && ("fact=" + front)[0] == 'f'
  {
    var s := "fact=" + front;
    assert s[0] == 'f' && s[1] == 'a' && s[2] == 'c' && s[3] == 't' && s[4] == '=';
    assert !IsWhitespace('f') && !IsWhitespace('a') && !IsWhitespace('c') && !IsWhitespace('t') && !IsWhitespace('=');
    hide IsWhitespace;
    var n := WordLength(s);
    assert n < |s| ==> IsWhitespace(s[n]);
  }

  /** The line of such a fact, at its line feed. */
  lemma CutFactLine(fact: ContextFact, encoded: string, front: string, rest: string)
    requires fact.factId == front + "\n" + rest
    ensures FactLine(fact, encoded) + "\n" ==
            CutLine(fact, encoded, front) + "\n" + (rest + (Middle(fact) + (SourceText(fact) + " -->" + FactMarkers(fact))) + "\n")
  {
    FactLineParts(fact, encoded);
    TrailerText(fact);
    hide FactLine, Trailer, RECEIPT_COMMENT_PREFIX, ContextFact.Uri, Middle, SourceText, FactMarkers;
    CutAt(fact.factId, front, rest, Middle(fact) + (SourceText(fact) + " -->" + FactMarkers(fact)), RECEIPT_COMMENT_PREFIX, " fact=",
          "- `" + fact.Uri() + "` = " + encoded);
  }

  lemma CutAt(id: string, front: string, rest: string, later: string, prefix: string, mark: string, head: string)
    requires id == front + "\n" + rest
    ensures head + (prefix + mark + (id + later)) + "\n" == head + (prefix + (mark + front)) + "\n" + (rest + later + "\n")
  {
  }

  /**
   An id with a line feed in it ends the line before the receipt has said authority and source: import recovers the
   fact without either. An id is minted from the names of its fact, so a line feed in one of them is enough.
   */
  lemma LineFeedInTheIdCutsTheReceipt(fact: ContextFact, front: string, rest: string)
    requires IsStored(fact) && !fact.value.Redacted? && fact.factId == front + "\n" + rest
    requires IsOneLine(front) && '=' !in front && Find(front, RECEIPT_COMMENT_PREFIX) == None
    ensures EncodeBlockValue(fact.value).Some?
    ensures var lines := Lines(FactLine(fact, EncodeBlockValue(fact.value).value) + "\n");
            && lines != []
            && ParseReceiptLine(lines[0]) == Recovered(Receipt(fact.kind, fact.key, fact.pred, ValueText(fact.value), None, None))
  {
    OnlyRedactedIsSkipped(fact.value);
    hide Lines, FactLine, ParseReceiptLine, IsStored, EncodeBlockValue, CutLine, IsOneLine, Find, RECEIPT_COMMENT_PREFIX;
    CutLineIsOneLine(fact, front);
    CutLineIsFirst(fact, EncodeBlockValue(fact.value).value, front, rest);
    CutLineIsRead(fact, front);
  }

  function CutLine(fact: ContextFact, encoded: string, front: string): string
  {
    "- `" + fact.Uri() + "` = " + encoded + (RECEIPT_COMMENT_PREFIX + (" fact=" + front))
  }

  lemma CutLineIsFirst(fact: ContextFact, encoded: string, front: string, rest: string)
    requires fact.factId == front + "\n" + rest && IsOneLine(CutLine(fact, encoded, front))
    ensures var lines := Lines(FactLine(fact, encoded) + "\n"); lines != [] && lines[0] == CutLine(fact, encoded, front)
  {
    hide Lines, FactLine, ContextFact.Uri, RECEIPT_COMMENT_PREFIX, Middle, SourceText, FactMarkers, IsOneLine;
    CutFactLine(fact, encoded, front, rest);
    FirstOfTwoLines(CutLine(fact, encoded, front), rest + (Middle(fact) + (SourceText(fact) + " -->" + FactMarkers(fact))) + "\n");
  }

  lemma CutLineIsRead(fact: ContextFact, front: string)
    requires IsStored(fact) && !fact.value.Redacted? && EncodeBlockValue(fact.value).Some?
    requires '=' !in front && Find(front, RECEIPT_COMMENT_PREFIX) == None
    ensures ParseReceiptLine(CutLine(fact, EncodeBlockValue(fact.value).value, front))
         == Recovered(Receipt(fact.kind, fact.key, fact.pred, ValueText(fact.value), None, None))
  {
    ValueReadsBack(fact);
    hide ContextFact.Uri, RECEIPT_COMMENT_PREFIX, Find, ParseReceiptLine, IsWhitespace, EncodeBlockValue, ValueText, IsHash;
    hide IsCompact, DecodeBlockValue, ReadRegion, ParseMetaHints, FindLast;
    var encoded, meta := EncodeBlockValue(fact.value).value, " fact=" + front;
    CutLineReads(fact, encoded, RECEIPT_COMMENT_PREFIX + meta);
    NoHintsInAnId(front);
    CutCommentIsLast(encoded, front);
    RegionReads(ResourceUri.Parsed(fact.kind, fact.key, fact.pred), encoded, meta, ValueText(fact.value), Hints(None, None));
  }

  lemma CutLineIsOneLine(fact: ContextFact, front: string)
    requires IsStored(fact) && !fact.value.Redacted? && EncodeBlockValue(fact.value).Some? && IsOneLine(front)
    ensures IsOneLine(CutLine(fact, EncodeBlockValue(fact.value).value, front))
  {
    EncodedHasNoLineEnding(fact);
    UriIsOneLine(fact);
    CommentIsOneLine(front);
    hide ContextFact.Uri, RECEIPT_COMMENT_PREFIX, EncodeBlockValue, IsHash, IsCompact;
    var encoded, head := EncodeBlockValue(fact.value).value, "- `" + fact.Uri() + "` = ";
    assert IsOneLine(encoded);
    hide IsOneLine;
    OneLineConcat(head, encoded);
    OneLineConcat(head + encoded, RECEIPT_COMMENT_PREFIX + (" fact=" + front));
  }

  lemma CommentIsOneLine(front: string)
    requires IsOneLine(front)
    ensures IsOneLine(RECEIPT_COMMENT_PREFIX + (" fact=" + front))
  {
    PrefixShape();
    assert IsOneLine(" fact=");
    hide RECEIPT_COMMENT_PREFIX, IsSeamSafe, IsOneLine;
    OneLineConcat(" fact=", front);
    OneLineConcat(RECEIPT_COMMENT_PREFIX, " fact=" + front);
  }

  lemma FirstOfTwoLines(line: string, later: string)
    requires IsOneLine(line)
    ensures Lines(line + "\n" + later) != [] && Lines(line + "\n" + later)[0] == line
  {
    hide Lines;
    FirstLine(line, later);
    NoCrToStrip(line);
  }

  lemma CutLineReads(fact: ContextFact, encoded: string, comment: string)
    requires IsStored(fact) && encoded != "" && !IsWhitespace(encoded[0])
    ensures ParseReceiptLine("- `" + fact.Uri() + "` = " + encoded + comment)
         == ReadRegion(ResourceUri.Parsed(fact.kind, fact.key, fact.pred), encoded + comment)
  {
    hide TokenLength, IsWhitespace, ContextFact.Uri, ResourceUri.ParseResourceUri, ParseReceiptLine, ResourceUri.SCHEME, Find, ReadRegion;
    hide IsHash, IsCompact;
    var region := encoded + comment;
    MarkerIsThird(fact, "` = " + region);
    UriIsTheToken(fact, "` = " + region);
    UriReadsBack(fact);
    AfterTheTick(fact.Uri() + ("` = " + region));
    assert "- `" + fact.Uri() + "` = " + encoded + comment == "- `" + (fact.Uri() + ("` = " + region));
    ReadsByParts("- `" + (fact.Uri() + ("` = " + region)), fact.Uri(), region, ResourceUri.Parsed(fact.kind, fact.key, fact.pred));
  }

  lemma CutCommentIsLast(encoded: string, front: string)
    requires Find(front, RECEIPT_COMMENT_PREFIX) == None
    ensures FindLast(encoded + (RECEIPT_COMMENT_PREFIX + (" fact=" + front)), RECEIPT_COMMENT_PREFIX) == Some(|encoded|)
  {
    PrefixShape();
    hide RECEIPT_COMMENT_PREFIX, HasAt, Find, IsSeamSafe, IsOneLine;
    var prefix := RECEIPT_COMMENT_PREFIX;
    var comment := prefix + (" fact=" + front);
    assert comment == prefix + " fact=" + front;
    SpliceScan.AtFront(prefix, " fact=" + front);
    SpliceScan.BehindFront(encoded, comment, prefix, |encoded|);
    forall i: nat | |encoded| < i ensures !HasAt(encoded + comment, i, prefix)
    {
      OnceInFront(prefix, front, i - |encoded|);
      SpliceScan.BehindFront(encoded, comment, prefix, i);
    }
  }
}
