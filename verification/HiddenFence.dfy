/** Where export and import disagree on fences: the splice knows tilde fences and who may close whom, import knows neither. */
module HiddenFence {
  import opened Wrappers
  import opened Text
  import opened ManagedBlock
  import opened BlockLines
  import opened RoundTrip
  import opened BlockImport
  import opened ExportedFiles
  import ResourceUri
  import Splice
  import SpliceScan
  import SpliceProofs

  /** A tilde fence around backticks: closed for the splice, while import sees a fence opened and never closed. */
  const HIDDEN_FENCE := "~~~\n```\n~~~\n"

  lemma HiddenFenceIsThreeLines(rest: string)
    ensures HIDDEN_FENCE + rest == "~~~" + "\n" + ("```" + "\n" + ("~~~" + "\n" + rest))
    ensures |HIDDEN_FENCE| == 12 && HIDDEN_FENCE[10] == '~' && HIDDEN_FENCE[11] == '\n'
  {
  }

  lemma TooShortForASentinel(s: string)
    requires |s| < 6
    ensures HoldsNoSentinel(s)
  {
    NoSentinelWithout(s);
    hide HoldsNoSentinel;
  }

  lemma TildesAndBackticks()
    ensures HoldsNoSentinel("~~~") && HoldsNoSentinel("```") && OpensNoFence("~~~") && Trim("```") == "```"
    ensures '\n' !in "~~~" && '\n' !in "```" && '\r' !in "~~~" && '\r' !in "```"
  {
    hide HoldsNoSentinel, Trim;
    TooShortForASentinel("~~~");
    TooShortForASentinel("```");
    TrimOfTight("```");
  }

  // ---- For the splice -----------------------------------------------------------------

  predicate IsThree(s: string, c: char) { |s| == 3 && s[0] == s[1] == s[2] == c }

  lemma RunOfThree(s: string, c: char)
    requires IsThree(s, c)
    ensures Splice.RunLength(s, c) == 3
  {
    var two, one := s[1..], s[2..];
    assert two[1..] == one && one[1..] == "";
    assert Splice.RunLength(one, c) == 1 && Splice.RunLength(two, c) == 2;
  }

  lemma BareFence(s: string, c: char)
    requires IsThree(s, c) && (c == '~' || c == '`')
    ensures TrimStart(s) == s && Splice.CodeFence(s) == Some(Splice.Fence(c, 3)) && Splice.LineOf(s) == s
    ensures IsBlank(s[3..]) && '\n' !in s && '\r' !in s
  {
    RunOfThree(s, c);
    hide Splice.RunLength;
  }

  lemma FenceLineScans(m: Splice.Markers, line: string, offset: nat, fence: Option<Splice.Fence>)
    requires Splice.CodeFence(TrimStart(line)).Some?
    ensures Splice.ScanLine(m, line, offset, fence) == Splice.ManagedBlockScan([], [], Splice.FenceAfter(fence, line))
  {
    hide Splice.FenceAfter, Splice.CodeFence, TrimStart;
  }

  lemma FenceLineThenRest(m: Splice.Markers, line: string, c: char, rest: string, offset: nat, fence: Option<Splice.Fence>)
    requires IsThree(line, c) && |line| == 3 && (c == '~' || c == '`')
    ensures Splice.Scan(m, line + "\n" + rest, offset, fence) == Splice.Scan(m, rest, offset + 4, Splice.FenceAfter(fence, line))
  {
    BareFence(line, c);
    hide *;
    FenceLineScans(m, line, offset, fence);
    LfIsEnding();
    SpliceScan.ScanFirstLine(m, line, "\n", rest, offset, fence);
    NothingBefore(Splice.FenceAfter(fence, line), Splice.Scan(m, rest, offset + 4, Splice.FenceAfter(fence, line)));
  }

  lemma LfIsEnding()
    ensures Splice.IsEnding("\n") && |"\n"| == 1
  {
  }

  lemma NothingBefore(fence: Option<Splice.Fence>, later: Splice.ManagedBlockScan)
    ensures Splice.ManagedBlockScan([], [], fence).Before(later) == later
  {
  }

  lemma FenceStates(a: string, b: string)
    requires IsThree(a, '~') && IsThree(b, '`')
    ensures var tildes := Some(Splice.Fence('~', 3));
            && Splice.FenceAfter(None, a) == tildes && Splice.FenceAfter(tildes, b) == tildes && Splice.FenceAfter(tildes, a) == None
  {
    BareFence(a, '~');
    BareFence(b, '`');
    hide TrimStart, Splice.CodeFence, IsBlank;
  }

  /** The third line closes the fence of the first; the second is of the other kind, and does neither. */
  lemma FenceClosed(m: Splice.Markers, a: string, b: string, third: string, second: string)
    requires IsThree(a, '~') && IsThree(b, '`') && |a| == |b| == 3 && third == a + "\n" + "" && second == b + "\n" + third
    ensures Splice.Scan(m, a + "\n" + second, 0, None) == Splice.ManagedBlockScan([], [], None)
  {
    hide *;
    FenceStates(a, b);
    var tildes := Some(Splice.Fence('~', 3));
    assert Splice.Scan(m, a + "\n" + second, 0, None) == Splice.Scan(m, second, 4, tildes) by {
      FenceLineThenRest(m, a, '~', second, 0, None);
    }
    assert Splice.Scan(m, second, 4, tildes) == Splice.Scan(m, third, 8, tildes) by {
      FenceLineThenRest(m, b, '`', third, 4, tildes);
    }
    FenceLineThenRest(m, a, '~', "", 8, tildes);
    SpliceScan.ScanNothing(m, 12, None);
  }

  lemma SpliceSeesNoFence()
    ensures Splice.Scan(MARKERS, HIDDEN_FENCE, 0, None) == Splice.ManagedBlockScan([], [], None)
  {
    HiddenFenceIsThreeLines("");
    assert IsThree("~~~", '~') && IsThree("```", '`');
    FenceClosed(MARKERS, "~~~", "```", "~~~" + "\n" + "", "```" + "\n" + ("~~~" + "\n" + ""));
    hide HIDDEN_FENCE, MARKERS, Splice.Scan;
    assert HIDDEN_FENCE + "" == HIDDEN_FENCE;
  }

  lemma HeadOfHiddenFence()
    ensures EndingOf(Some(HIDDEN_FENCE)) == "\n" && HeadOf(Some(HIDDEN_FENCE)) == HIDDEN_FENCE + "\n"
  {
    HiddenFenceIsThreeLines("");
    TildesAndBackticks();
    hide HIDDEN_FENCE, Splice.CountCrlf, Splice.CountLf, HoldsNoSentinel, Trim;
    assert HIDDEN_FENCE + "" == HIDDEN_FENCE && '\r' !in HIDDEN_FENCE;
    SpliceProofs.ConvertedCounts(HIDDEN_FENCE);
    assert HIDDEN_FENCE[10..][0] == '~';
  }

  // ---- For import ---------------------------------------------------------------------

  lemma FourLines(a: string, b: string)
    requires '\n' !in a && '\r' !in a && '\n' !in b && '\r' !in b
    ensures Lines(a + "\n" + (b + "\n" + (a + "\n" + "\n"))) == [a, b, a, ""]
  {
    hide Lines, StripCr;
    FirstLine(a, b + "\n" + (a + "\n" + "\n"));
    FirstLine(b, a + "\n" + "\n");
    FirstLine(a, "\n");
    FirstLine("", "");
    NoCrToStrip(a);
    NoCrToStrip(b);
    NoCrToStrip("");
    assert "" + "\n" + "" == "\n";
    NoLines();
  }

  lemma HiddenFenceLines()
    ensures Lines(HIDDEN_FENCE + "\n") == ["~~~", "```", "~~~", ""]
  {
    TildesAndBackticks();
    HiddenFenceIsThreeLines("\n");
    hide *;
    FourLines("~~~", "```");
  }

  /** Import is left inside a fence. */
  lemma ImportSeesAFence()
    ensures var above := Lines(HeadOf(Some(HIDDEN_FENCE)));
            ModeThrough(OUTSIDE, above) == Mode(false, false, true) && ProposalsOf(OUTSIDE, 1, above) == []
  {
    HeadOfHiddenFence();
    HiddenFenceLines();
    hide Lines, HIDDEN_FENCE, ModeAfter, YieldOf, ModeThrough, ProposalsOf, HeadOf;
    var fenced := Mode(false, false, true);
    BackticksOpen();
    TildesAreProse(OUTSIDE);
    TildesAreProse(fenced);
    EmptyLineRuns(fenced, 4);
    OneLineRuns(OUTSIDE, 1, "~~~");
    OneLineRuns(OUTSIDE, 2, "```");
    OneLineRuns(fenced, 3, "~~~");
    ProposalsCompose(OUTSIDE, 1, ["~~~"], ["```"]);
    ProposalsCompose(OUTSIDE, 1, ["~~~"] + ["```"], ["~~~"]);
    ProposalsCompose(OUTSIDE, 1, ["~~~"] + ["```"] + ["~~~"], [""]);
    assert ["~~~"] + ["```"] + ["~~~"] + [""] == ["~~~", "```", "~~~", ""];
  }

  lemma BackticksOpen()
    ensures ModeAfter(OUTSIDE, "```") == Mode(false, false, true) && YieldOf(OUTSIDE, "```") == Nothing
  {
    TildesAndBackticks();
    RunOfThree("```", '`');
    assert Splice.AfterRun("```", '`') == "" && Trim("") == "";
    hide BEGIN_SENTINEL, END_SENTINEL, Find, Trim, Splice.AfterRun;
  }

  lemma TildesAreProse(mode: Mode)
    requires mode == OUTSIDE || mode == Mode(false, false, true)
    ensures ModeAfter(mode, "~~~") == mode && !YieldOf(mode, "~~~").Proposes?
  {
    TildesAndBackticks();
    TildesHoldNoScheme();
    hide HoldsNoSentinel, OpensNoFence, ModeAfter, YieldOf, ParseReceiptLine, Find, ResourceUri.SCHEME, Trim;
    WithoutSchemeNotAFact("~~~");
    if IsFenceFree(mode) { LineIsRead(mode, "~~~"); } else { TildesInAFence(mode); }
  }

  lemma TildesInAFence(mode: Mode)
    requires !IsFenceFree(mode) && !mode.dent8Fence && HoldsNoSentinel("~~~") && OpensNoFence("~~~")
    ensures ModeAfter(mode, "~~~") == mode && YieldOf(mode, "~~~") == Nothing
  {
    hide BEGIN_SENTINEL, END_SENTINEL, Find, Trim, HasPrefix, OpensNoFence, ParseReceiptLine;
    OpensNone("~~~");
  }

  lemma TildesHoldNoScheme()
    ensures Find("~~~", ResourceUri.SCHEME) == None
  {
    assert '/' !in "~~~";
    NoSlashNoScheme("~~~");
  }

  /**
   Exported into such a file, the block is appended, and import reads not one fact of it. So it is not what
   `ExportedFileReadsBackIff` asks for, whatever the facts, as long as there are any.
   */
  lemma ExportBehindAHiddenFenceIsLost(facts: seq<ContextFact>)
    requires AreExportable(facts) && CountEmitted(facts) != 0
    ensures var spliced := Splice.SpliceManagedBlock(MARKERS, Some(HIDDEN_FENCE), RenderManagedBlock(facts));
            && spliced.Ok? && spliced.value.1 == Splice.Appended
            && ProposalsOf(OUTSIDE, 1, Lines(spliced.value.0)) == []
            && WrittenAt(facts, None, 7) != []
  {
    SpliceSeesNoFence();
    HeadOfHiddenFence();
    HiddenFenceLines();
    ImportSeesAFence();
    HiddenFenceIsThreeLines("");
    SomeEmittedSomeWritten(facts, None, 7);
    hide AreExportable, Lines, RenderManagedBlock, ProposalsOf, ModeThrough, WrittenAt, CountEmitted, HIDDEN_FENCE, MARKERS, HeadOf, EndingOf;
    var block := RenderManagedBlock(facts);
    HiddenFenceIsAppendedTo(block);
    SplicedText(Some(HIDDEN_FENCE), block);
    BehindAnOpenFence(HIDDEN_FENCE + "\n", facts);
  }

  lemma HiddenFenceIsAppendedTo(block: string)
    requires Splice.Scan(MARKERS, HIDDEN_FENCE, 0, None) == Splice.ManagedBlockScan([], [], None)
    ensures var spliced := Splice.SpliceManagedBlock(MARKERS, Some(HIDDEN_FENCE), block);
            spliced.Ok? && spliced.value.1 == Splice.Appended
  {
    HiddenFenceIsThreeLines("");
    hide HIDDEN_FENCE, MARKERS, Splice.Scan, Splice.Convert, Splice.DominantLineEnding;
  }

  lemma BehindAnOpenFence(head: string, facts: seq<ContextFact>)
    requires AreExportable(facts) && SpliceScan.WholeLines(head)
    requires ModeThrough(OUTSIDE, Lines(head)) == Mode(false, false, true) && ProposalsOf(OUTSIDE, 1, Lines(head)) == []
    ensures ProposalsOf(OUTSIDE, 1, Lines(head + Splice.Convert(RenderManagedBlock(facts), "\n") + "\n")) == []
  {
    hide AreExportable, ArePlaceable, Lines, RenderManagedBlock, ProposalsOf, ModeThrough, Splice.Convert, SpliceScan.WholeLines, WholePart;
    hide Between, Find, BEGIN_SENTINEL, END_SENTINEL, SpliceProofs.Form;
    ExportableArePlaceable(facts);
    WholePartOfWhole(head);
    var bottom := FormLines(head, facts, true, "", "\n");
    SpliceProofs.FormOfAppend(head, RenderManagedBlock(facts), "\n");
    NothingBelow(0);
    var top := head[|head|..] + BEGIN_SENTINEL;
    EndsInMarker(head[|head|..]);
    var above, block := Lines(head), Between(top, facts, bottom);
    FencedBetween(Mode(false, false, true), top, facts, bottom, 1 + |above|);
    ProposalsCompose(OUTSIDE, 1, above, block);
    assert above + (block + []) == above + block;
  }
}
