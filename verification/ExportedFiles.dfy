/** From facts to a file and back: what export leaves in a native memory file, import reads as the same facts. */
module ExportedFiles {
  import opened Wrappers
  import opened Text
  import opened ManagedBlock
  import opened BlockLines
  import opened RoundTrip
  import opened BlockImport
  import Splice
  import SpliceScan
  import SpliceProofs

  /** A break at a line end is a break between lines. */
  lemma {:induction false} LinesOfWhole(head: string, tail: string)
    requires SpliceScan.WholeLines(head)
    ensures Lines(head + tail) == Lines(head) + Lines(tail)
    decreases |head|
  {
    hide Lines, StripCr, SpliceScan.WholeLines, Splice.FirstSegment;
    if head == "" {
      NoLines();
      assert head + tail == tail;
    } else {
      var x, below := SpliceProofs.FirstLineSplit(head);
      LinesOfWhole(below, tail);
      FirstLine(x, below);
      FirstLine(x, below + tail);
      assert head + tail == x + "\n" + (below + tail);
      assert [StripCr(x)] + Lines(below) + Lines(tail) == [StripCr(x)] + (Lines(below) + Lines(tail));
    }
  }

  lemma NoLines()
    ensures Lines("") == []
  {
  }

  /** With either line ending, the lines are the same. */
  lemma {:induction false} LinesOfConverted(lines: seq<string>, ending: string, rest: string)
    requires Splice.IsEnding(ending) && forall line :: line in lines ==> '\n' !in line && '\r' !in line
    ensures Lines(Splice.Convert(Join(lines), ending) + rest) == lines + Lines(rest)
    decreases |lines|
  {
    hide Lines, StripCr, Splice.Convert;
    if lines == [] {
      ConvertedNothing(ending);
      assert "" + rest == rest;
    } else {
      var line, below := lines[0], Join(lines[1..]);
      assert line in lines && Join(lines) == line + "\n" + below;
      hide Join;
      LinesOfConverted(lines[1..], ending, rest);
      SpliceProofs.ConvertLine(line, below, ending);
      var later := Splice.Convert(below, ending) + rest;
      assert line + ending + Splice.Convert(below, ending) + rest == line + ending + later;
      OneConvertedLine(line, ending, later);
      assert lines + Lines(rest) == [line] + (lines[1..] + Lines(rest));
    }
  }

  lemma ConvertedNothing(ending: string)
    ensures Splice.Convert(Join([]), ending) == ""
  {
  }

  lemma OneConvertedLine(line: string, ending: string, later: string)
    requires Splice.IsEnding(ending) && '\n' !in line && (line != "" ==> line[|line| - 1] != '\r')
    ensures Lines(line + ending + later) == [line] + Lines(later)
  {
    hide Lines, StripCr;
    NoLastCrToStrip(line);
    if ending == "\n" {
      FirstLine(line, later);
    } else {
      FirstLine(line + "\r", later);
      assert line + ending + later == line + "\r" + "\n" + later;
    }
  }

  lemma NoLastCrToStrip(line: string)
    requires line != "" ==> line[|line| - 1] != '\r'
    ensures StripCr(line) == line == StripCr(line + "\r")
  {
    assert (line + "\r")[..|line|] == line;
  }

  function WholeBlock(facts: seq<ContextFact>): seq<string>
  {
    [BEGIN_SENTINEL] + InteriorLines(facts) + [END_SENTINEL]
  }

  lemma ConvertedEnding(ending: string)
    ensures Splice.Convert("\n", ending) == ending
  {
    assert Splice.Convert("", ending) == "" && ending + "" == ending;
  }

  lemma JoinOfBlock(facts: seq<ContextFact>)
    ensures Join(WholeBlock(facts)) == BEGIN_SENTINEL + "\n" + Join(InteriorLines(facts)) + END_SENTINEL + "\n"
  {
    hide BEGIN_SENTINEL, END_SENTINEL, InteriorLines, Join;
    JoinConcat([BEGIN_SENTINEL], InteriorLines(facts));
    JoinConcat([BEGIN_SENTINEL] + InteriorLines(facts), [END_SENTINEL]);
    JoinOne(BEGIN_SENTINEL);
    JoinOne(END_SENTINEL);
    assert Join(WholeBlock(facts)) == BEGIN_SENTINEL + "\n" + Join(InteriorLines(facts)) + (END_SENTINEL + "\n");
  }

  // ---- A block anywhere in a file -----------------------------------------------------

  /** The whole lines at the front of a text. */
  function WholePart(s: string): (w: string)
    ensures w <= s && SpliceScan.WholeLines(w) && '\n' !in s[|w|..]
  {
    if s == "" || s[|s| - 1] == '\n' then s
    else
      var w := WholePart(s[..|s| - 1]);
      assert s[|w|..] == s[..|s| - 1][|w|..] + [s[|s| - 1]];
      w
  }

  lemma WholePartOfWhole(s: string)
    requires SpliceScan.WholeLines(s)
    ensures WholePart(s) == s
  {
  }

  /** Trailing carriage returns complete no needle. */
  lemma TrimmedHoldsNone(x: string, y: string, needle: string)
    requires needle != "" && needle[|needle| - 1] != '\r' && y <= x
    requires Find(Splice.TrimEndChar(x, '\r'), needle) == None
    ensures Find(y, needle) == None
  {
    hide Find;
    var t := Splice.TrimEndChar(x, '\r');
    hide Splice.TrimEndChar;
    forall i: nat ensures !HasAt(y, i, needle)
    {
      HasAtIff(y, i, needle);
      HasAtIff(t, i, needle);
      HasAtChar(y, i, needle, |needle| - 1);
      assert forall k :: |t| <= k < |y| ==> y[k] == x[k] == '\r';
      assert forall k :: 0 <= k < |t| && k < |y| ==> t[k] == y[k];
    }
  }

  /** The line END stands on, with whatever the file has behind it. */
  lemma EndLine(ended: bool, tail: string, ending: string) returns (line: string)
    requires Splice.IsEnding(ending)
    ensures Lines(END_SENTINEL + ((if ended then ending else "") + tail)) == [line] + Lines(SpliceProofs.Below(ended, tail))
    ensures Find(line, END_SENTINEL).Some?
    ensures Find(line, BEGIN_SENTINEL).Some? <==> Find(SpliceProofs.SameLine(ended, tail), BEGIN_SENTINEL).Some?
  {
    SentinelLines();
    SentinelsEnd();
    hide BEGIN_SENTINEL, END_SENTINEL, Find, Lines, Splice.LineOf;
    if ended {
      line := END_SENTINEL;
      OneConvertedLine(line, ending, tail);
      assert END_SENTINEL + (ending + tail) == END_SENTINEL + ending + tail;
    } else if tail == "" {
      line := END_SENTINEL;
      LastLine(line);
      NoLines();
      assert END_SENTINEL + ("" + tail) == END_SENTINEL;
    } else {
      line := EndLineGoesOn(tail);
      assert "" + tail == tail;
    }
  }

  lemma SentinelsEnd()
    ensures END_SENTINEL[|END_SENTINEL| - 1] == '>' && BEGIN_SENTINEL != "" && BEGIN_SENTINEL[|BEGIN_SENTINEL| - 1] == '>'
  {
    BeginIsSentinel();
    EndIsSentinel();
    hide BEGIN_SENTINEL, END_SENTINEL;
  }

  /** The first line of a text, and whether it is ended. */
  lemma FirstLineTaken(text: string) returns (x: string, ends: bool)
    requires text != ""
    ensures '\n' !in x && SpliceScan.RestOfLine(text) == Splice.TrimEndChar(x, '\r')
    ensures if ends then text == x + "\n" + SpliceScan.AfterLine(text) else text == x && SpliceScan.AfterLine(text) == ""
  {
    hide Splice.LineOf, Splice.TrimEndChar, Find;
    var k := Splice.FirstSegment(text);
    ends := text[k - 1] == '\n';
    x := if ends then text[..k - 1] else text;
    SpliceScan.LineWithEnding(x, "\n");
    if ends {
      assert text[..k] == x + "\n";
    } else {
      assert text == text[..k - 1] + [text[k - 1]] && text[..k] == text && text[k..] == "";
    }
  }

  lemma EndLineGoesOn(tail: string) returns (line: string)
    requires tail != ""
    ensures Lines(END_SENTINEL + tail) == [line] + Lines(SpliceScan.AfterLine(tail))
    ensures Find(line, END_SENTINEL).Some?
    ensures Find(line, BEGIN_SENTINEL).Some? <==> Find(SpliceScan.RestOfLine(tail), BEGIN_SENTINEL).Some?
  {
    SentinelLines();
    SentinelsEnd();
    hide BEGIN_SENTINEL, END_SENTINEL, Find, Lines, StripCr, Splice.TrimEndChar, SpliceScan.RestOfLine, SpliceScan.AfterLine;
    var x, ends := FirstLineTaken(tail);
    var y, below := if ends then StripCr(x) else x, SpliceScan.AfterLine(tail);
    line := END_SENTINEL + y;
    if ends {
      FirstLine(END_SENTINEL + x, below);
      assert END_SENTINEL + tail == END_SENTINEL + x + "\n" + below;
      StripAfterEnd(END_SENTINEL, x);
    } else {
      LastLine(line);
      NoLines();
    }
    SpliceScan.AtFront(END_SENTINEL, y);
    StripIsPrefix(x);
    if Find(SpliceScan.RestOfLine(tail), BEGIN_SENTINEL) == None {
      TrimmedHoldsNone(x, y, BEGIN_SENTINEL);
      BehindEndHoldsNone(y);
    } else {
      TrimmedIsStrippedPrefix(x);
      var trimmed := SpliceScan.RestOfLine(tail);
      assert y == trimmed + y[|trimmed|..];
      FoundInside(END_SENTINEL, trimmed, y[|trimmed|..], BEGIN_SENTINEL);
      assert END_SENTINEL + trimmed + y[|trimmed|..] == line;
    }
  }

  lemma TrimmedIsStrippedPrefix(x: string)
    ensures Splice.TrimEndChar(x, '\r') <= StripCr(x)
  {
  }

  lemma StripIsPrefix(x: string)
    ensures StripCr(x) <= x
  {
  }

  lemma StripAfterEnd(end: string, x: string)
    requires end != "" && end[|end| - 1] != '\r'
    ensures StripCr(end + x) == end + StripCr(x)
  {
    if x != "" { assert (end + x)[..|end + x| - 1] == end + x[..|x| - 1]; }
  }

  lemma BehindEndHoldsNone(y: string)
    requires Find(y, BEGIN_SENTINEL) == None
    ensures Find(END_SENTINEL + y, BEGIN_SENTINEL) == None
  {
    MarkersAreWellChosen();
    hide BEGIN_SENTINEL, END_SENTINEL, Find, Splice.Markers.WellChosen;
    forall i: nat ensures !HasAt(END_SENTINEL + y, i, BEGIN_SENTINEL)
    {
      SpliceScan.MarkersInTail(MARKERS, y, i);
    }
  }

  /** A spliced file, line by line. */
  lemma FormLines(head: string, facts: seq<ContextFact>, ended: bool, tail: string, ending: string) returns (bottom: string)
    requires ArePlaceable(facts) && Splice.IsEnding(ending)
    ensures var above := WholePart(head);
            Lines(SpliceProofs.Form(head, RenderManagedBlock(facts), ended, tail, ending)) ==
            Lines(above) + (Between(head[|above|..] + BEGIN_SENTINEL, facts, bottom) + Lines(SpliceProofs.Below(ended, tail)))
    ensures Find(bottom, END_SENTINEL).Some?
    ensures Find(bottom, BEGIN_SENTINEL).Some? <==> Find(SpliceProofs.SameLine(ended, tail), BEGIN_SENTINEL).Some?
  {
    InteriorIsOneLineEach(facts);
    hide ArePlaceable, Lines, RenderManagedBlock, Splice.Convert, BEGIN_SENTINEL, END_SENTINEL, InteriorLines, Find, Join;
    hide SpliceScan.WholeLines, WholePart, SpliceProofs.SameLine, SpliceProofs.Below, Splice.IsEnding;
    var above := WholePart(head);
    var top, interior := head[|above|..] + BEGIN_SENTINEL, InteriorLines(facts);
    var rest := END_SENTINEL + ((if ended then ending else "") + tail);
    bottom := EndLine(ended, tail, ending);
    ConvertedBlockText(facts, ending);
    var converted := Splice.Convert(Join(interior), ending);
    var text := SpliceProofs.Form(head, RenderManagedBlock(facts), ended, tail, ending);
    FormPieces(head, above, RenderManagedBlock(facts), ended, tail, ending, converted);
    LinesOfWhole(above, top + ending + (converted + rest));
    TopIsOneLine(head[|above|..]);
    OneConvertedLine(top, ending, converted + rest);
    LinesOfConverted(interior, ending, rest);
    Regroup(top, interior, bottom, Lines(SpliceProofs.Below(ended, tail)));
  }

  lemma InteriorIsOneLineEach(facts: seq<ContextFact>)
    requires ArePlaceable(facts)
    ensures forall line :: line in InteriorLines(facts) ==> '\n' !in line && '\r' !in line
  {
    InteriorIsTight(facts);
    hide ArePlaceable, AreSpliceable, IsTightLine, InteriorLines;
    forall line | line in InteriorLines(facts) ensures '\n' !in line && '\r' !in line { TightHasNoEnding(line); }
  }

  lemma TopIsOneLine(front: string)
    requires '\n' !in front
    ensures var top := front + BEGIN_SENTINEL; '\n' !in top && top[|top| - 1] != '\r'
  {
    SentinelLines();
    SentinelsEnd();
    hide BEGIN_SENTINEL, END_SENTINEL, Find;
  }

  lemma FormPieces(head: string, above: string, block: string, ended: bool, tail: string, ending: string, converted: string)
    requires above <= head
    requires Splice.Convert(block, ending) == BEGIN_SENTINEL + ending + converted + END_SENTINEL
    ensures SpliceProofs.Form(head, block, ended, tail, ending) ==
            above + ((head[|above|..] + BEGIN_SENTINEL) + ending + (converted + (END_SENTINEL + ((if ended then ending else "") + tail))))
  {
    hide BEGIN_SENTINEL, END_SENTINEL, Splice.Convert;
    assert head == above + head[|above|..];
  }

  lemma Regroup(top: string, interior: seq<string>, bottom: string, below: seq<string>)
    ensures [top] + (interior + ([bottom] + below)) == ([top] + interior + [bottom]) + below
  {
  }

  lemma ConvertedBlockText(facts: seq<ContextFact>, ending: string)
    requires Splice.IsEnding(ending)
    ensures Splice.Convert(RenderManagedBlock(facts), ending) ==
            BEGIN_SENTINEL + ending + Splice.Convert(Join(InteriorLines(facts)), ending) + END_SENTINEL
  {
    SentinelLines();
    hide RenderManagedBlock, Splice.Convert, BEGIN_SENTINEL, END_SENTINEL, InteriorLines, Join, Find;
    BlockIsItsLines(facts);
    var interior := Join(InteriorLines(facts));
    SpliceProofs.ConvertConcat(BEGIN_SENTINEL + "\n" + interior, END_SENTINEL, ending);
    SpliceProofs.ConvertLine(BEGIN_SENTINEL, interior, ending);
    SpliceProofs.ConvertNothing(END_SENTINEL, ending);
  }

  /** A block anywhere in a file, in either line ending, with what import reads above and below it. */
  lemma FormReadsIff(head: string, facts: seq<ContextFact>, ended: bool, tail: string, ending: string)
    requires AreExportable(facts) && Splice.IsEnding(ending)
    ensures var above, below := Lines(WholePart(head)), Lines(SpliceProofs.Below(ended, tail));
            var mode, m := ModeThrough(OUTSIDE, above), 1 + |above| + |WholeBlock(facts)|;
            var after := OUTSIDE.(managed := Find(SpliceProofs.SameLine(ended, tail), BEGIN_SENTINEL).Some?);
            ProposalsOf(OUTSIDE, 1, Lines(SpliceProofs.Form(head, RenderManagedBlock(facts), ended, tail, ending))) ==
              ProposalsOf(OUTSIDE, 1, above) + WrittenAt(facts, None, |above| + 3) + ProposalsOf(after, m, below)
            <==> IsOpenTo(mode, facts) && ReadsAlike(mode, below, m, after)
  {
    hide AreExportable, ArePlaceable, Lines, RenderManagedBlock, SpliceProofs.Form, ProposalsOf, ModeThrough, WrittenAt, IsOpenTo, ReadsAlike;
    hide BEGIN_SENTINEL, END_SENTINEL, InteriorLines, Find, WholePart, Splice.IsEnding, SpliceProofs.SameLine, SpliceProofs.Below;
    ExportableArePlaceable(facts);
    var bottom := FormLines(head, facts, ended, tail, ending);
    var w, below := WholePart(head), Lines(SpliceProofs.Below(ended, tail));
    var above, top := Lines(w), head[|w|..] + BEGIN_SENTINEL;
    EndsInMarker(head[|w|..]);
    BlockInAFileReadsIff(above, top, facts, bottom, below);
    assert above + (Between(top, facts, bottom) + below) == above + Between(top, facts, bottom) + below;
  }

  lemma EndsInMarker(front: string)
    ensures Find(front + BEGIN_SENTINEL, BEGIN_SENTINEL).Some?
  {
    hide BEGIN_SENTINEL, Find;
    SpliceScan.HasAtHere(front + BEGIN_SENTINEL, |front|, BEGIN_SENTINEL);
  }

  /**
   Export into a file without a block, then import it: whatever line endings the file uses, the importer
   proposes what it would have proposed before, followed by exactly the exported facts, if and only if it takes no
   fence above to be open (or none of `dent8`, and nothing was written).
   */
  lemma ExportedFileReadsBackIff(file: Option<string>, facts: seq<ContextFact>)
    requires AreExportable(facts)
    requires Splice.SpliceManagedBlock(MARKERS, file, RenderManagedBlock(facts)).Ok?
    requires Splice.SpliceManagedBlock(MARKERS, file, RenderManagedBlock(facts)).value.1 != Splice.Refreshed
    ensures var text := Splice.SpliceManagedBlock(MARKERS, file, RenderManagedBlock(facts)).value.0;
            var above := Lines(HeadOf(file));
            ProposalsOf(OUTSIDE, 1, Lines(text)) == ProposalsOf(OUTSIDE, 1, above) + WrittenAt(facts, None, |above| + 3)
            <==> IsOpenTo(ModeThrough(OUTSIDE, above), facts)
  {
    hide AreExportable, Lines, RenderManagedBlock, ProposalsOf, ModeThrough, WrittenAt, IsOpenTo, MARKERS, IsFenceFree, WholeBlock;
    hide Splice.SpliceManagedBlock, HeadOf, EndingOf, SpliceScan.WholeLines, Splice.IsEnding, SpliceProofs.Form, WholePart;
    hide BEGIN_SENTINEL, END_SENTINEL, Find, Splice.Convert;
    var block, ending, head := RenderManagedBlock(facts), EndingOf(file), HeadOf(file);
    var above := Lines(head);
    SplicedText(file, block);
    HeadIsWhole(file);
    EndingIsEnding(file);
    WholePartOfWhole(head);
    NothingBelow(1 + |above| + |WholeBlock(facts)|);
    FormReadsIff(head, facts, true, "", ending);
    SpliceProofs.FormOfAppend(head, block, ending);
    var read := ProposalsOf(OUTSIDE, 1, above) + WrittenAt(facts, None, |above| + 3);
    assert read + [] == read;
  }

  lemma NothingBelow(m: nat)
    ensures Lines("") == [] && forall mode: Mode :: ProposalsOf(mode, m, []) == []
  {
  }

  /**
   Export again into a file that has a block, then import it: what the lines above propose, each fact now exported
   from its own line, and what the lines below propose, if and only if the importer takes no fence above to be open
   (or none of `dent8`, nothing was written, and the lines below read the same inside a fence).
   */
  lemma RefreshedFileReadsBackIff(text: string, facts: seq<ContextFact>)
    returns (head: string, was: string, nl: string, tail: string)
    requires AreExportable(facts)
    requires Splice.SpliceManagedBlock(MARKERS, Some(text), RenderManagedBlock(facts)).Ok?
    requires Splice.SpliceManagedBlock(MARKERS, Some(text), RenderManagedBlock(facts)).value.1 == Splice.Refreshed
    ensures text == head + was + nl + tail && nl in {"", "\n", "\r\n"}
    ensures SpliceProofs.LiveAt(text, |head|, None, BEGIN_SENTINEL)
    ensures |was| >= |END_SENTINEL| && SpliceProofs.LiveAt(text, |head| + |was| - |END_SENTINEL|, None, END_SENTINEL)
    ensures var after := Splice.SpliceManagedBlock(MARKERS, Some(text), RenderManagedBlock(facts)).value.0;
            var above, below := Lines(WholePart(head)), Lines(SpliceProofs.Below(nl != "", tail));
            var mode, m := ModeThrough(OUTSIDE, above), 1 + |above| + |WholeBlock(facts)|;
            var modeBelow := OUTSIDE.(managed := SpliceProofs.BeginBehindEnd(MARKERS, text));
            ProposalsOf(OUTSIDE, 1, Lines(after)) ==
              ProposalsOf(OUTSIDE, 1, above) + WrittenAt(facts, None, |above| + 3) + ProposalsOf(modeBelow, m, below)
            <==> IsOpenTo(mode, facts) && ReadsAlike(mode, below, m, modeBelow)
  {
    MarkersAreWellChosen();
    hide AreExportable, Lines, RenderManagedBlock, ProposalsOf, ModeThrough, WrittenAt, IsOpenTo, ReadsAlike, IsFenceFree, BEGIN_SENTINEL;
    hide Splice.SpliceManagedBlock, Splice.IsEnding, WholeBlock, SpliceProofs.Form, WholePart, END_SENTINEL, Find, Splice.Scan;
    hide SpliceProofs.LiveAt, Splice.DominantLineEnding, SpliceScan.RestOfLine, SpliceScan.AfterLine, Splice.Markers.WellChosen;
    hide Splice.LeadingEnding;
    var block, ending := RenderManagedBlock(facts), Splice.DominantLineEnding(text);
    var b, e, rest, n := SpliceProofs.RefreshedForm(MARKERS, text, block);
    SpliceProofs.RefreshedParts(MARKERS, text, b, e, rest, n);
    head, was, nl, tail := text[..b], text[b..e + |END_SENTINEL|], rest[..n], rest[n..];
    SpliceProofs.SplitEnding(rest, n);
    SpliceProofs.DominantIsEnding(text);
    FormReadsIff(head, facts, n > 0, tail, ending);
  }

  function EndingOf(file: Option<string>): string
  {
    if file.None? then "\n" else Splice.DominantLineEnding(file.value)
  }

  /** What stands above an appended block: the file, closed off by a blank line. */
  function HeadOf(file: Option<string>): string
  {
    if file.None? || file.value == "" then "" else file.value + Splice.Separator(file.value, EndingOf(file))
  }

  lemma EndingIsEnding(file: Option<string>)
    ensures Splice.IsEnding(EndingOf(file))
  {
    if file.Some? { SpliceProofs.DominantIsEnding(file.value); }
  }

  lemma HeadIsWhole(file: Option<string>)
    ensures SpliceScan.WholeLines(HeadOf(file))
  {
    if file.Some? && file.value != "" {
      var existing, ending := file.value, EndingOf(file);
      EndingIsEnding(file);
      hide EndingOf;
      SpliceProofs.SeparatedIsWhole(existing, ending);
    }
  }

  lemma SplicedText(file: Option<string>, block: string)
    requires Splice.SpliceManagedBlock(MARKERS, file, block).Ok?
    requires Splice.SpliceManagedBlock(MARKERS, file, block).value.1 != Splice.Refreshed
    ensures Splice.SpliceManagedBlock(MARKERS, file, block).value.0
         == HeadOf(file) + Splice.Convert(block, EndingOf(file)) + EndingOf(file)
  {
    hide MARKERS, Splice.Scan, Splice.DominantLineEnding, Splice.Convert, Splice.Separator;
    SpliceProofs.ConvertNothing(block, "\n");
  }
}
