/**
 What splicing guarantees: the user's text survives, only live sentinels are replaced, and
 repeated export settles. One refresh may still flip the block's line endings once, because the old
 block's own newlines count towards the file's dominant ending; the next pass is a fixed point.
 */
module SpliceProofs {
  import opened Wrappers
  import opened Text
  import opened Splice
  import opened SpliceScan

  // ---- Only live sentinels are recorded -----------------------------------------------

  /** The fence state at the start of the line that holds position `p`, and that line. */
  function LineAt(text: string, p: nat, fence: Option<Fence>): (string, nat, Option<Fence>)
    requires p < |text|
    decreases |text|
  {
    var n := FirstSegment(text);
    var line := LineOf(text[..n]);
    if p < n then (line, 0, fence)
    else
      var (l, start, f) := LineAt(text[n..], p - n, FenceAfter(fence, line));
      (l, start + n, f)
  }

  /** `marker` stands at `p`, outside any fence, first of its kind on a line that is no fence line. */
  ghost predicate LiveAt(text: string, p: nat, fence: Option<Fence>, marker: string)
  {
    && HasAt(text, p, marker) && p < |text|
    && var (line, start, f) := LineAt(text, p, fence);
       f == None && !IsFenceLine(line) && start <= p && Find(line, marker) == Some(p - start)
  }

  /** A fence line, or a line inside a fence, leaves the fence state `FenceAfter` says; any other line leaves it open-free. */
  lemma ScanLineFence(m: Markers, line: string, offset: nat, fence: Option<Fence>)
    ensures ScanLine(m, line, offset, fence).fence == FenceAfter(fence, line)
  {
  }

  lemma LiveOnFirstLine(m: Markers, text: string, offset: nat, fence: Option<Fence>, p: nat, n: nat)
    requires m.WellChosen() && text != "" && n == FirstSegment(text) && p < n
    ensures var here := ScanLine(m, LineOf(text[..n]), offset, fence);
            && (offset + p in here.begins <==> LiveAt(text, p, fence, m.begin))
            && (offset + p in here.ends <==> LiveAt(text, p, fence, m.end))
  {
    hide IsFenceLine, FenceAfter, HasAt, LineOf, FirstSegment;
    var line := LineOf(text[..n]);
    LineOfPrefix(text[..n]);
    if Find(line, m.begin) == Some(p) { HasAtPrefix(line, text, p, m.begin); }
    if Find(line, m.end) == Some(p) { HasAtPrefix(line, text, p, m.end); }
  }

  /** The scan records exactly the live sentinels: none inside a code fence, none missed outside one. */
  lemma {:induction false} ScanRecordsExactlyTheLive(m: Markers, text: string, offset: nat, fence: Option<Fence>, p: nat)
    requires m.WellChosen()
    ensures offset + p in Scan(m, text, offset, fence).begins <==> LiveAt(text, p, fence, m.begin)
    ensures offset + p in Scan(m, text, offset, fence).ends <==> LiveAt(text, p, fence, m.end)
    decreases |text|
  {
    hide ScanLine, LineOf, HasAt, IsFenceLine, FenceAfter, Find;
    if text == "" {
      ScanNothing(m, offset, fence);
    } else {
      var n := FirstSegment(text);
      var here := ScanLine(m, LineOf(text[..n]), offset, fence);
      ScanStep(m, text, n, offset, fence, here);
      hide Scan, FirstSegment;
      ScanLineWithin(m, text[..n], offset, fence);
      ScanWithin(m, text[n..], offset + n, here.fence);
      if p < n {
        LiveOnFirstLine(m, text, offset, fence, p, n);
      } else {
        ScanLineFence(m, LineOf(text[..n]), offset, fence);
        ScanRecordsExactlyTheLive(m, text[n..], offset + n, here.fence, p - n);
        LiveShift(text, n, p, fence, m.begin);
        LiveShift(text, n, p, fence, m.end);
      }
    }
  }

  lemma LiveShift(text: string, n: nat, p: nat, fence: Option<Fence>, marker: string)
    requires text != "" && n == FirstSegment(text) && n <= p
    ensures LiveAt(text[n..], p - n, FenceAfter(fence, LineOf(text[..n])), marker) <==> LiveAt(text, p, fence, marker)
  {
    hide LineOf, IsFenceLine, FenceAfter, Find, FirstSegment;
    if p + |marker| <= |text| {
      assert text[p..p + |marker|] == text[n..][p - n..p - n + |marker|];
    }
  }

  // ---- A well-formed block ------------------------------------------------------------

  /** No line is a fence line or holds a sentinel. */
  ghost predicate PlainLines(m: Markers, text: string)
    decreases |text|
  {
    text != "" ==>
      var n := FirstSegment(text);
      var line := LineOf(text[..n]);
      && !IsFenceLine(line) && Find(line, m.begin) == None && Find(line, m.end) == None
      && PlainLines(m, text[n..])
  }

  /** A rendered block: BEGIN, plain whole lines, END, with `\n` endings throughout. */
  ghost predicate BlockOf(m: Markers, block: string, interior: string)
  {
    && block == m.begin + "\n" + interior + m.end
    && WholeLines(interior) && PlainLines(m, interior) && '\r' !in block
  }

  // ---- Conversion of line endings -----------------------------------------------------

  lemma {:induction false} ConvertConcat(a: string, b: string, ending: string)
    ensures Convert(a + b, ending) == Convert(a, ending) + Convert(b, ending)
    decreases |a|
  {
    if a == "" {
      assert a + b == b;
    } else {
      assert (a + b)[1..] == a[1..] + b;
      ConvertConcat(a[1..], b, ending);
    }
  }

  lemma {:induction false} ConvertNothing(s: string, ending: string)
    requires ending == "\n" || '\n' !in s
    ensures Convert(s, ending) == s
    decreases |s|
  {
    if s != "" { ConvertNothing(s[1..], ending); }
  }

  lemma ConvertLine(x: string, later: string, ending: string)
    requires '\n' !in x
    ensures Convert(x + "\n" + later, ending) == x + ending + Convert(later, ending)
  {
    assert Convert("\n", ending) == ending + Convert("", ending) == ending;
    hide Convert;
    ConvertConcat(x + "\n", later, ending);
    ConvertConcat(x, "\n", ending);
    ConvertNothing(x, ending);
  }

  lemma ConvertBlock(m: Markers, block: string, interior: string, ending: string)
    requires m.WellChosen() && BlockOf(m, block, interior)
    ensures Convert(block, ending) == m.begin + ending + Convert(interior, ending) + m.end
  {
    hide Convert, PlainLines;
    ConvertConcat(m.begin + "\n" + interior, m.end, ending);
    ConvertLine(m.begin, interior, ending);
    ConvertNothing(m.end, ending);
  }

  lemma FirstLineSplit(text: string) returns (x: string, below: string)
    requires text != "" && WholeLines(text)
    ensures '\n' !in x && text == x + "\n" + below && WholeLines(below)
    ensures text[..FirstSegment(text)] == x + "\n" && text[FirstSegment(text)..] == below
  {
    var n := FirstSegment(text);
    x, below := text[..n - 1], text[n..];
    assert text[n - 1] == '\n';
  }

  lemma PlainFirstLine(m: Markers, text: string, x: string, below: string, offset: nat)
    requires text != "" && PlainLines(m, text) && '\n' !in x
    requires text[..FirstSegment(text)] == x + "\n" && text[FirstSegment(text)..] == below
    ensures PlainLines(m, below) && ScanLine(m, LineOf(x), offset, None) == ManagedBlockScan([], [], None)
  {
    hide ScanLine, LineOf, IsFenceLine, Find, FirstSegment;
    LineWithEnding(x, "\n");
    PlainLine(m, LineOf(x), offset);
  }

  lemma {:induction false} ScanPlain(m: Markers, text: string, ending: string, rest: string, offset: nat)
    requires WholeLines(text) && PlainLines(m, text) && IsEnding(ending)
    ensures Scan(m, Convert(text, ending) + rest, offset, None) == Scan(m, rest, offset + |Convert(text, ending)|, None)
    decreases |text|
  {
    hide Scan, ScanLine, LineOf, Convert, PlainLines, FirstSegment, WholeLines, IsEnding, ManagedBlockScan.Before;
    if text == "" {
      ConvertNothing("", ending);
      assert "" + rest == rest;
    } else {
      var x, below := FirstLineSplit(text);
      PlainFirstLine(m, text, x, below, offset);
      ConvertLine(x, below, ending);
      var later := Convert(below, ending) + rest;
      assert Convert(text, ending) + rest == x + ending + later;
      ScanFirstLine(m, x, ending, later, offset, None);
      BeforeNothing(Scan(m, later, offset + |x| + |ending|, None));
      ScanPlain(m, below, ending, rest, offset + |x| + |ending|);
    }
  }

  lemma PlainLine(m: Markers, line: string, offset: nat)
    requires !IsFenceLine(line) && Find(line, m.begin) == None && Find(line, m.end) == None
    ensures ScanLine(m, line, offset, None) == ManagedBlockScan([], [], None)
  {
    hide IsFenceLine, Find;
  }

  lemma BeforeNothing(scan: ManagedBlockScan)
    ensures ManagedBlockScan([], [], None).Before(scan) == scan
  {
  }

  // ---- The shape of a spliced file ----------------------------------------------------

  /** Put behind `head`, a block scans as from an unfenced line, and `head` itself records nothing. */
  ghost predicate Heads(m: Markers, head: string)
  {
    forall ending, z :: IsEnding(ending) ==>
      Scan(m, head + m.begin + ending + z, 0, None) ==
      ManagedBlockScan([|head|], [], None).Before(Scan(m, z, |head| + |m.begin| + |ending|, None))
  }

  function Form(head: string, block: string, ended: bool, tail: string, ending: string): string
  {
    head + Convert(block, ending) + (if ended then ending else "") + tail
  }

  /** What stands behind the END sentinel; unless a line ending was split off, it starts with none. */
  predicate TailOk(ended: bool, tail: string)
  {
    ended || LeadingEnding(tail) == 0
  }

  /** The text on END's own line, and the lines below. */
  function SameLine(ended: bool, tail: string): string { if ended then "" else RestOfLine(tail) }
  function Below(ended: bool, tail: string): string { if ended then tail else AfterLine(tail) }

  ghost predicate Quiet(m: Markers, text: string)
  {
    Scan(m, text, 0, None).begins == [] && Scan(m, text, 0, None).ends == []
  }

  lemma LeadingEndingSplits(ending: string, tail: string)
    requires IsEnding(ending)
    ensures RestOfLine(ending + tail) == "" && AfterLine(ending + tail) == tail
    ensures LeadingEnding(ending + tail) == |ending|
  {
    var text, n := ending + tail, |ending|;
    assert text[n - 1] == '\n' && text[..n - 1] == ending[..n - 1];
    FirstSegmentIs(text, n);
    assert text[..n] == "" + ending && text[n..] == tail;
    LineWithEnding("", ending);
  }

  lemma FormScan(
    m: Markers, head: string, block: string, interior: string, ended: bool, tail: string, ending: string, end: nat)
    requires m.WellChosen() && BlockOf(m, block, interior) && IsEnding(ending)
    requires Heads(m, head) && Quiet(m, Below(ended, tail))
    requires end + |m.end| == |head| + |Convert(block, ending)|
    ensures |head| < end
    ensures Scan(m, Form(head, block, ended, tail, ending), 0, None) ==
            ManagedBlockScan([|head|] + Hits(SameLine(ended, tail), m.begin, end + |m.end|), [end],
                             Scan(m, Below(ended, tail), 0, None).fence)
  {
    hide Scan, LineOf, FirstSegment, Find, PlainLines, Convert, WholeLines, RestOfLine, AfterLine, Hits;
    hide IsMarker, Markers.WellChosen;
    ConvertBlock(m, block, interior, ending);
    var rest := (if ended then ending else "") + tail;
    var inside := Convert(interior, ending);
    var start := |head| + |m.begin| + |ending|;
    FormText(head, m.begin, ending, inside, m.end, rest, Form(head, block, ended, tail, ending), ended, tail, block);
    ScanPlain(m, interior, ending, m.end + rest, start);
    ScanFromEnd(m, rest, start + |inside|);
    if ended { LeadingEndingSplits(ending, tail); } else { assert rest == tail; }
    ScanElsewhere(m, Below(ended, tail), 0, start + |inside| + |m.end| + |rest| - |Below(ended, tail)|, None);
  }

  lemma FormText(
    head: string, begin: string, ending: string, inside: string, end: string, rest: string,
    text: string, ended: bool, tail: string, block: string)
    requires Convert(block, ending) == begin + ending + inside + end
    requires rest == (if ended then ending else "") + tail
    requires text == Form(head, block, ended, tail, ending)
    ensures text == head + begin + ending + (inside + (end + rest))
  {
    hide Convert;
  }

  lemma FormParts(m: Markers, head: string, block: string, ended: bool, tail: string, ending: string)
    requires |m.end| <= |Convert(block, ending)|
    ensures var text, end := Form(head, block, ended, tail, ending), |head| + |Convert(block, ending)| - |m.end|;
            && end + |m.end| <= |text| && text[..|head|] == head
            && text[end + |m.end|..] == (if ended then ending else "") + tail
  {
  }

  /** Exporting onto a file that holds the block `was`: the same file with the new block, in its own dominant line ending. */
  lemma FormRefreshes(
    m: Markers, head: string, was: string, interior: string, ended: bool, tail: string, ending: string, block: string)
    requires m.WellChosen() && BlockOf(m, was, interior) && IsEnding(ending)
    requires Heads(m, head) && Quiet(m, Below(ended, tail)) && TailOk(ended, tail)
    ensures var text := Form(head, was, ended, tail, ending);
            SpliceManagedBlock(m, Some(text), block) ==
            if Find(SameLine(ended, tail), m.begin).None?
            then Ok((Form(head, block, ended, tail, DominantLineEnding(text)), Refreshed))
            else Err(StraySentinel)
  {
    hide Scan, Find, DominantLineEnding, RestOfLine, AfterLine, Convert, PlainLines, WholeLines;
    var text := Form(head, was, ended, tail, ending);
    ConvertBlock(m, was, interior, ending);
    var end: nat := |head| + |Convert(was, ending)| - |m.end|;
    FormScan(m, head, was, interior, ended, tail, ending, end);
    FormParts(m, head, was, ended, tail, ending);
    ConvertNothing(block, "\n");
    if ended { LeadingEndingSplits(ending, tail); } else { assert "" + tail == tail; }
  }

  // ---- Heads --------------------------------------------------------------------------

  lemma WholeLinesHead(m: Markers, head: string)
    requires m.WellChosen() && WholeLines(head) && Scan(m, head, 0, None) == ManagedBlockScan([], [], None)
    ensures Heads(m, head)
  {
    hide Scan, WholeLines, IsEnding, Markers.WellChosen, ManagedBlockScan.Before;
    forall ending, z | IsEnding(ending)
      ensures Scan(m, head + m.begin + ending + z, 0, None) ==
              ManagedBlockScan([|head|], [], None).Before(Scan(m, z, |head| + |m.begin| + |ending|, None))
    {
      BlockAfterWholeLines(m, head, ending, z);
    }
  }

  lemma BlockAfterWholeLines(m: Markers, head: string, ending: string, z: string)
    requires m.WellChosen() && WholeLines(head) && Scan(m, head, 0, None) == ManagedBlockScan([], [], None)
    requires IsEnding(ending)
    ensures Scan(m, head + m.begin + ending + z, 0, None) ==
            ManagedBlockScan([|head|], [], None).Before(Scan(m, z, |head| + |m.begin| + |ending|, None))
  {
    hide Scan, ScanLine, WholeLines, IsEnding, Markers.WellChosen, ManagedBlockScan.Before;
    var block := m.begin + ending + z;
    assert head + m.begin + ending + z == head + block && "" + m.begin == m.begin;
    ScanConcat(m, head, block, 0, None);
    BeginLine(m, |head|);
    MarkersAreMarkers(m);
    MarkerLine(m, "", m.begin, ending, z, |head|, None);
    BeforeNothing(Scan(m, block, |head|, None));
  }

  lemma BeginLine(m: Markers, offset: nat)
    requires m.WellChosen()
    ensures ScanLine(m, m.begin, offset, None) == ManagedBlockScan([offset], [], None)
  {
    hide IsFenceLine, FenceAfter, HasAt, IsMarker, Markers.WellChosen;
    MarkersAreMarkers(m);
    MarkerIsNoFenceLine(m.begin);
    HasAtHere(m.begin, 0, m.begin);
    MarkersDiffer(m, m.begin, 0);
    forall i: nat ensures !HasAt(m.begin, i, m.end) {
      if i != 0 { NoLaterMarker(m.begin, m.end, i); }
    }
  }

  lemma MarkerIsNoFenceLine(marker: string)
    requires IsMarker(marker)
    ensures !IsFenceLine(marker)
  {
    hide IsFenceLine;
    FenceLineBefore("", marker[1..], "");
    assert marker == "" + "<" + marker[1..];
  }

  lemma RefreshedHead(m: Markers, text: string, b: nat)
    requires m.WellChosen()
    requires Scan(m, text, 0, None).begins == [b] && forall e :: e in Scan(m, text, 0, None).ends ==> b < e
    ensures b <= |text| && Heads(m, text[..b])
  {
    hide Scan;
    HeadOfBlock(m, text, 0, None, b, "\n", "");
    forall ending, z | IsEnding(ending)
      ensures Scan(m, text[..b] + m.begin + ending + z, 0, None) ==
              ManagedBlockScan([|text[..b]|], [], None).Before(Scan(m, z, |text[..b]| + |m.begin| + |ending|, None))
    {
      HeadOfBlock(m, text, 0, None, b, ending, z);
    }
  }

  // ---- Counting line endings ----------------------------------------------------------

  lemma {:induction false} LfConcat(a: string, b: string)
    ensures CountLf(a + b) == CountLf(a) + CountLf(b)
    decreases |a|
  {
    if a == "" {
      assert a + b == b;
    } else {
      assert (a + b)[1..] == a[1..] + b;
      LfConcat(a[1..], b);
    }
  }

  predicate Joins(a: string, b: string)
  {
    a != "" && b != "" && a[|a| - 1] == '\r' && b[0] == '\n'
  }

  lemma {:induction false} CrlfConcat(a: string, b: string)
    ensures CountCrlf(a + b) == CountCrlf(a) + CountCrlf(b) + (if Joins(a, b) then 1 else 0)
    decreases |a|
  {
    if a == "" {
      assert a + b == b;
    } else if |a| == 1 {
      assert (a + b)[1..] == b;
      assert b != "" ==> (a + b)[2..] == b[1..];
    } else if a[0] == '\r' && a[1] == '\n' {
      assert (a + b)[2..] == a[2..] + b;
      CrlfConcat(a[2..], b);
    } else {
      assert (a + b)[1..] == a[1..] + b;
      CrlfConcat(a[1..], b);
    }
  }

  lemma {:induction false} ConvertedCounts(s: string)
    requires '\r' !in s
    ensures CountLf(Convert(s, "\r\n")) == CountLf(s) == CountCrlf(Convert(s, "\r\n"))
    ensures CountCrlf(s) == 0
    decreases |s|
  {
    if s != "" {
      ConvertedCounts(s[1..]);
      var first, later := if s[0] == '\n' then "\r\n" else [s[0]], Convert(s[1..], "\r\n");
      LfConcat(first, later);
      CrlfConcat(first, later);
      assert first[1..] == if s[0] == '\n' then "\n" else "";
    }
  }

  /** The newlines of a spliced file, with the block in either ending. */
  lemma FormCounts(m: Markers, head: string, block: string, interior: string, ended: bool, tail: string, ending: string)
    requires m.WellChosen() && BlockOf(m, block, interior) && IsEnding(ending)
    ensures var text, n := Form(head, block, ended, tail, ending), CountLf(block) + if ended then 1 else 0;
            && CountLf(text) == CountLf(head) + n + CountLf(tail)
            && CountCrlf(text) == CountCrlf(head) + (if ending == "\n" then 0 else n) + CountCrlf(tail)
  {
    hide PlainLines, WholeLines, Convert, CountLf, CountCrlf, BlockOf, Markers.WellChosen, IsMarker;
    var converted, nl := Convert(block, ending), if ended then ending else "";
    ConvertedBlock(m, block, interior, ending);
    ConvertNothing(block, "\n");
    ConvertedCounts(block);
    LfConcat(head + converted + nl, tail);
    LfConcat(head + converted, nl);
    LfConcat(head, converted);
    CrlfConcat(head + converted + nl, tail);
    CrlfConcat(head + converted, nl);
    CrlfConcat(head, converted);
    EndingCounts(ending);
    EmptyCounts();
    assert head + converted + "" == head + converted;
  }

  lemma ConvertedBlock(m: Markers, block: string, interior: string, ending: string)
    requires m.WellChosen() && BlockOf(m, block, interior)
    ensures '\r' !in block
    ensures var converted := Convert(block, ending);
            converted != "" && converted[0] == '<' && converted[|converted| - 1] == '>'
  {
    hide PlainLines, WholeLines, Convert;
    ConvertBlock(m, block, interior, ending);
  }

  lemma EndingCounts(ending: string)
    requires IsEnding(ending)
    ensures CountLf(ending) == 1 && CountCrlf(ending) == if ending == "\n" then 0 else 1
  {
    assert "\r\n"[1..] == "\n" && "\r\n"[2..] == "" && "\n"[1..] == "";
  }

  /** The dominant ending of a refreshed file survives its next refresh. */
  lemma DominanceSettles(m: Markers, head: string, block: string, interior: string, ended: bool, tail: string, ending: string)
    requires m.WellChosen() && BlockOf(m, block, interior) && IsEnding(ending)
    ensures var once := DominantLineEnding(Form(head, block, ended, tail, ending));
            DominantLineEnding(Form(head, block, ended, tail, once)) == once
  {
    hide PlainLines, WholeLines, Convert, Form, CountLf, CountCrlf;
    var once := DominantLineEnding(Form(head, block, ended, tail, ending));
    FormCounts(m, head, block, interior, ended, tail, ending);
    FormCounts(m, head, block, interior, ended, tail, once);
  }

  // ---- Repeated export ----------------------------------------------------------------

  /** The line of the only END sentinel goes on to hold another BEGIN. */
  predicate BeginBehindEnd(m: Markers, text: string)
  {
    var scan := Scan(m, text, 0, None);
    scan.ends != [] && scan.ends[0] + |m.end| <= |text|
    && Find(RestOfLine(text[scan.ends[0] + |m.end|..]), m.begin).Some?
  }

  /** A refresh, taken apart. */
  lemma RefreshedForm(m: Markers, text: string, block: string) returns (b: nat, e: nat, rest: string, n: nat)
    requires m.WellChosen()
    requires SpliceManagedBlock(m, Some(text), block).Ok? && SpliceManagedBlock(m, Some(text), block).value.1 == Refreshed
    ensures Scan(m, text, 0, None).begins == [b] && Scan(m, text, 0, None).ends == [e] && b < e
    ensures e + |m.end| <= |text| && rest == text[e + |m.end|..] && n == LeadingEnding(rest)
    ensures SpliceManagedBlock(m, Some(text), block).value.0 ==
            Form(text[..b], block, n > 0, rest[n..], DominantLineEnding(text))
  {
    hide Scan, DominantLineEnding, PlainLines, WholeLines, Convert;
    var scan := Scan(m, text, 0, None);
    ScanWithin(m, text, 0, None);
    ConvertNothing(block, "\n");
    b, e := scan.begins[0], scan.ends[0];
    assert scan.begins == [b] && scan.ends == [e];
    assert e in scan.ends;
    rest := text[e + |m.end|..];
    n := LeadingEnding(rest);
  }

  lemma SplitEnding(rest: string, n: nat)
    requires n == LeadingEnding(rest)
    ensures SameLine(n > 0, rest[n..]) == RestOfLine(rest) && Below(n > 0, rest[n..]) == AfterLine(rest)
    ensures TailOk(n > 0, rest[n..])
  {
    hide LineOf, FirstSegment;
    if n == 0 {
      assert rest[0..] == rest;
    } else {
      var ending := rest[..n];
      assert IsEnding(ending) && rest == ending + rest[n..];
      LeadingEndingSplits(ending, rest[n..]);
    }
  }

  /**
   After any refresh, the next pass is a fixed point: a third pass changes nothing. The one
   exception is a file whose END shares its line with a later BEGIN: there the next pass refuses.
   */
  lemma ThirdPassEqualsSecond(m: Markers, text: string, block: string, interior: string)
    requires m.WellChosen() && BlockOf(m, block, interior)
    requires SpliceManagedBlock(m, Some(text), block).Ok? && SpliceManagedBlock(m, Some(text), block).value.1 == Refreshed
    ensures var first := SpliceManagedBlock(m, Some(text), block).value.0;
            var second := SpliceManagedBlock(m, Some(first), block);
            if BeginBehindEnd(m, text) then second == Err(StraySentinel)
            else second.Ok? && second.value.1 == Refreshed
                 && SpliceManagedBlock(m, Some(second.value.0), block) == second
  {
    hide Scan, DominantLineEnding, Form, PlainLines, WholeLines, SpliceManagedBlock, RestOfLine, AfterLine, Find;
    var b, e, rest, n := RefreshedForm(m, text, block);
    var head, ended, tail, ending := text[..b], n > 0, rest[n..], DominantLineEnding(text);
    RefreshedHead(m, text, b);
    SplitEnding(rest, n);
    TailOfBlock(m, text, 0, None, e, 0);
    DominantIsEnding(text);
    FormRefreshes(m, head, block, interior, ended, tail, ending, block);
    var once := DominantLineEnding(Form(head, block, ended, tail, ending));
    DominantIsEnding(Form(head, block, ended, tail, ending));
    FormRefreshes(m, head, block, interior, ended, tail, once, block);
    DominanceSettles(m, head, block, interior, ended, tail, ending);
  }

  /** BEGIN, END, BEGIN on one line: refreshed once, then refused. The scan takes only the first of a kind on a line. */
  lemma OneLineOfThreeIsRefused(m: Markers, block: string, interior: string)
    requires m.WellChosen() && BlockOf(m, block, interior)
    ensures var first := SpliceManagedBlock(m, Some(m.begin + m.end + m.begin), block);
            && first.Ok? && first.value.1 == Refreshed
            && SpliceManagedBlock(m, Some(first.value.0), block) == Err(StraySentinel)
  {
    hide Scan, DominantLineEnding, Convert, PlainLines, WholeLines, LeadingEnding, RestOfLine, Find, Markers.WellChosen;
    var text := m.begin + m.end + m.begin;
    MarkersAreMarkers(m);
    ThreeOnALine(m);
    assert text[|m.begin| + |m.end|..] == m.begin;
    MarkerIsItsLine(m);
    ThirdPassEqualsSecond(m, text, block, interior);
  }

  lemma MarkerIsItsLine(m: Markers)
    requires m.WellChosen()
    ensures Find(RestOfLine(m.begin), m.begin).Some?
  {
    hide Find;
    MarkersAreMarkers(m);
    NoLineFeedIsOneLine(m.begin);
    assert m.begin[..|m.begin|] == m.begin && m.begin + "" == m.begin;
    LineOfAfterMarker(m.begin, "");
    LineOfNothing();
    HasAtHere(m.begin, 0, m.begin);
  }

  lemma NoLineFeedIsOneLine(text: string)
    requires text != "" && '\n' !in text
    ensures FirstSegment(text) == |text|
  {
    assert forall i :: 0 <= i < |text| ==> text[i] in text && text[i] != '\n';
  }

  lemma ThreeOnALine(m: Markers)
    requires m.WellChosen()
    ensures Scan(m, m.begin + m.end + m.begin, 0, None) == ManagedBlockScan([0], [|m.begin|], None)
  {
    hide Scan, ScanLine, LineOf, FirstSegment, Markers.WellChosen;
    MarkersAreMarkers(m);
    var text := m.begin + m.end + m.begin;
    var rest := m.end + m.begin;
    NoLineFeedIsOneLine(text);
    assert text == m.begin + rest && text[..|text|] == text && text[|text|..] == "";
    LineOfAfterMarker(m.begin, rest);
    LineOfAfterMarker(m.end, m.begin);
    assert m.begin + "" == m.begin;
    LineOfAfterMarker(m.begin, "");
    LineOfNothing();
    ThreeOnALineScans(m);
    ScanStep(m, text, |text|, 0, None, ScanLine(m, text, 0, None));
    ScanNothing(m, |text|, None);
  }

  lemma ThreeOnALineScans(m: Markers)
    requires m.WellChosen()
    ensures ScanLine(m, m.begin + m.end + m.begin, 0, None) == ManagedBlockScan([0], [|m.begin|], None)
  {
    hide IsFenceLine, FenceAfter, HasAt, Markers.WellChosen;
    MarkersAreMarkers(m);
    var line, rest := m.begin + m.end + m.begin, m.end + m.begin;
    assert line == m.begin + rest && line == "" + "<" + line[1..];
    FenceLineBefore("", line[1..], "");
    AtFront(m.begin, rest);
    AtFront(m.end, m.begin);
    BehindFront(m.begin, rest, m.end, |m.begin|);
    forall i: nat | i < |m.begin| ensures !HasAt(line, i, m.end)
    {
      if i == 0 { MarkersDiffer(m, line, 0); } else { InsideMarker(m.begin, rest, m.end, i); }
    }
  }

  lemma DominantIsEnding(text: string)
    ensures IsEnding(DominantLineEnding(text))
  {
    hide CountLf, CountCrlf;
  }

  /** The four parts of a file that is refreshed. */
  lemma RefreshedParts(m: Markers, text: string, b: nat, e: nat, rest: string, n: nat)
    requires m.WellChosen()
    requires Scan(m, text, 0, None).begins == [b] && Scan(m, text, 0, None).ends == [e] && b < e
    requires e + |m.end| <= |text| && rest == text[e + |m.end|..] && n == LeadingEnding(rest)
    ensures var was := text[b..e + |m.end|];
            && text == text[..b] + was + rest[..n] + rest[n..] && rest[..n] in {"", "\n", "\r\n"}
            && |was| >= |m.end| && was[|was| - |m.end|..] == m.end
    ensures LiveAt(text, b, None, m.begin) && LiveAt(text, e, None, m.end)
  {
    hide Scan, LiveAt, HasAt, LeadingEnding;
    LeadingEndingIs(rest);
    assert b in [b] && e in [e];
    ScanRecordsExactlyTheLive(m, text, 0, None, b);
    ScanRecordsExactlyTheLive(m, text, 0, None, e);
    LiveHas(text, e, m.end);
    HasAtBounds(text, e, m.end);
    EndsAfterBegin(text, m.begin, m.end, b, e);
    CutTwice(text, b, e + |m.end|, n);
  }

  lemma EndsAfterBegin(text: string, begin: string, end: string, b: nat, e: nat)
    requires b < e && e + |end| <= |text| && text[e..e + |end|] == end
    ensures var was := text[b..e + |end|]; |was| >= |end| && was[|was| - |end|..] == end
  {
    assert text[b..e + |end|][e - b..] == text[e..e + |end|];
  }

  // ---- When one refresh settles -------------------------------------------------------

  /** Whether the ending `ending` still dominates once the block is in place, told from the line endings around it. */
  predicate EndingStays(ending: string, head: string, block: string, ended: bool, tail: string)
  {
    var n := CountLf(block) + if ended then 1 else 0;
    var lf, crlf := CountLf(head) + CountLf(tail), CountCrlf(head) + CountCrlf(tail);
    if ending == "\n" then 2 * crlf <= lf + n else lf < 2 * crlf + n
  }

  lemma DominanceStaysIff(m: Markers, head: string, block: string, interior: string, ended: bool, tail: string, ending: string)
    requires m.WellChosen() && BlockOf(m, block, interior) && IsEnding(ending)
    ensures DominantLineEnding(Form(head, block, ended, tail, ending)) == ending <==> EndingStays(ending, head, block, ended, tail)
  {
    hide PlainLines, WholeLines, Convert, Form, BlockOf, CountLf, CountCrlf;
    FormCounts(m, head, block, interior, ended, tail, ending);
    CrlfAtMostLf(Form(head, block, ended, tail, ending));
  }

  /** The two line endings give two different files. */
  lemma FormsDiffer(m: Markers, head: string, block: string, interior: string, ended: bool, tail: string)
    requires m.WellChosen() && BlockOf(m, block, interior)
    ensures Form(head, block, ended, tail, "\n") != Form(head, block, ended, tail, "\r\n")
  {
    hide PlainLines, WholeLines, Convert, Form, CountLf, CountCrlf;
    FormCounts(m, head, block, interior, ended, tail, "\n");
    FormCounts(m, head, block, interior, ended, tail, "\r\n");
    BlockCounts(m, interior);
  }

  /**
   Exactly when one refresh is enough: the second export returns the same text if and only if the file's dominant
   line ending is still dominant, that is, if and only if the endings around the block and in it say so.
   */
  lemma OneRefreshSettlesIffEndingStays(m: Markers, text: string, block: string, interior: string)
    returns (head: string, was: string, nl: string, tail: string)
    requires m.WellChosen() && BlockOf(m, block, interior) && !BeginBehindEnd(m, text)
    requires SpliceManagedBlock(m, Some(text), block).Ok? && SpliceManagedBlock(m, Some(text), block).value.1 == Refreshed
    ensures text == head + was + nl + tail && nl in {"", "\n", "\r\n"}
    ensures |was| >= |m.end| && was[|was| - |m.end|..] == m.end
    ensures LiveAt(text, |head|, None, m.begin) && LiveAt(text, |head| + |was| - |m.end|, None, m.end)
    ensures var first := SpliceManagedBlock(m, Some(text), block).value.0;
            && (SpliceManagedBlock(m, Some(first), block) == Ok((first, Refreshed)) <==>
                DominantLineEnding(first) == DominantLineEnding(text))
            && (SpliceManagedBlock(m, Some(first), block) == Ok((first, Refreshed)) <==>
                EndingStays(DominantLineEnding(text), head, block, nl != "", tail))
  {
    hide Scan, DominantLineEnding, Form, PlainLines, WholeLines, SpliceManagedBlock, RestOfLine, AfterLine, Find, LiveAt, Convert;
    hide EndingStays, LeadingEnding;
    var b, e, rest, n := RefreshedForm(m, text, block);
    RefreshedParts(m, text, b, e, rest, n);
    head, was, nl, tail := text[..b], text[b..e + |m.end|], rest[..n], rest[n..];
    var ended, ending := n > 0, DominantLineEnding(text);
    RefreshedHead(m, text, b);
    SplitEnding(rest, n);
    TailOfBlock(m, text, 0, None, e, 0);
    DominantIsEnding(text);
    FormRefreshes(m, head, block, interior, ended, tail, ending, block);
    var first := Form(head, block, ended, tail, ending);
    DominantIsEnding(first);
    DominanceStaysIff(m, head, block, interior, ended, tail, ending);
    FormsDiffer(m, head, block, interior, ended, tail);
  }

  lemma BlankLineIsPlain(m: Markers, below: string)
    requires m.WellChosen() && PlainLines(m, below)
    ensures PlainLines(m, "\n" + below)
  {
    hide IsFenceLine, Find;
    var text := "\n" + below;
    FirstSegmentIs(text, 1);
    assert text[..1] == "" + "\n" && text[1..] == below;
    LineWithEnding("", "\n");
    LineOfNothing();
    NothingIsPlain(m);
  }

  lemma NothingIsPlain(m: Markers)
    requires m.WellChosen()
    ensures !IsFenceLine("") && Find("", m.begin) == None && Find("", m.end) == None && PlainLines(m, "")
  {
  }

  function LineFeeds(k: nat): string { if k == 0 then "" else "\n" + LineFeeds(k - 1) }

  /** Blank lines are plain and whole. */
  lemma {:induction false} BlankLinesArePlain(m: Markers, k: nat)
    requires m.WellChosen()
    ensures PlainLines(m, LineFeeds(k)) && WholeLines(LineFeeds(k)) && '\r' !in LineFeeds(k) && CountLf(LineFeeds(k)) == k
    decreases k
  {
    hide PlainLines, Find, IsFenceLine;
    NothingIsPlain(m);
    if k != 0 {
      BlankLinesArePlain(m, k - 1);
      BlankLineIsPlain(m, LineFeeds(k - 1));
      var later := LineFeeds(k - 1);
      assert ("\n" + later)[1..] == later;
    }
  }

  /** In CRLF they record nothing and count as many of each. */
  lemma CrlfTail(m: Markers, k: nat)
    requires m.WellChosen()
    ensures var tail := Convert(LineFeeds(k), "\r\n");
            Quiet(m, tail) && CountLf(tail) == k == CountCrlf(tail)
  {
    hide PlainLines, WholeLines, Scan, Convert, CountLf, CountCrlf;
    BlankLinesArePlain(m, k);
    ConvertedCounts(LineFeeds(k));
    var tail := Convert(LineFeeds(k), "\r\n");
    ScanPlain(m, LineFeeds(k), "\r\n", "", 0);
    ScanNothing(m, |tail|, None);
    assert tail + "" == tail;
  }

  lemma {:induction false} NoLf(s: string)
    requires '\n' !in s
    ensures CountLf(s) == 0
  {
    if s != "" { NoLf(s[1..]); }
  }

  lemma BlockCounts(m: Markers, interior: string)
    requires m.WellChosen()
    ensures CountLf(m.begin + "\n" + interior + m.end) == 1 + CountLf(interior)
  {
    assert '\n' !in m.begin && '\n' !in m.end;
    hide CountLf, Markers.WellChosen, IsMarker;
    NoLf(m.begin);
    NoLf(m.end);
    EndingCounts("\n");
    LfConcat(m.begin, "\n");
    LfConcat(m.begin + "\n", interior);
    LfConcat(m.begin + "\n" + interior, m.end);
  }

  /**
   Whenever a block takes the place of a longer one, some file is not settled by the refresh: in it the line feeds
   of the old block make LF win against CRLFs below it, one more than those; with the new block the CRLFs win.
   */
  lemma OneRefreshMayNotSettle(m: Markers, was: string, interiorWas: string, block: string, interior: string) returns (text: string)
    requires m.WellChosen() && BlockOf(m, was, interiorWas) && BlockOf(m, block, interior) && CountLf(block) < CountLf(was)
    ensures was <= text
    ensures var first := SpliceManagedBlock(m, Some(text), block);
            && first.Ok? && first.value.1 == Refreshed
            && var second := SpliceManagedBlock(m, Some(first.value.0), block);
               second.Ok? && second.value.1 == Refreshed && second.value.0 != first.value.0
  {
    hide Scan, DominantLineEnding, Form, PlainLines, WholeLines, SpliceManagedBlock, RestOfLine, AfterLine, Find, Convert, CountLf, CountCrlf;
    var k := CountLf(was) + 1;
    var tail := Convert(LineFeeds(k), "\r\n");
    text := Form("", was, true, tail, "\n");
    StartsWithBlock(was, tail);
    CrlfTail(m, k);
    ScanNothing(m, 0, None);
    EmptyFile();
    WholeLinesHead(m, "");
    FindNothing(m);
    EmptyCounts();
    DominanceStaysIff(m, "", was, interiorWas, true, tail, "\n");
    DominanceStaysIff(m, "", block, interior, true, tail, "\n");
    FormRefreshes(m, "", was, interiorWas, true, tail, "\n", block);
    FormRefreshes(m, "", block, interior, true, tail, "\n", block);
    DominantIsEnding(Form("", block, true, tail, "\n"));
    FormsDiffer(m, "", block, interior, true, tail);
  }

  lemma StartsWithBlock(was: string, tail: string)
    ensures was <= Form("", was, true, tail, "\n")
  {
    hide Convert;
    ConvertNothing(was, "\n");
    assert "" + was + "\n" + tail == was + ("\n" + tail);
  }

  // ---- Create and append --------------------------------------------------------------

  /** Up to where the block goes, an appended-to file is whole lines that record nothing and leave no fence open. */
  lemma AppendHead(m: Markers, existing: string, ending: string)
    requires m.WellChosen() && existing != "" && IsEnding(ending)
    requires Scan(m, existing, 0, None) == ManagedBlockScan([], [], None)
    ensures Scan(m, existing + Separator(existing, ending), 0, None) == ManagedBlockScan([], [], None)
    ensures Heads(m, existing + Separator(existing, ending))
  {
    hide Scan, Heads, EndsWith, Separator, WholeLines, IsEnding;
    var sep, head := Separator(existing, ending), existing + Separator(existing, ending);
    SeparatorShape(existing, ending);
    SeparatedIsWhole(existing, ending);
    if WholeLines(existing) {
      ScanConcat(m, existing, sep, 0, None);
      BlankLines(m, sep, ending, |existing|);
    } else {
      assert head == (existing + ending) + ending;
      ScanEndLine(m, existing, ending, 0, None);
      EndedIsWhole(existing, ending);
      ScanConcat(m, existing + ending, ending, 0, None);
      BlankLines(m, ending, ending, |existing + ending|);
    }
    WholeLinesHead(m, head);
  }

  /** A file of whole lines gets at most one more line ending in front of the block, any other file two. */
  lemma SeparatorShape(existing: string, ending: string)
    requires IsEnding(ending) && existing != ""
    ensures var sep := Separator(existing, ending);
            if WholeLines(existing) then sep == "" || sep == ending else sep == ending + ending
  {
    if EndsWith(existing, ending + ending) { DoubledEnding(existing, ending); }
    if EndsWith(existing, "\n") { LastCharacter(existing); }
    assert existing[|existing| - 1..] == [existing[|existing| - 1]];
  }

  lemma EndedIsWhole(s: string, ending: string)
    requires IsEnding(ending)
    ensures WholeLines(s + ending)
  {
  }

  lemma SeparatedIsWhole(existing: string, ending: string)
    requires IsEnding(ending) && existing != ""
    ensures WholeLines(existing + Separator(existing, ending))
  {
    hide EndsWith, Separator, WholeLines, IsEnding;
    SeparatorShape(existing, ending);
    EndedIsWhole(existing, ending);
    EndedIsWhole(existing + ending, ending);
    assert existing + "" == existing && existing + (ending + ending) == existing + ending + ending;
  }

  lemma DoubledEnding(s: string, ending: string)
    requires IsEnding(ending) && EndsWith(s, ending + ending)
    ensures EndsWith(s, "\n")
  {
    var double := ending + ending;
    assert s[|s| - 1..] == s[|s| - |double|..][|double| - 1..] == "\n";
  }

  lemma BlankLines(m: Markers, sep: string, ending: string, offset: nat)
    requires m.WellChosen() && IsEnding(ending) && (sep == "" || sep == ending)
    ensures Scan(m, sep, offset, None) == ManagedBlockScan([], [], None)
  {
    if sep != "" {
      ScanFirstLine(m, "", ending, "", offset, None);
      assert "" + ending + "" == ending;
      PlainLine(m, "", offset);
    }
  }

  lemma AppendDominance(m: Markers, existing: string, block: string, interior: string)
    requires m.WellChosen() && BlockOf(m, block, interior)
    ensures var ending := DominantLineEnding(existing);
            DominantLineEnding(Form(existing + Separator(existing, ending), block, true, "", ending)) == ending
  {
    hide PlainLines, WholeLines, Convert, Form, EndsWith, Separator;
    var ending := DominantLineEnding(existing);
    var sep := Separator(existing, ending);
    SeparatorCounts(existing, ending);
    FormCounts(m, existing + sep, block, interior, true, "", ending);
    CrlfAtMostLf(existing);
    hide CountLf, CountCrlf;
    EmptyCounts();
  }

  lemma EmptyCounts()
    ensures CountLf("") == CountCrlf("") == 0
  {
  }

  lemma {:induction false} CrlfAtMostLf(s: string)
    ensures CountCrlf(s) <= CountLf(s)
    decreases |s|
  {
    if |s| >= 2 {
      if s[0] == '\r' && s[1] == '\n' {
        assert s[1..][1..] == s[2..];
        CrlfAtMostLf(s[2..]);
      } else {
        CrlfAtMostLf(s[1..]);
      }
    }
  }

  /** The separator adds CRLFs to a CRLF file; to an LF file it may complete one, but then adds two line feeds. */
  lemma SeparatorCounts(existing: string, ending: string)
    requires IsEnding(ending)
    ensures var head, k := existing + Separator(existing, ending), CountLf(Separator(existing, ending));
            && CountLf(head) == CountLf(existing) + k
            && (ending == "\r\n" ==> CountCrlf(head) >= CountCrlf(existing) + k)
            && (ending == "\n" ==> CountCrlf(head) <= CountCrlf(existing) + k / 2)
  {
    hide EndsWith, CountLf, CountCrlf;
    var sep := Separator(existing, ending);
    LfConcat(existing, sep);
    CrlfConcat(existing, sep);
    LfConcat(ending, ending);
    CrlfConcat(ending, ending);
    EndingCounts(ending);
    EmptyCounts();
    if Joins(existing, sep) && sep == ending {
      assert EndsWith(existing, "\n") && existing[|existing| - 1] == '\r';
      LastCharacter(existing);
    }
  }

  lemma LastCharacter(s: string)
    requires s != "" && EndsWith(s, "\n")
    ensures s[|s| - 1] == '\n'
  {
    assert s[|s| - 1..][0] == s[|s| - 1];
  }

  /** What a create or an append leaves behind, a second export of the same facts leaves byte for byte. */
  lemma ExportingAgainChangesNothing(m: Markers, file: Option<string>, block: string, interior: string)
    requires m.WellChosen() && BlockOf(m, block, interior)
    requires SpliceManagedBlock(m, file, block).Ok? && SpliceManagedBlock(m, file, block).value.1 != Refreshed
    ensures var text := SpliceManagedBlock(m, file, block).value.0;
            SpliceManagedBlock(m, Some(text), block) == Ok((text, Refreshed))
  {
    hide Scan, Form, PlainLines, WholeLines, Convert, Separator, DominantLineEnding;
    var existing := if file.None? then "" else file.value;
    var ending := DominantLineEnding(existing);
    EmptyFile();
    DominantIsEnding(existing);
    var head := if existing == "" then "" else existing + Separator(existing, ending);
    ScanNothing(m, 0, None);
    if existing == "" { WholeLinesHead(m, ""); } else { AppendHead(m, existing, ending); }
    ConvertNothing(block, "\n");
    FormOfAppend(head, block, ending);
    FindNothing(m);
    FormRefreshes(m, head, block, interior, true, "", ending, block);
    AppendDominance(m, existing, block, interior);
    assert existing == "" ==> existing + Separator(existing, ending) == Separator(existing, ending);
    if existing == "" { EmptyDominance(m, block, interior); }
  }

  lemma EmptyFile()
    ensures DominantLineEnding("") == "\n" && WholeLines("")
  {
  }

  lemma FindNothing(m: Markers)
    requires m.WellChosen()
    ensures Find("", m.begin).None?
  {
  }

  lemma EmptyDominance(m: Markers, block: string, interior: string)
    requires m.WellChosen() && BlockOf(m, block, interior)
    ensures DominantLineEnding(Form("", block, true, "", "\n")) == "\n"
  {
    hide PlainLines, WholeLines, Convert, Form;
    FormCounts(m, "", block, interior, true, "", "\n");
    EmptyCounts();
    hide CountLf, CountCrlf;
  }

  lemma FormOfAppend(head: string, block: string, ending: string)
    ensures Form(head, block, true, "", ending) == head + Convert(block, ending) + ending
    ensures head == "" ==> Form(head, block, true, "", ending) == Convert(block, ending) + ending
  {
    hide Convert;
  }

  // ---- The user's text ----------------------------------------------------------------

  /**
   What an append puts between the file and the block: nothing where the file ends in two line endings of its own, one
   where it ends in a line feed, two otherwise.
   */
  predicate Separates(sep: string, existing: string, ending: string)
  {
    && (sep == "" <==> EndsWith(existing, ending + ending))
    && (sep == ending <==> EndsWith(existing, "\n") && !EndsWith(existing, ending + ending))
    && (sep == ending + ending <==> !EndsWith(existing, "\n"))
  }

  lemma SeparatorSeparates(existing: string, ending: string)
    requires IsEnding(ending)
    ensures Separates(Separator(existing, ending), existing, ending)
  {
    if EndsWith(existing, ending + ending) {
      assert (ending + ending)[|ending + ending| - 1..] == "\n";
      assert existing[|existing| - 1..] == existing[|existing| - |ending + ending|..][|ending + ending| - 1..];
    }
    assert |ending| < |ending + ending|;
  }

  /** An append keeps the whole file in front and puts the block after a line that is empty, and nothing else in between. */
  lemma AppendKeepsTheFile(m: Markers, existing: string, block: string)
    requires SpliceManagedBlock(m, Some(existing), block).Ok? && SpliceManagedBlock(m, Some(existing), block).value.1 == Appended
    ensures var ending, text := DominantLineEnding(existing), SpliceManagedBlock(m, Some(existing), block).value.0;
            && IsEnding(ending)
            && exists sep :: Separates(sep, existing, ending) && text == existing + sep + Convert(block, ending) + ending
    ensures Scan(m, existing, 0, None).fence == None
  {
    DominantIsEnding(existing);
    hide Scan, DominantLineEnding, Convert, EndsWith, Separates, Separator;
    ConvertNothing(block, "\n");
    SeparatorSeparates(existing, DominantLineEnding(existing));
  }

  /**
   A refresh takes the file apart as `head`, the old block `was`, line ending `nl` and `tail`, with the old block
   bounded by live sentinels, and puts `head` and `tail` back untouched.
   */
  lemma RefreshKeepsHeadAndTail(m: Markers, existing: string, block: string)
    returns (head: string, was: string, nl: string, tail: string)
    requires m.WellChosen()
    requires SpliceManagedBlock(m, Some(existing), block).Ok? && SpliceManagedBlock(m, Some(existing), block).value.1 == Refreshed
    ensures existing == head + was + nl + tail && nl in {"", "\n", "\r\n"}
    ensures var ending := DominantLineEnding(existing);
            SpliceManagedBlock(m, Some(existing), block).value.0 ==
            head + Convert(block, ending) + (if nl == "" then "" else ending) + tail
    ensures |was| >= |m.end| && was[|was| - |m.end|..] == m.end
    ensures LiveAt(existing, |head|, None, m.begin) && LiveAt(existing, |head| + |was| - |m.end|, None, m.end)
  {
    hide Scan, DominantLineEnding, Convert, SpliceManagedBlock, LiveAt, HasAt, LeadingEnding;
    var b, e, rest, n := RefreshedForm(m, existing, block);
    RefreshedParts(m, existing, b, e, rest, n);
    head, was, nl, tail := existing[..b], existing[b..e + |m.end|], rest[..n], rest[n..];
  }

  lemma CutTwice(s: string, b: nat, e: nat, n: nat)
    requires b <= e && e + n <= |s|
    ensures s == s[..b] + s[b..e] + s[e..][..n] + s[e..][n..]
  {
  }

  lemma LiveHas(text: string, p: nat, marker: string)
    requires LiveAt(text, p, None, marker)
    ensures HasAt(text, p, marker)
  {
  }

  lemma LeadingEndingIs(rest: string)
    ensures rest[..LeadingEnding(rest)] in {"", "\n", "\r\n"}
  {
    var n := LeadingEnding(rest);
    assert n == 1 ==> rest[..n] == [rest[0]];
    assert n == 2 ==> rest[..n] == [rest[0], rest[1]];
  }

  lemma {:induction false} ScanAscends(m: Markers, text: string, offset: nat, fence: Option<Fence>)
    requires m.WellChosen()
    ensures var scan := Scan(m, text, offset, fence);
            && (forall i, j :: 0 <= i < j < |scan.begins| ==> scan.begins[i] < scan.begins[j])
            && (forall i, j :: 0 <= i < j < |scan.ends| ==> scan.ends[i] < scan.ends[j])
    decreases |text|
  {
    hide ScanLine, LineOf, FirstSegment;
    ScanNothing(m, offset, fence);
    hide Scan;
    if text != "" {
      var n := FirstSegment(text);
      var here := ScanLine(m, LineOf(text[..n]), offset, fence);
      var later := Scan(m, text[n..], offset + n, here.fence);
      ScanStep(m, text, n, offset, fence, here);
      ScanLineShape(m, LineOf(text[..n]), offset, fence);
      ScanLineWithin(m, text[..n], offset, fence);
      ScanWithin(m, text[n..], offset + n, here.fence);
      ScanAscends(m, text[n..], offset + n, here.fence);
      Ascend(here.begins, later.begins, offset + n);
      Ascend(here.ends, later.ends, offset + n);
    }
  }

  lemma Ascend(a: seq<nat>, b: seq<nat>, k: nat)
    requires |a| <= 1 && (forall x :: x in a ==> x < k) && (forall x :: x in b ==> k <= x)
    requires forall i, j :: 0 <= i < j < |b| ==> b[i] < b[j]
    ensures forall i, j :: 0 <= i < j < |a + b| ==> (a + b)[i] < (a + b)[j]
  {
    assert forall i :: 0 <= i < |b| ==> b[i] in b;
    assert forall i :: 0 <= i < |a| ==> a[i] in a;
  }

  ghost predicate OnlyLive(text: string, p: nat, marker: string)
  {
    LiveAt(text, p, None, marker) && forall q: nat :: LiveAt(text, q, None, marker) ==> q == p
  }

  /** A block is refreshed exactly when the file has one live BEGIN and one live END, in that order. */
  lemma RefreshesExactlyOneLivePair(m: Markers, existing: string, block: string)
    requires m.WellChosen()
    ensures (exists text :: SpliceManagedBlock(m, Some(existing), block) == Ok((text, Refreshed))) <==>
            OneLivePair(m, existing)
  {
    hide Scan, LiveAt, DominantLineEnding, Convert, Separator;
    var scan := Scan(m, existing, 0, None);
    ScanAscends(m, existing, 0, None);
    forall p: nat ensures p in scan.begins <==> LiveAt(existing, p, None, m.begin)
                  ensures p in scan.ends <==> LiveAt(existing, p, None, m.end)
    {
      ScanRecordsExactlyTheLive(m, existing, 0, None, p);
    }
    if |scan.begins| == 1 && |scan.ends| == 1 && scan.begins[0] < scan.ends[0] {
      assert OnlyLive(existing, scan.begins[0], m.begin) && OnlyLive(existing, scan.ends[0], m.end);
      ScanWithin(m, existing, 0, None);
      var result := SpliceManagedBlock(m, Some(existing), block);
      assert result.Ok? && result.value.1 == Refreshed;
      assert result == Ok((result.value.0, Refreshed));
    }
    if b: nat, e: nat :| b < e && OnlyLive(existing, b, m.begin) && OnlyLive(existing, e, m.end) {
      OnlyMember(scan.begins, b);
      OnlyMember(scan.ends, e);
    }
  }

  lemma OnlyMember(s: seq<nat>, x: nat)
    requires x in s && (forall y :: y in s ==> y == x) && forall i, j :: 0 <= i < j < |s| ==> s[i] < s[j]
    ensures s == [x]
  {
    assert |s| >= 2 ==> s[0] < s[1];
    forall i | 0 <= i < |s| ensures s[i] == x { assert s[i] in s; }
  }

  ghost predicate SomeLive(m: Markers, text: string)
  {
    exists p: nat :: LiveAt(text, p, None, m.begin) || LiveAt(text, p, None, m.end)
  }

  ghost predicate OneLivePair(m: Markers, text: string)
  {
    exists b: nat, e: nat :: b < e && OnlyLive(text, b, m.begin) && OnlyLive(text, e, m.end)
  }

  /** Every other arrangement of live sentinels is refused, and so is appending behind a fence left open. */
  lemma RefusesExactlyTheMalformed(m: Markers, existing: string, block: string)
    requires m.WellChosen()
    ensures SpliceManagedBlock(m, Some(existing), block) == Err(StraySentinel) <==>
            SomeLive(m, existing) && !OneLivePair(m, existing)
    ensures SpliceManagedBlock(m, Some(existing), block) == Err(UnclosedFence) <==>
            !SomeLive(m, existing) && existing != "" && Scan(m, existing, 0, None).fence.Some?
  {
    hide SpliceManagedBlock, Scan, LiveAt, OneLivePair, SomeLive;
    RefreshesExactlyOneLivePair(m, existing, block);
    SomeLiveIffRecorded(m, existing);
    SpliceOutcomes(m, existing, block);
    RefreshedShows(SpliceManagedBlock(m, Some(existing), block));
  }

  lemma SomeLiveIffRecorded(m: Markers, text: string)
    requires m.WellChosen()
    ensures SomeLive(m, text) <==> Scan(m, text, 0, None).begins != [] || Scan(m, text, 0, None).ends != []
  {
    hide Scan, LiveAt;
    var scan := Scan(m, text, 0, None);
    forall p: nat ensures (p in scan.begins <==> LiveAt(text, p, None, m.begin))
                       && (p in scan.ends <==> LiveAt(text, p, None, m.end))
    {
      ScanRecordsExactlyTheLive(m, text, 0, None, p);
    }
    if scan.begins != [] { NonEmptyHasMember(scan.begins); }
    if scan.ends != [] { NonEmptyHasMember(scan.ends); }
  }

  lemma SpliceOutcomes(m: Markers, existing: string, block: string)
    ensures var scan, result := Scan(m, existing, 0, None), SpliceManagedBlock(m, Some(existing), block);
            && (result == Err(StraySentinel) <==>
                (scan.begins != [] || scan.ends != []) && !(result.Ok? && result.value.1 == Refreshed))
            && (result == Err(UnclosedFence) <==>
                scan.begins == [] && scan.ends == [] && existing != "" && scan.fence.Some?)
            && (result.Ok? && result.value.1 == Refreshed ==> |scan.begins| == 1 && |scan.ends| == 1)
            && (result.Ok? && result.value.1 != Refreshed ==>
                  scan.begins == [] && scan.ends == [] && (existing != "" ==> scan.fence == None))
  {
    hide Scan, DominantLineEnding, Convert, Separator;
  }

  lemma RefreshedShows(result: Result<(string, BlockOutcome), SpliceError>)
    ensures result.Ok? && result.value.1 == Refreshed <==> exists text :: result == Ok((text, Refreshed))
  {
    assert result.Ok? && result.value.1 == Refreshed ==> result == Ok((result.value.0, Refreshed));
  }
}
