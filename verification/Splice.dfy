/**
 Splicing the managed block into a native memory file: the fence-aware line scan that finds the
 live BEGIN/END sentinels, and the splice that replaces, appends or refuses.
 */
module Splice {
  import opened Wrappers
  import opened Text

  /** The two sentinel lines of a managed block. The block the program writes is `ManagedBlock.MARKERS`. */
  datatype Markers = Markers(begin: string, end: string)
  {
    /** What the scan relies on: two single-line HTML comments, neither a prefix of the other. */
    ghost predicate WellChosen()
    {
      && IsMarker(begin) && IsMarker(end)
      && exists d :: 0 < d < |begin| && d < |end| && begin[d] != end[d]
    }
  }

  /** One `<`, at the front; one line; ends in `>`. */
  ghost predicate IsMarker(s: string)
  {
    && s != "" && s[0] == '<' && s[|s| - 1] == '>'
    && forall i :: 0 < i < |s| ==> s[i] != '<' && s[i] != '\n' && s[i] != '\r'
  }

  // ---- Lines --------------------------------------------------------------------------

  /** Length of the first segment of `split_inclusive('\n')`. */
  function FirstSegment(text: string): (n: nat)
    requires text != ""
    ensures 0 < n <= |text| && '\n' !in text[..n - 1]
    ensures n < |text| ==> text[n - 1] == '\n'
  {
    match IndexOf(text, '\n')
    case Some(i) => i + 1
    case None => |text|
  }

  /** `s.trim_end_matches(c)`. */
  function TrimEndChar(s: string, c: char): (r: string)
    ensures |r| <= |s| && r == s[..|r|]
    ensures forall i :: |r| <= i < |s| ==> s[i] == c
    ensures r != "" ==> r[|r| - 1] != c
  {
    if s != "" && s[|s| - 1] == c then TrimEndChar(s[..|s| - 1], c) else s
  }

  /** A segment without its line ending. */
  function LineOf(segment: string): string
  {
    TrimEndChar(TrimEndChar(segment, '\n'), '\r')
  }

  // ---- Fences -------------------------------------------------------------------------

  datatype Fence = Fence(ch: char, run: nat)

  /** Length of the leading run of `c`. */
  function RunLength(s: string, c: char): (n: nat)
    ensures n <= |s|
  {
    if s != "" && s[0] == c then 1 + RunLength(s[1..], c) else 0
  }

  /** `s.trim_start_matches(c)`. */
  function AfterRun(s: string, c: char): string { s[RunLength(s, c)..] }

  function CodeFence(trimmed: string): (fence: Option<Fence>)
    ensures fence.Some? ==> fence.value.run <= |trimmed|
  {
    if trimmed == "" || (trimmed[0] != '`' && trimmed[0] != '~') then None
    else
      var run := RunLength(trimmed, trimmed[0]);
      if run >= 3 then Some(Fence(trimmed[0], run)) else None
  }

  predicate IsFenceLine(line: string)
  {
    CodeFence(TrimStart(line)).Some?
  }

  /** The fence state after a line: an opener opens, a bare closer of the same char at least as long closes. */
  function FenceAfter(fence: Option<Fence>, line: string): Option<Fence>
  {
    var trimmed := TrimStart(line);
    match CodeFence(trimmed)
    case None => fence
    case Some(here) =>
      if fence.None? then Some(here)
      else if here.ch == fence.value.ch && here.run >= fence.value.run && IsBlank(trimmed[here.run..]) then None
      else fence
  }

  // ---- The scan -----------------------------------------------------------------------

  datatype ManagedBlockScan = ManagedBlockScan(begins: seq<nat>, ends: seq<nat>, fence: Option<Fence>)
  {
    function Before(later: ManagedBlockScan): ManagedBlockScan
    {
      ManagedBlockScan(begins + later.begins, ends + later.ends, later.fence)
    }

    lemma BeforeAssociates(later: ManagedBlockScan, latest: ManagedBlockScan)
      ensures Before(later).Before(latest) == Before(later.Before(latest))
    {
      assert begins + later.begins + latest.begins == begins + (later.begins + latest.begins);
      assert ends + later.ends + latest.ends == ends + (later.ends + latest.ends);
    }
  }

  /** The first `sentinel` of a line that starts at `offset`. */
  function Hits(line: string, sentinel: string, offset: nat): seq<nat>
  {
    match Find(line, sentinel)
    case None => []
    case Some(i) => [offset + i]
  }

  function ScanLine(m: Markers, line: string, offset: nat, fence: Option<Fence>): ManagedBlockScan
  {
    if IsFenceLine(line) || fence.Some? then ManagedBlockScan([], [], FenceAfter(fence, line))
    else ManagedBlockScan(Hits(line, m.begin, offset), Hits(line, m.end, offset), fence)
  }

  function Scan(m: Markers, text: string, offset: nat, fence: Option<Fence>): ManagedBlockScan
    decreases |text|
  {
    if text == "" then ManagedBlockScan([], [], fence)
    else
      var n := FirstSegment(text);
      var here := ScanLine(m, LineOf(text[..n]), offset, fence);
      here.Before(Scan(m, text[n..], offset + n, here.fence))
  }

  predicate Within(hits: seq<nat>, low: nat, high: nat, length: nat)
  {
    forall p :: p in hits ==> low <= p && p + length <= high
  }

  lemma ScanLineWithin(m: Markers, segment: string, offset: nat, fence: Option<Fence>)
    ensures Within(ScanLine(m, LineOf(segment), offset, fence).begins, offset, offset + |segment|, |m.begin|)
    ensures Within(ScanLine(m, LineOf(segment), offset, fence).ends, offset, offset + |segment|, |m.end|)
  {
  }

  lemma {:induction false} ScanWithin(m: Markers, text: string, offset: nat, fence: Option<Fence>)
    ensures Within(Scan(m, text, offset, fence).begins, offset, offset + |text|, |m.begin|)
    ensures Within(Scan(m, text, offset, fence).ends, offset, offset + |text|, |m.end|)
    decreases |text|
  {
    hide ScanLine, LineOf;
    if text != "" {
      var n := FirstSegment(text);
      var here := ScanLine(m, LineOf(text[..n]), offset, fence);
      ScanLineWithin(m, text[..n], offset, fence);
      ScanWithin(m, text[n..], offset + n, here.fence);
    }
  }

  method ManagedBlockSentinels(m: Markers, existing: string) returns (scan: ManagedBlockScan)
    ensures scan == Scan(m, existing, 0, None)
  {
    hide ScanLine, LineOf;
    var begins: seq<nat>, ends: seq<nat>, fence: Option<Fence> := [], [], None;
    var segments, offset := existing, 0;
    while segments != ""
      invariant Scan(m, existing, 0, None) == ManagedBlockScan(begins, ends, fence).Before(Scan(m, segments, offset, fence))
      decreases |segments|
    {
      var n := FirstSegment(segments);
      var line := LineOf(segments[..n]);
      ghost var so, here := ManagedBlockScan(begins, ends, fence), ScanLine(m, line, offset, fence);
      so.BeforeAssociates(here, Scan(m, segments[n..], offset + n, here.fence));
      begins, ends, fence := ScanOneLine(m, line, offset, begins, ends, fence);
      segments, offset := segments[n..], offset + n;
    }
    return ManagedBlockScan(begins, ends, fence);
  }

  /** The loop body of the scan: one line's effect on the three accumulators. */
  method ScanOneLine(m: Markers, line: string, offset: nat, begins0: seq<nat>, ends0: seq<nat>, fence0: Option<Fence>)
    returns (begins: seq<nat>, ends: seq<nat>, fence: Option<Fence>)
    ensures ManagedBlockScan(begins, ends, fence) ==
            ManagedBlockScan(begins0, ends0, fence0).Before(ScanLine(m, line, offset, fence0))
  {
    hide TrimStart, CodeFence, IsBlank, Hits;
    begins, ends, fence := begins0, ends0, fence0;
    var trimmed := TrimStart(line);
    var code := CodeFence(trimmed);
    if code.Some? {
      var here := code.value;
      if fence.None? {
        fence := code;
      } else if here.ch == fence.value.ch && here.run >= fence.value.run && IsBlank(trimmed[here.run..]) {
        fence := None;
      }
    } else if fence.None? {
      begins := begins + Hits(line, m.begin, offset);
      ends := ends + Hits(line, m.end, offset);
    }
  }

  // ---- Line endings -------------------------------------------------------------------

  function CountLf(s: string): nat
  {
    if s == "" then 0 else (if s[0] == '\n' then 1 else 0) + CountLf(s[1..])
  }

  /** Occurrences of `\r\n`, scanned left to right without overlap. */
  function CountCrlf(s: string): nat
  {
    if |s| < 2 then 0
    else if s[0] == '\r' && s[1] == '\n' then 1 + CountCrlf(s[2..])
    else CountCrlf(s[1..])
  }

  /** CRLF when it strictly outnumbers the lone line feeds. */
  function DominantLineEnding(s: string): string
  {
    var crlf := CountCrlf(s);
    var lf := if CountLf(s) >= crlf then CountLf(s) - crlf else 0;
    if crlf > lf then "\r\n" else "\n"
  }

  predicate IsEnding(ending: string)
  {
    ending == "\n" || ending == "\r\n"
  }

  /** `block.replace('\n', ending)`. */
  function Convert(s: string, ending: string): string
  {
    if s == "" then "" else (if s[0] == '\n' then ending else [s[0]]) + Convert(s[1..], ending)
  }

  predicate EndsWith(s: string, suffix: string)
  {
    |suffix| <= |s| && s[|s| - |suffix|..] == suffix
  }

  // ---- The splice ---------------------------------------------------------------------

  datatype BlockOutcome = Created | Appended | Refreshed

  datatype SpliceError = StraySentinel | UnclosedFence

  /** How many characters of line ending `rest` starts with. */
  function LeadingEnding(rest: string): (n: nat)
    ensures n <= |rest|
  {
    if |rest| >= 2 && rest[0] == '\r' && rest[1] == '\n' then 2
    else if |rest| >= 1 && rest[0] == '\n' then 1
    else 0
  }

  function Separator(existing: string, ending: string): string
  {
    if EndsWith(existing, ending + ending) then ""
    else if EndsWith(existing, "\n") then ending
    else ending + ending
  }

  function SpliceManagedBlock(m: Markers, file: Option<string>, block: string): Result<(string, BlockOutcome), SpliceError>
  {
    if file.None? then Ok((block + "\n", Created))
    else
      var existing := file.value;
      var ending := DominantLineEnding(existing);
      var converted := if ending == "\n" then block else Convert(block, ending);
      var scan := Scan(m, existing, 0, None);
      if scan.begins == [] && scan.ends == [] then
        if existing == "" then Ok((converted + ending, Created))
        else if scan.fence.Some? then Err(UnclosedFence)
        else Ok((existing + Separator(existing, ending) + converted + ending, Appended))
      else if |scan.begins| == 1 && |scan.ends| == 1 && scan.begins[0] < scan.ends[0] then
        ScanWithin(m, existing, 0, None);
        assert scan.ends[0] in scan.ends && scan.begins[0] in scan.begins;
        var rest := existing[scan.ends[0] + |m.end|..];
        var n := LeadingEnding(rest);
        var trailing := if n > 0 then ending else "";
        Ok((existing[..scan.begins[0]] + converted + trailing + rest[n..], Refreshed))
      else Err(StraySentinel)
  }
}
