/** How the sentinel scan composes: over whole lines, over a sentinel in a line, over the block itself. */
module SpliceScan {
  import opened Wrappers
  import opened Text
  import opened Splice

  predicate WholeLines(text: string)
  {
    text == "" || text[|text| - 1] == '\n'
  }

  // ---- Lines --------------------------------------------------------------------------

  lemma FirstSegmentIs(text: string, n: nat)
    requires 0 < n <= |text| && '\n' !in text[..n - 1] && text[n - 1] == '\n'
    ensures FirstSegment(text) == n
  {
    var k := FirstSegment(text);
    assert forall i :: 0 <= i < n - 1 ==> text[i] == text[..n - 1][i] != '\n';
    assert forall i :: 0 <= i < k - 1 ==> text[i] == text[..k - 1][i] != '\n';
  }

  lemma TrimEndCharOff(x: string, c: char)
    ensures TrimEndChar(x + [c], c) == TrimEndChar(x, c)
  {
    assert (x + [c])[..|x|] == x;
  }

  lemma LineWithEnding(x: string, ending: string)
    requires '\n' !in x && IsEnding(ending)
    ensures LineOf(x + ending) == LineOf(x) == TrimEndChar(x, '\r')
  {
    assert x != "" ==> x[|x| - 1] in x;
    if ending == "\n" {
      TrimEndCharOff(x, '\n');
    } else {
      assert x + ending == (x + ['\r']) + ['\n'];
      TrimEndCharOff(x + ['\r'], '\n');
      TrimEndCharOff(x, '\r');
    }
  }

  /** One unfolding of the scan. */
  lemma ScanStep(m: Markers, text: string, n: nat, offset: nat, fence: Option<Fence>, here: ManagedBlockScan)
    requires text != "" && n == FirstSegment(text) && here == ScanLine(m, LineOf(text[..n]), offset, fence)
    ensures Scan(m, text, offset, fence) == here.Before(Scan(m, text[n..], offset + n, here.fence))
  {
    hide ScanLine, LineOf;
  }

  lemma ScanFirstLine(m: Markers, x: string, ending: string, rest: string, offset: nat, fence: Option<Fence>)
    requires '\n' !in x && IsEnding(ending)
    ensures var here := ScanLine(m, LineOf(x), offset, fence);
            Scan(m, x + ending + rest, offset, fence) ==
            here.Before(Scan(m, rest, offset + |x| + |ending|, here.fence))
  {
    hide Scan, ScanLine, LineOf;
    var text, n := x + ending + rest, |x| + |ending|;
    assert text[..n - 1] == x || text[..n - 1] == x + "\r";
    FirstSegmentIs(text, n);
    assert text[..n] == x + ending && text[n..] == rest;
    LineWithEnding(x, ending);
    ScanStep(m, text, n, offset, fence, ScanLine(m, LineOf(x), offset, fence));
  }

  /** Cutting off a first line that is complete does not depend on what follows. */
  lemma FirstSegmentBefore(a: string, b: string)
    requires a != "" && a[FirstSegment(a) - 1] == '\n'
    ensures FirstSegment(a + b) == FirstSegment(a)
    ensures (a + b)[..FirstSegment(a)] == a[..FirstSegment(a)] && (a + b)[FirstSegment(a)..] == a[FirstSegment(a)..] + b
  {
    var n := FirstSegment(a);
    assert (a + b)[..n - 1] == a[..n - 1];
    FirstSegmentIs(a + b, n);
  }

  /** Whole lines scan independently of what follows them. */
  lemma {:induction false} ScanConcat(m: Markers, a: string, b: string, offset: nat, fence: Option<Fence>)
    requires WholeLines(a)
    ensures Scan(m, a + b, offset, fence) ==
            Scan(m, a, offset, fence).Before(Scan(m, b, offset + |a|, Scan(m, a, offset, fence).fence))
    decreases |a|
  {
    hide ScanLine, LineOf, FirstSegment;
    if a == "" {
      assert a + b == b;
      var after := Scan(m, b, offset, fence);
      assert ManagedBlockScan([], [], fence).Before(after) == after;
    } else {
      hide Scan;
      var n := FirstSegment(a);
      FirstSegmentBefore(a, b);
      var here := ScanLine(m, LineOf(a[..n]), offset, fence);
      ScanStep(m, a, n, offset, fence, here);
      ScanStep(m, a + b, n, offset, fence, here);
      ScanConcat(m, a[n..], b, offset + n, here.fence);
      var later := Scan(m, a[n..], offset + n, here.fence);
      here.BeforeAssociates(later, Scan(m, b, offset + |a|, later.fence));
    }
  }

  /** Ending an unfinished last line changes nothing. */
  lemma {:induction false} ScanEndLine(m: Markers, a: string, ending: string, offset: nat, fence: Option<Fence>)
    requires !WholeLines(a) && IsEnding(ending)
    ensures Scan(m, a + ending, offset, fence) == Scan(m, a, offset, fence)
    decreases |a|
  {
    hide Scan, ScanLine, LineOf;
    var n := FirstSegment(a);
    var here := ScanLine(m, LineOf(a[..n]), offset, fence);
    ScanStep(m, a, n, offset, fence, here);
    if a[n - 1] == '\n' {
      FirstSegmentBefore(a, ending);
      ScanStep(m, a + ending, n, offset, fence, here);
      ScanEndLine(m, a[n..], ending, offset + n, here.fence);
    } else {
      assert n == |a| && a == a[..n - 1] + [a[n - 1]];
      assert a + ending + "" == a + ending && a[..n] == a && a[n..] == "";
      ScanFirstLine(m, a, ending, "", offset, fence);
      ScanNothing(m, offset + n, here.fence);
      ScanNothing(m, offset + n + |ending|, here.fence);
    }
  }

  lemma ScanNothing(m: Markers, offset: nat, fence: Option<Fence>)
    ensures Scan(m, "", offset, fence) == ManagedBlockScan([], [], fence)
  {
  }

  /** A line that records nothing does not depend on where it starts. */
  lemma ScanLineElsewhere(m: Markers, line: string, offset: nat, other: nat, fence: Option<Fence>)
    ensures ScanLine(m, line, other, fence).fence == ScanLine(m, line, offset, fence).fence
    ensures ScanLine(m, line, offset, fence).begins == [] ==> ScanLine(m, line, other, fence).begins == []
    ensures ScanLine(m, line, offset, fence).ends == [] ==> ScanLine(m, line, other, fence).ends == []
  {
    hide IsFenceLine, FenceAfter, Find;
  }

  lemma {:induction false} ScanElsewhere(m: Markers, text: string, offset: nat, other: nat, fence: Option<Fence>)
    requires Scan(m, text, offset, fence).begins == [] && Scan(m, text, offset, fence).ends == []
    ensures Scan(m, text, other, fence) == Scan(m, text, offset, fence)
    decreases |text|
  {
    hide ScanLine, LineOf;
    if text != "" {
      hide Scan, FirstSegment;
      var n := FirstSegment(text);
      var line := LineOf(text[..n]);
      var here := ScanLine(m, line, offset, fence);
      ScanStep(m, text, n, offset, fence, here);
      ScanStep(m, text, n, other, fence, ScanLine(m, line, other, fence));
      ScanLineElsewhere(m, line, offset, other, fence);
      ScanElsewhere(m, text[n..], offset + n, other + n, here.fence);
    }
  }

  // ---- Sentinels in a line ------------------------------------------------------------

  lemma {:induction false} TrimStartBefore(p: string, x: string)
    ensures TrimStart(p + "<" + x) == TrimStart(p) + "<" + x
    decreases |p|
  {
    hide IsWhitespace, TrimStart;
    TrimStartStep(p + "<" + x);
    TrimStartStep(p);
    if p != "" {
      assert (p + "<" + x)[0] == p[0] && (p + "<" + x)[1..] == p[1..] + "<" + x;
      TrimStartBefore(p[1..], x);
    } else {
      AngleIsTight();
      assert (p + "<" + x)[0] == '<';
    }
  }

  /** One unfolding of `TrimStart`. */
  lemma TrimStartStep(s: string)
    ensures TrimStart(s) == if s != "" && IsWhitespace(s[0]) then TrimStart(s[1..]) else s
  {
    hide IsWhitespace;
  }

  lemma AngleIsTight()
    ensures !IsWhitespace('<')
  {
  }

  lemma {:induction false} RunBefore(p: string, c: char, x: string)
    requires c != '<'
    ensures RunLength(p + "<" + x, c) == RunLength(p, c)
    decreases |p|
  {
    if p != "" && p[0] == c {
      assert (p + "<" + x)[1..] == p[1..] + "<" + x;
      RunBefore(p[1..], c, x);
    }
  }

  /** What follows a `<` cannot make its line a fence line. */
  lemma FenceLineBefore(p: string, x: string, y: string)
    ensures IsFenceLine(p + "<" + x) == IsFenceLine(p + "<" + y)
    ensures p == "" ==> !IsFenceLine(p + "<" + x)
  {
    TrimStartBefore(p, x);
    TrimStartBefore(p, y);
    var t := TrimStart(p);
    if t != "" && (t[0] == '`' || t[0] == '~') {
      RunBefore(t, t[0], x);
      RunBefore(t, t[0], y);
    }
  }

  /** The two markers cannot occur at the same place. */
  lemma MarkersDiffer(m: Markers, s: string, i: nat)
    requires m.WellChosen()
    ensures !(HasAt(s, i, m.begin) && HasAt(s, i, m.end))
  {
    var d :| 0 < d < |m.begin| && d < |m.end| && m.begin[d] != m.end[d];
    HasAtIff(s, i, m.begin);
    HasAtIff(s, i, m.end);
    assert HasAt(s, i, m.begin) ==> s[i + d] == m.begin[d];
  }

  /** Where a marker occurs in a line cut just after a BEGIN at `b`. */
  lemma MarkersInHead(m: Markers, line: string, b: nat, i: nat)
    requires m.WellChosen() && HasAt(line, b, m.begin)
    requires forall k: nat :: k < b ==> !HasAt(line, k, m.begin)
    requires forall k: nat :: k <= b ==> !HasAt(line, k, m.end)
    ensures HasAt(line[..b] + m.begin, i, m.begin) <==> i == b
    ensures !HasAt(line[..b] + m.begin, i, m.end)
  {
    hide HasAt, IsMarker, Markers.WellChosen;
    MarkersAreMarkers(m);
    HasAtBounds(line, b, m.begin);
    var cut := line[..b] + m.begin;
    assert cut == line[..|cut|];
    if i < b {
      HasAtPrefix(cut, line, i, m.begin);
      HasAtPrefix(cut, line, i, m.end);
    } else {
      BehindFront(line[..b], m.begin, m.begin, i);
      BehindFront(line[..b], m.begin, m.end, i);
      HasAtHere(m.begin, 0, m.begin);
      if i == b {
        MarkersDiffer(m, m.begin, 0);
      } else {
        NoLaterMarker(m.begin, m.begin, i - b);
        NoLaterMarker(m.begin, m.end, i - b);
      }
    }
  }

  lemma NoLaterMarker(s: string, marker: string, i: nat)
    requires IsMarker(s) && IsMarker(marker) && i != 0
    ensures !HasAt(s, i, marker)
  {
    HasAtIff(s, i, marker);
  }

  lemma HasAtPrefix(front: string, text: string, p: nat, marker: string)
    requires |front| <= |text| && front == text[..|front|]
    ensures HasAt(front, p, marker) ==> HasAt(text, p, marker)
  {
    assert HasAt(front, p, marker) ==> text[p..p + |marker|] == front[p..p + |marker|];
  }

  /** A line cut just after its first BEGIN still has exactly that BEGIN, and no END. */
  lemma HeadLine(m: Markers, line: string, offset: nat, fence: Option<Fence>, b: nat)
    requires m.WellChosen()
    requires ScanLine(m, line, offset, fence).begins == [offset + b]
    requires forall e :: e in ScanLine(m, line, offset, fence).ends ==> offset + b < e
    ensures fence == None && HasAt(line, b, m.begin)
    ensures ScanLine(m, line[..b] + m.begin, offset, fence) == ManagedBlockScan([offset + b], [], None)
  {
    hide IsFenceLine, FenceAfter, HasAt, IsMarker, Markers.WellChosen;
    MarkersAreMarkers(m);
    assert Find(line, m.begin) == Some(b) && fence == None && !IsFenceLine(line);
    assert Find(line, m.end).Some? ==> offset + Find(line, m.end).value in ScanLine(m, line, offset, fence).ends;
    HasAtBounds(line, b, m.begin);
    var cut := line[..b] + m.begin;
    FenceLineCut(m.begin, line, b);
    forall i: nat ensures (HasAt(cut, i, m.begin) <==> i == b) && !HasAt(cut, i, m.end) {
      MarkersInHead(m, line, b, i);
    }
    assert HasAt(cut, b, m.begin);
  }

  lemma HasAtBounds(s: string, i: nat, needle: string)
    requires HasAt(s, i, needle)
    ensures i + |needle| <= |s| && s[i..i + |needle|] == needle
    ensures s == s[..i] + needle + s[i + |needle|..]
  {
  }

  lemma FenceLineCut(marker: string, line: string, b: nat)
    requires IsMarker(marker) && HasAt(line, b, marker)
    ensures IsFenceLine(line[..b] + marker) == IsFenceLine(line)
  {
    hide IsFenceLine;
    var p, rest := line[..b], line[b + |marker|..];
    FenceLineBefore(p, marker[1..], marker[1..] + rest);
    assert p + marker == p + "<" + marker[1..];
    assert line == p + "<" + (marker[1..] + rest);
  }

  lemma MarkersInTail(m: Markers, x: string, i: nat)
    requires m.WellChosen()
    ensures HasAt(m.end + x, i, m.begin) <==> i >= |m.end| && HasAt(x, i - |m.end|, m.begin)
    ensures HasAt(m.end + x, 0, m.end)
  {
    hide HasAt, Markers.WellChosen;
    MarkersAreMarkers(m);
    AtFront(m.end, x);
    if i == 0 {
      MarkersDiffer(m, m.end + x, 0);
    } else if i < |m.end| {
      InsideMarker(m.end, x, m.begin, i);
    } else {
      BehindFront(m.end, x, m.begin, i);
    }
  }

  lemma MarkersAreMarkers(m: Markers)
    requires m.WellChosen()
    ensures IsMarker(m.begin) && IsMarker(m.end)
  {
  }

  lemma AtFront(front: string, x: string)
    ensures HasAt(front + x, 0, front)
  {
  }

  lemma InsideMarker(front: string, x: string, marker: string, i: nat)
    requires IsMarker(front) && IsMarker(marker) && 0 < i < |front|
    ensures !HasAt(front + x, i, marker)
  {
    HasAtIff(front + x, i, marker);
    assert (front + x)[i] == front[i] != '<';
  }

  lemma BehindFront(front: string, x: string, needle: string, i: nat)
    requires |front| <= i
    ensures HasAt(front + x, i, needle) <==> HasAt(x, i - |front|, needle)
  {
    if i + |needle| <= |front + x| {
      assert (front + x)[i..i + |needle|] == x[i - |front|..i - |front| + |needle|];
    }
  }

  /** A line from its END on: that END is its first, and its BEGIN, if it has one, lies behind. */
  lemma TailLine(m: Markers, x: string, offset: nat)
    requires m.WellChosen()
    ensures ScanLine(m, m.end + x, offset, None) ==
            ManagedBlockScan(Hits(x, m.begin, offset + |m.end|), [offset], None)
  {
    hide IsFenceLine, FenceAfter, HasAt;
    var line := m.end + x;
    FenceLineBefore("", m.end[1..] + x, "");
    assert line == "" + "<" + (m.end[1..] + x);
    forall i: nat ensures HasAt(line, i, m.begin) <==> i >= |m.end| && HasAt(x, i - |m.end|, m.begin) {
      MarkersInTail(m, x, i);
    }
    MarkersInTail(m, x, 0);
    var here := Find(x, m.begin);
    if here.Some? { assert HasAt(line, here.value + |m.end|, m.begin); }
  }

  // ---- The two sentinels of a file ----------------------------------------------------

  lemma LineOfPrefix(segment: string)
    ensures |LineOf(segment)| <= |segment| && LineOf(segment) == segment[..|LineOf(segment)|]
  {
  }

  lemma MarkerLine(m: Markers, p: string, marker: string, ending: string, rest: string, offset: nat, fence: Option<Fence>)
    requires IsMarker(marker) && IsEnding(ending) && '\n' !in p
    ensures var here := ScanLine(m, p + marker, offset, fence);
            Scan(m, p + marker + ending + rest, offset, fence) ==
            here.Before(Scan(m, rest, offset + |p| + |marker| + |ending|, here.fence))
  {
    hide Scan, ScanLine;
    var x := p + marker;
    assert '\n' !in x && x[|x| - 1] == '>';
    LineWithEnding(x, ending);
    ScanFirstLine(m, x, ending, rest, offset, fence);
  }

  /**
   A file cut just after its first BEGIN, with anything put behind: everything in front scans as
   it did, and what is put behind scans from an unfenced line start.
   */
  lemma {:induction false} HeadOfBlock(
    m: Markers, text: string, offset: nat, fence: Option<Fence>, b: nat, ending: string, z: string)
    requires m.WellChosen() && IsEnding(ending)
    requires var scan := Scan(m, text, offset, fence);
             scan.begins != [] && scan.begins[0] == offset + b && forall e :: e in scan.ends ==> offset + b < e
    ensures b <= |text|
    ensures Scan(m, text[..b] + m.begin + ending + z, offset, fence) ==
            ManagedBlockScan([offset + b], [], None).Before(Scan(m, z, offset + b + |m.begin| + |ending|, None))
    decreases |text|
  {
    hide Scan, ScanLine, LineOf, FirstSegment, HasAt, IsEnding, IsMarker, Markers.WellChosen;
    MarkersAreMarkers(m);
    ScanNothing(m, offset, fence);
    var n := FirstSegment(text);
    var line := LineOf(text[..n]);
    LineOfPrefix(text[..n]);
    var here := ScanLine(m, line, offset, fence);
    var later := Scan(m, text[n..], offset + n, here.fence);
    ScanStep(m, text, n, offset, fence, here);
    ScanLineShape(m, line, offset, fence);
    assert forall e :: e in here.ends ==> e in here.Before(later).ends;
    assert forall e :: e in later.ends ==> e in here.Before(later).ends;
    if here.begins != [] {
      HeadLine(m, line, offset, fence, b);
      HasAtBounds(line, b, m.begin);
      assert text[..b] == line[..b] && '\n' !in text[..b];
      MarkerLine(m, text[..b], m.begin, ending, z, offset, fence);
    } else {
      ScanWithin(m, text[n..], offset + n, here.fence);
      ScanLineWithin(m, text[..n], offset, fence);
      assert here.Before(later).begins == later.begins;
      assert later.begins[0] in later.begins && b >= n;
      ScanNothing(m, offset + n, here.fence);
      EmptyOfNoMember(here.ends);
      HeadOfBlock(m, text[n..], offset + n, here.fence, b - n, ending, z);
      var rest := text[n..][..b - n] + m.begin + ending + z;
      CutBehind(text, n, b, m.begin + ending + z);
      assert text[..b] + m.begin + ending + z == text[..b] + (m.begin + ending + z) && rest == text[n..][..b - n] + (m.begin + ending + z);
      ScanWholeFirst(m, text[..n], rest, offset, fence);
    }
  }

  lemma CutBehind(text: string, n: nat, b: nat, more: string)
    requires n <= b <= |text|
    ensures text[..b] + more == text[..n] + (text[n..][..b - n] + more)
  {
  }

  /** A first line with its line feed scans on its own. */
  lemma ScanWholeFirst(m: Markers, first: string, rest: string, offset: nat, fence: Option<Fence>)
    requires first != "" && '\n' !in first[..|first| - 1] && first[|first| - 1] == '\n'
    ensures var here := ScanLine(m, LineOf(first), offset, fence);
            Scan(m, first + rest, offset, fence) == here.Before(Scan(m, rest, offset + |first|, here.fence))
  {
    hide Scan, ScanLine, LineOf, FirstSegment;
    var n := |first|;
    FirstSegmentIs(first, n);
    FirstSegmentBefore(first, rest);
    assert (first + rest)[..n] == first && (first + rest)[n..] == rest;
    ScanStep(m, first + rest, n, offset, fence, ScanLine(m, LineOf(first), offset, fence));
  }

  /** A line records at most one sentinel of each kind, and only when no fence is open. */
  lemma ScanLineShape(m: Markers, line: string, offset: nat, fence: Option<Fence>)
    ensures var here := ScanLine(m, line, offset, fence);
            && |here.begins| <= 1 && |here.ends| <= 1
            && (here.begins != [] || here.ends != [] ==> fence == None && here.fence == None)
            && (here.ends != [] ==> offset <= here.ends[0] && HasAt(line, here.ends[0] - offset, m.end))
            && (here.begins != [] ==> offset <= here.begins[0] && HasAt(line, here.begins[0] - offset, m.begin))
  {
    hide IsFenceLine, FenceAfter, HasAt;
  }

  /** What is left of the line that `rest` starts in. */
  function RestOfLine(rest: string): string
  {
    if rest == "" then "" else LineOf(rest[..FirstSegment(rest)])
  }

  /** The lines after the one that `rest` starts in. */
  function AfterLine(rest: string): (below: string)
    ensures |below| <= |rest|
  {
    if rest == "" then "" else rest[FirstSegment(rest)..]
  }

  lemma TrimEndCharAfter(p: string, x: string, c: char)
    requires p != "" && p[|p| - 1] != c
    ensures TrimEndChar(p + x, c) == p + TrimEndChar(x, c)
    decreases |x|
  {
    if x == "" {
      assert p + x == p;
    } else if x[|x| - 1] == c {
      assert (p + x)[..|p + x| - 1] == p + x[..|x| - 1];
      TrimEndCharAfter(p, x[..|x| - 1], c);
    }
  }

  lemma LineOfAfterMarker(marker: string, x: string)
    requires IsMarker(marker)
    ensures LineOf(marker + x) == marker + LineOf(x)
  {
    TrimEndCharAfter(marker, x, '\n');
    TrimEndCharAfter(marker, TrimEndChar(x, '\n'), '\r');
  }

  /** Scanning from an END sentinel on. */
  lemma ScanFromEnd(m: Markers, rest: string, offset: nat)
    requires m.WellChosen()
    ensures Scan(m, m.end + rest, offset, None) ==
            ManagedBlockScan(Hits(RestOfLine(rest), m.begin, offset + |m.end|), [offset], None).Before(
              Scan(m, AfterLine(rest), offset + |m.end| + |rest| - |AfterLine(rest)|, None))
  {
    hide Scan, ScanLine, LineOf, Find;
    var k := if rest == "" then 0 else FirstSegment(rest);
    var text, n := m.end + rest, |m.end| + k;
    assert FirstSegment(text) == n by {
      if '\n' in text {
        assert rest != "" && rest[k - 1] == '\n' by {
          assert k < |rest| || rest == rest[..k - 1] + [rest[k - 1]];
          assert text == m.end + rest;
        }
        assert text[..n - 1] == m.end + rest[..k - 1];
        FirstSegmentIs(text, n);
      } else if rest != "" {
        assert text[|m.end| + k - 1] == rest[k - 1];
        assert text[|m.end| + k - 1] in text;
      }
    }
    assert text[..n] == m.end + rest[..k] && text[n..] == rest[k..];
    LineOfAfterMarker(m.end, rest[..k]);
    assert rest == "" ==> rest[..k] == "";
    LineOfNothing();
    TailLine(m, LineOf(rest[..k]), offset);
    ScanStep(m, text, n, offset, None, ScanLine(m, LineOf(text[..n]), offset, None));
  }

  lemma LineOfNothing()
    ensures LineOf("") == ""
  {
  }

  /** `TailOfBlock` when the END is on the first line. */
  lemma TailOfFirstLine(m: Markers, text: string, offset: nat, fence: Option<Fence>, e: nat, other: nat, n: nat)
    requires m.WellChosen() && text != "" && n == FirstSegment(text)
    requires ScanLine(m, LineOf(text[..n]), offset, fence).ends == [offset + e]
    requires Scan(m, text[n..], offset + n, None).begins == [] && Scan(m, text[n..], offset + n, None).ends == []
    ensures HasAt(text, e, m.end)
    ensures Scan(m, AfterLine(text[e + |m.end|..]), other, None) == Scan(m, text[n..], offset + n, None)
  {
    hide Scan, ScanLine, LineOf, FirstSegment, HasAt, Markers.WellChosen, AfterLine;
    MarkersAreMarkers(m);
    var line := LineOf(text[..n]);
    LineOfPrefix(text[..n]);
    ScanLineShape(m, line, offset, fence);
    HasAtBounds(line, e, m.end);
    HasAtPrefix(line, text, e, m.end);
    HasAtChar(text, e, m.end, |m.end| - 1);
    AfterLineIs(text, n, e + |m.end|);
    ScanElsewhere(m, text[n..], offset + n, other, None);
  }

  /** Behind the only END of a file nothing more is recorded, and the fences close as in the file. */
  lemma {:induction false} TailOfBlock(m: Markers, text: string, offset: nat, fence: Option<Fence>, e: nat, other: nat)
    requires m.WellChosen()
    requires var scan := Scan(m, text, offset, fence);
             scan.ends == [offset + e] && forall b :: b in scan.begins ==> b < offset + e
    ensures HasAt(text, e, m.end)
    ensures Scan(m, AfterLine(text[e + |m.end|..]), other, None) ==
            ManagedBlockScan([], [], Scan(m, text, offset, fence).fence)
    decreases |text|
  {
    hide ScanLine, LineOf, FirstSegment, HasAt, AfterLine;
    ScanNothing(m, offset, fence);
    hide Scan;
    var n := FirstSegment(text);
    var here := ScanLine(m, LineOf(text[..n]), offset, fence);
    var later := Scan(m, text[n..], offset + n, here.fence);
    ScanStep(m, text, n, offset, fence, here);
    ScanLineShape(m, LineOf(text[..n]), offset, fence);
    ScanLineWithin(m, text[..n], offset, fence);
    ScanWithin(m, text[n..], offset + n, here.fence);
    assert here.begins + later.begins == Scan(m, text, offset, fence).begins;
    assert forall b :: b in later.begins ==> b in here.begins + later.begins;
    assert here.ends + later.ends == [offset + e];
    if here.ends != [] {
      assert |later.ends| == 0 && (here.ends + later.ends)[0] == here.ends[0];
      assert here.ends[0] in here.ends;
      assert forall b :: b !in later.begins;
      EmptyOfNoMember(later.begins);
      TailOfFirstLine(m, text, offset, fence, e, other, n);
    } else {
      assert here.ends + later.ends == later.ends;
      assert later.ends[0] in later.ends;
      TailOfBlock(m, text[n..], offset + n, here.fence, e - n, other);
      HasAtShift(text, n, e, m.end);
    }
  }

  lemma EmptyOfNoMember(s: seq<nat>)
    requires forall x :: x !in s
    ensures s == []
  {
    if s != [] { NonEmptyHasMember(s); }
  }

  lemma NonEmptyHasMember(s: seq<nat>)
    requires s != []
    ensures s[0] in s
  {
  }

  lemma HasAtShift(text: string, n: nat, e: nat, needle: string)
    requires n <= e && n <= |text| && HasAt(text[n..], e - n, needle)
    ensures HasAt(text, e, needle)
    ensures text[n..][e - n + |needle|..] == text[e + |needle|..]
  {
    assert text[e..e + |needle|] == text[n..][e - n..e - n + |needle|];
  }

  lemma HasAtHere(s: string, i: nat, needle: string)
    requires i + |needle| <= |s| && s[i..i + |needle|] == needle
    ensures HasAt(s, i, needle)
  {
  }

  /** The lines after a position of the first line are the lines after the first line. */
  lemma AfterLineIs(text: string, n: nat, k: nat)
    requires text != "" && n == FirstSegment(text) && 0 < k <= n
    requires text[k - 1] != '\n'
    ensures AfterLine(text[k..]) == text[n..]
  {
    var rest := text[k..];
    if rest == "" {
      assert n == |text|;
    } else {
      assert n < |text| ==> text[n - 1] == '\n';
      if text[n - 1] == '\n' {
        assert rest[..n - k - 1] == text[k..n - 1];
        assert forall i :: 0 <= i < n - 1 ==> text[i] == text[..n - 1][i] != '\n';
        FirstSegmentIs(rest, n - k);
      } else {
        assert n == |text|;
        assert forall i :: 0 <= i < n ==> text[i] != '\n' by {
          assert forall i :: 0 <= i < n - 1 ==> text[i] == text[..n - 1][i] != '\n';
        }
      }
      assert rest[FirstSegment(rest)..] == text[n..];
    }
  }

  // ---- What a fence is ----------------------------------------------------------------

  /** From `i` on, after nothing but whitespace, the line has a run of exactly `n` of `c`. */
  predicate HasRunAt(line: string, i: nat, n: nat, c: char)
  {
    && i + n <= |line| && IsBlank(line[..i])
    && (forall j :: i <= j < i + n ==> line[j] == c)
    && (i + n < |line| ==> line[i + n] != c)
  }

  lemma {:induction false} TrimStartSkipsBlanks(line: string) returns (i: nat)
    ensures i <= |line| && IsBlank(line[..i]) && TrimStart(line) == line[i..]
  {
    if line != "" && IsWhitespace(line[0]) {
      i := TrimStartSkipsBlanks(line[1..]);
      assert line[..i + 1] == [line[0]] + line[1..][..i] && line[i + 1..] == line[1..][i..];
      i := i + 1;
    } else {
      i := 0;
    }
  }

  lemma FirstTextIsUnique(line: string, i: nat, k: nat)
    requires i <= |line| && IsBlank(line[..i]) && (i < |line| ==> !IsWhitespace(line[i]))
    requires k < |line| && IsBlank(line[..k]) && !IsWhitespace(line[k])
    ensures k == i
  {
    hide IsWhitespace;
    assert forall j :: 0 <= j < k ==> line[..k][j] == line[j];
    assert forall j :: 0 <= j < i ==> line[..i][j] == line[j];
  }

  lemma TrimStartIsTheRest(line: string) returns (i: nat)
    ensures i <= |line| && IsBlank(line[..i]) && TrimStart(line) == line[i..]
    ensures forall k: nat :: k < |line| && IsBlank(line[..k]) && !IsWhitespace(line[k]) ==> k == i
  {
    hide IsWhitespace, IsBlank, TrimStart;
    i := TrimStartSkipsBlanks(line);
    if i < |line| { assert TrimStart(line)[0] == line[i]; }
    forall k: nat | k < |line| && IsBlank(line[..k]) && !IsWhitespace(line[k]) ensures k == i
    {
      FirstTextIsUnique(line, i, k);
    }
  }

  lemma {:induction false} RunIsExact(s: string, c: char)
    ensures var n := RunLength(s, c);
            n <= |s| && (forall j :: 0 <= j < n ==> s[j] == c) && (n < |s| ==> s[n] != c)
  {
    if s != "" && s[0] == c { RunIsExact(s[1..], c); }
  }

  lemma RunIsTheOnly(s: string, c: char, n: nat)
    requires n <= |s| && (forall j :: 0 <= j < n ==> s[j] == c) && (n < |s| ==> s[n] != c)
    ensures RunLength(s, c) == n
  {
    RunIsExact(s, c);
  }

  /** A line is a fence of `n` marks `c` exactly when, after whitespace, it has a run of exactly that, three or more. */
  lemma FenceIff(line: string, c: char, n: nat)
    ensures CodeFence(TrimStart(line)) == Some(Fence(c, n)) <==>
            3 <= n && (c == '`' || c == '~') && exists i: nat :: HasRunAt(line, i, n, c)
  {
    hide TrimStart, IsBlank, IsWhitespace, RunLength;
    var start := TrimStartIsTheRest(line);
    var trimmed := line[start..];
    if 3 <= n && (c == '`' || c == '~') && exists i: nat :: HasRunAt(line, i, n, c) {
      var i: nat :| HasRunAt(line, i, n, c);
      MarksAreNoWhitespace();
      assert line[i] == c;
      assert i == start;
      assert forall j :: 0 <= j < n ==> trimmed[j] == line[start + j];
      RunIsTheOnly(trimmed, c, n);
    }
    if CodeFence(trimmed) == Some(Fence(c, n)) {
      RunIsExact(trimmed, c);
      assert forall j :: start <= j < start + n ==> line[j] == trimmed[j - start];
      assert n < |trimmed| ==> line[start + n] == trimmed[n];
      assert HasRunAt(line, start, n, c);
    }
  }

  lemma MarksAreNoWhitespace()
    ensures !IsWhitespace('`') && !IsWhitespace('~')
  {
  }

  /** The line is a bare run of at least `n` marks `c`, whitespace aside. */
  ghost predicate IsBareRun(line: string, c: char, n: nat)
  {
    exists i: nat, k: nat :: n <= k && HasRunAt(line, i, k, c) && IsBlank(line[i + k..])
  }

  /** A bare run is a fence of its mark with nothing but whitespace after it. */
  lemma BareRunIff(line: string, c: char, n: nat)
    requires 3 <= n && (c == '`' || c == '~')
    ensures var here := CodeFence(TrimStart(line));
            IsBareRun(line, c, n) <==>
            here.Some? && here.value.ch == c && n <= here.value.run && IsBlank(TrimStart(line)[here.value.run..])
  {
    hide TrimStart, IsBlank, IsWhitespace, RunLength, HasRunAt, CodeFence;
    var start := TrimStartIsTheRest(line);
    var here := CodeFence(TrimStart(line));
    if here.Some? && here.value.ch == c && n <= here.value.run {
      FenceIff(line, c, here.value.run);
      var i: nat :| HasRunAt(line, i, here.value.run, c);
      RunStartsThere(line, start, i, here.value.run, c);
      assert TrimStart(line)[here.value.run..] == line[i + here.value.run..];
    }
    if IsBareRun(line, c, n) {
      var k := BareRunIsAFence(line, c, n, start);
    }
  }

  lemma BareRunIsAFence(line: string, c: char, n: nat, start: nat) returns (k: nat)
    requires 3 <= n && (c == '`' || c == '~') && IsBareRun(line, c, n) && start <= |line| && TrimStart(line) == line[start..]
    requires forall k: nat :: k < |line| && IsBlank(line[..k]) && !IsWhitespace(line[k]) ==> k == start
    ensures n <= k && CodeFence(TrimStart(line)) == Some(Fence(c, k)) && IsBlank(TrimStart(line)[k..])
  {
    hide TrimStart, IsBlank, IsWhitespace, RunLength, CodeFence;
    var i: nat, length: nat :| n <= length && HasRunAt(line, i, length, c) && IsBlank(line[i + length..]);
    k := length;
    hide HasRunAt;
    FenceIff(line, c, k);
    RunStartsThere(line, start, i, k, c);
    assert TrimStart(line)[k..] == line[i + k..];
  }

  /** An open fence is closed exactly by a bare run of its own mark that is no shorter, and nothing else changes it. */
  lemma FenceClosesIff(fence: Fence, line: string)
    requires 3 <= fence.run && (fence.ch == '`' || fence.ch == '~')
    ensures FenceAfter(Some(fence), line) == if IsBareRun(line, fence.ch, fence.run) then None else Some(fence)
  {
    hide TrimStart, IsBlank, CodeFence, IsBareRun;
    BareRunIff(line, fence.ch, fence.run);
  }

  lemma RunStartsThere(line: string, start: nat, i: nat, n: nat, c: char)
    requires HasRunAt(line, i, n, c) && 3 <= n && (c == '`' || c == '~')
    requires forall k: nat :: k < |line| && IsBlank(line[..k]) && !IsWhitespace(line[k]) ==> k == start
    ensures i == start && i + n <= |line|
  {
    hide IsBlank, IsWhitespace;
    MarksAreNoWhitespace();
    assert line[i] == c;
  }
}
