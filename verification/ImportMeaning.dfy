/** What import makes of any file, said of its lines: which fence or block a line stands in, and what it proposes there. */
module ImportMeaning {
  import opened Wrappers
  import opened AuthorityLevels
  import opened Text
  import opened ResourceUri
  import opened FactLog
  import opened ManagedBlock
  import opened RoundTrip
  import opened BlockImport
  import Splice

  // ---- Where a line stands ------------------------------------------------------------

  ghost predicate Holds(line: string, needle: string) { exists i :: HasAt(line, i, needle) }

  /** A line of three backticks or more, whitespace aside, that holds no sentinel. */
  ghost predicate IsFence(line: string)
  {
    !Holds(line, BEGIN_SENTINEL) && !Holds(line, END_SENTINEL) && "```" <= Trim(line)
  }

  /** What the fence line says after its backticks. */
  function InfoOf(line: string): string { Trim(Splice.AfterRun(Trim(line), '`')) }

  ghost function FencesIn(lines: seq<string>): nat
  {
    if lines == [] then 0 else FencesIn(lines[..|lines| - 1]) + if IsFence(lines[|lines| - 1]) then 1 else 0
  }

  /** After these lines a code fence is open: they hold an odd number of fence lines. */
  ghost predicate IsFenced(lines: seq<string>) { FencesIn(lines) % 2 == 1 }

  /** The last of the fence lines opens a `dent8` fence. */
  ghost predicate LastFenceIsDent8(lines: seq<string>)
  {
    exists i :: 0 <= i < |lines| && IsFence(lines[i]) && InfoOf(lines[i]) == "dent8" && forall j :: i < j < |lines| ==> !IsFence(lines[j])
  }

  /** Of the lines that hold a sentinel, the last holds BEGIN. */
  ghost predicate IsInBlock(lines: seq<string>)
  {
    exists i ::
      && 0 <= i < |lines| && Holds(lines[i], BEGIN_SENTINEL)
      && forall j :: i < j < |lines| ==> Holds(lines[j], BEGIN_SENTINEL) || !Holds(lines[j], END_SENTINEL)
  }

  lemma FoundIffHeld(line: string, needle: string)
    ensures Find(line, needle).Some? <==> Holds(line, needle)
  {
    hide HasAt;
  }

  lemma InBlockGoesOn(lines: seq<string>, line: string)
    ensures IsInBlock(lines + [line]) <==>
            Holds(line, BEGIN_SENTINEL) || (IsInBlock(lines) && !Holds(line, END_SENTINEL))
  {
    hide Holds;
    var all := lines + [line];
    if Holds(line, BEGIN_SENTINEL) { assert all[|lines|] == line; }
    if IsInBlock(lines) && !Holds(line, END_SENTINEL) {
      var i :| 0 <= i < |lines| && Holds(lines[i], BEGIN_SENTINEL)
               && forall j :: i < j < |lines| ==> Holds(lines[j], BEGIN_SENTINEL) || !Holds(lines[j], END_SENTINEL);
      assert all[i] == lines[i];
    }
    if IsInBlock(all) && !Holds(line, BEGIN_SENTINEL) {
      var i :| 0 <= i < |all| && Holds(all[i], BEGIN_SENTINEL)
               && forall j :: i < j < |all| ==> Holds(all[j], BEGIN_SENTINEL) || !Holds(all[j], END_SENTINEL);
      assert all[|lines|] == line && i < |lines| && lines[i] == all[i];
      assert forall j :: i < j < |lines| ==> lines[j] == all[j];
    }
  }

  lemma FencesGoOn(lines: seq<string>, line: string)
    ensures FencesIn(lines + [line]) == FencesIn(lines) + if IsFence(line) then 1 else 0
    ensures LastFenceIsDent8(lines + [line]) <==> if IsFence(line) then InfoOf(line) == "dent8" else LastFenceIsDent8(lines)
  {
    hide IsFence, InfoOf;
    var all := lines + [line];
    assert all[..|lines|] == lines && all[|lines|] == line;
    if LastFenceIsDent8(lines) {
      var i :| 0 <= i < |lines| && IsFence(lines[i]) && InfoOf(lines[i]) == "dent8" && forall j :: i < j < |lines| ==> !IsFence(lines[j]);
      assert all[i] == lines[i];
    }
    if LastFenceIsDent8(all) {
      var i :| 0 <= i < |all| && IsFence(all[i]) && InfoOf(all[i]) == "dent8" && forall j :: i < j < |all| ==> !IsFence(all[j]);
      if i < |lines| {
        assert lines[i] == all[i] && !IsFence(all[|lines|]);
        assert forall j :: i < j < |lines| ==> lines[j] == all[j];
      }
    }
  }

  /** The importer's three flags after some lines, in terms of these lines. */
  ghost predicate Knows(mode: Mode, lines: seq<string>)
  {
    && (mode.managed <==> IsInBlock(lines))
    && (mode.dent8Fence <==> IsFenced(lines) && LastFenceIsDent8(lines))
    && (mode.otherFence <==> IsFenced(lines) && !LastFenceIsDent8(lines))
  }

  lemma ModeGoesOn(mode: Mode, lines: seq<string>, line: string)
    requires Knows(mode, lines)
    ensures Knows(ModeAfter(mode, line), lines + [line])
  {
    hide Find, Trim, Splice.AfterRun, BEGIN_SENTINEL, END_SENTINEL, Holds, IsInBlock, LastFenceIsDent8;
    FoundIffHeld(line, BEGIN_SENTINEL);
    FoundIffHeld(line, END_SENTINEL);
    InBlockGoesOn(lines, line);
    FencesGoOn(lines, line);
  }

  /** Where the importer takes itself to be is where the lines so far put it. */
  lemma {:induction false} ModeIsKnown(lines: seq<string>)
    ensures Knows(ModeThrough(OUTSIDE, lines), lines)
  {
    hide ModeAfter, Knows, ModeThrough, ProposalsOf, SkipsOf;
    if lines == [] {
      OutsideIsKnown();
    } else {
      var front, last := lines[..|lines| - 1], lines[|lines| - 1];
      ModeIsKnown(front);
      OneLineMore(front, last);
      ModeGoesOn(ModeThrough(OUTSIDE, front), front, last);
      assert lines == front + [last];
    }
  }

  lemma OutsideIsKnown()
    ensures Knows(ModeThrough(OUTSIDE, []), [])
  {
    hide Holds;
  }

  lemma OneLineOn(mode: Mode, n: nat, line: string)
    ensures ModeThrough(mode, [line]) == ModeAfter(mode, line)
    ensures var found := YieldOf(mode, line);
            && ProposalsOf(mode, n, [line]) == (if found.Proposes? then [(n, found.proposal)] else [])
            && SkipsOf(mode, n, [line]) == (if found.Skips? then [(n, found.reason)] else [])
  {
    hide ModeAfter, YieldOf;
    assert [line][1..] == [];
    assert ModeThrough(ModeAfter(mode, line), []) == ModeAfter(mode, line);
    assert ProposalsOf(ModeAfter(mode, line), n + 1, []) == [] && SkipsOf(ModeAfter(mode, line), n + 1, []) == [];
  }

  lemma OneLineMore(front: seq<string>, last: string)
    ensures var mode, all := ModeThrough(OUTSIDE, front), front + [last];
            var found := YieldOf(mode, last);
            && ModeThrough(OUTSIDE, all) == ModeAfter(mode, last)
            && ProposalsOf(OUTSIDE, 1, all) ==
                 ProposalsOf(OUTSIDE, 1, front) + (if found.Proposes? then [(|front| + 1, found.proposal)] else [])
            && SkipsOf(OUTSIDE, 1, all) ==
                 SkipsOf(OUTSIDE, 1, front) + (if found.Skips? then [(|front| + 1, found.reason)] else [])
  {
    hide *;
    ProposalsCompose(OUTSIDE, 1, front, [last]);
    OneLineOn(ModeThrough(OUTSIDE, front), |front| + 1, last);
  }

  // ---- What a line proposes -----------------------------------------------------------

  /** A line with something on it that is neither a fence nor holds a sentinel. */
  ghost predicate IsText(line: string)
  {
    !Holds(line, BEGIN_SENTINEL) && !Holds(line, END_SENTINEL) && !("```" <= Trim(line)) && !IsBlank(line)
  }

  /** Behind these lines, the line proposes this: any line of a `dent8` fence itself, a receipt where no fence is open. */
  ghost predicate Offers(before: seq<string>, line: string, proposal: Proposal)
  {
    && IsText(line)
    && if IsFenced(before) then LastFenceIsDent8(before) && proposal == Fenced(Trim(line))
       else match ParseReceiptLine(line)
            case Recovered(receipt) => proposal == if IsInBlock(before) then FromBlock(receipt) else Inline(receipt)
            case _ => false
  }

  /** Behind these lines, the line is reported as left out, for this reason. */
  ghost predicate IsReported(before: seq<string>, line: string, reason: SkipReason)
  {
    && IsText(line) && !IsFenced(before)
    && match ParseReceiptLine(line)
       case Recovered(_) => false
       case Malformed => reason == MalformedReceipt
       case NotAFact => !IsInBlock(before) && reason == if Holds(line, SCHEME) then BareReference else FreeProse
  }

  lemma {:induction false} TrimStartIsNothingIff(s: string)
    ensures TrimStart(s) == "" <==> IsBlank(s)
  {
    if s != "" {
      if IsWhitespace(s[0]) { TrimStartIsNothingIff(s[1..]); }
      assert s == [s[0]] + s[1..];
    }
  }

  lemma {:induction false} TrimEndKeepsText(s: string)
    requires s != "" && !IsWhitespace(s[0])
    ensures TrimEnd(s) != ""
  {
    if IsWhitespace(s[|s| - 1]) { TrimEndKeepsText(s[..|s| - 1]); }
  }

  lemma TrimIsNothingIff(s: string)
    ensures Trim(s) == "" <==> IsBlank(s)
  {
    hide IsWhitespace, IsBlank;
    TrimStartIsNothingIff(s);
    if TrimStart(s) != "" { TrimEndKeepsText(TrimStart(s)); }
  }

  lemma YieldIsSaid(mode: Mode, before: seq<string>, line: string, proposal: Proposal, reason: SkipReason)
    requires Knows(mode, before)
    ensures YieldOf(mode, line) == Proposes(proposal) <==> Offers(before, line, proposal)
    ensures YieldOf(mode, line) == Skips(reason) <==> IsReported(before, line, reason)
  {
    hide Find, Trim, IsBlank, ParseReceiptLine, BEGIN_SENTINEL, END_SENTINEL, SCHEME, Holds, IsInBlock, IsFenced, LastFenceIsDent8;
    FoundIffHeld(line, BEGIN_SENTINEL);
    FoundIffHeld(line, END_SENTINEL);
    FoundIffHeld(line, SCHEME);
    TrimIsNothingIff(line);
  }

  /** Import proposes exactly what the lines of the file offer where they stand, and reports exactly the lines it should. */
  lemma {:induction false} ImportIsOfTheLines(lines: seq<string>, k: nat, proposal: Proposal, reason: SkipReason)
    ensures (k, proposal) in ProposalsOf(OUTSIDE, 1, lines) <==>
              1 <= k <= |lines| && Offers(lines[..k - 1], lines[k - 1], proposal)
    ensures (k, reason) in SkipsOf(OUTSIDE, 1, lines) <==>
              1 <= k <= |lines| && IsReported(lines[..k - 1], lines[k - 1], reason)
  {
    hide ModeAfter, YieldOf, Offers, IsReported, ModeThrough, Knows;
    if lines != [] {
      hide ProposalsOf, SkipsOf;
      var n := |lines| - 1;
      var front, last := lines[..n], lines[n];
      ImportIsOfTheLines(front, k, proposal, reason);
      ModeIsKnown(front);
      OneLineMore(front, last);
      assert lines == front + [last];
      YieldIsSaid(ModeThrough(OUTSIDE, front), front, last, proposal, reason);
      if 1 <= k <= n { assert front[..k - 1] == lines[..k - 1] && front[k - 1] == lines[k - 1]; }
    }
  }

  /** The numbers rise strictly, from `n` on. */
  predicate IsRising(proposals: seq<(nat, Proposal)>, n: nat)
  {
    && (forall i :: 0 <= i < |proposals| ==> n <= proposals[i].0)
    && forall i, j :: 0 <= i < j < |proposals| ==> proposals[i].0 < proposals[j].0
  }

  lemma OneInFront(rest: seq<(nat, Proposal)>, n: nat, proposal: Proposal)
    requires IsRising(rest, n + 1)
    ensures IsRising(rest, n) && IsRising([(n, proposal)] + rest, n)
  {
    var all := [(n, proposal)] + rest;
    assert forall i :: 0 < i < |all| ==> all[i] == rest[i - 1];
  }

  /** Line by line: no line offers two proposals, and they come in the order of their lines. */
  lemma {:induction false} ProposalsAreInOrder(mode: Mode, n: nat, lines: seq<string>)
    ensures IsRising(ProposalsOf(mode, n, lines), n)
    decreases |lines|
  {
    hide ModeAfter, YieldOf, IsRising;
    if lines == [] {
      NoneRise(n);
    } else {
      var rest := ProposalsOf(ModeAfter(mode, lines[0]), n + 1, lines[1..]);
      ProposalsAreInOrder(ModeAfter(mode, lines[0]), n + 1, lines[1..]);
      var found := YieldOf(mode, lines[0]);
      OneInFront(rest, n, if found.Proposes? then found.proposal else Fenced(""));
      assert [] + rest == rest;
    }
  }

  lemma NoneRise(n: nat)
    ensures IsRising([], n)
  {
  }

  // ---- Facts written by hand ----------------------------------------------------------

  lemma {:induction false} TrimStartOf(space: string, rest: string)
    requires IsBlank(space) && rest != "" && !IsWhitespace(rest[0])
    ensures TrimStart(space + rest) == rest
  {
    if space == "" {
      assert space + rest == rest;
    } else {
      assert (space + rest)[1..] == space[1..] + rest;
      TrimStartOf(space[1..], rest);
    }
  }

  /** A value without quotes: it starts and ends in text, is no JSON string, and opens no receipt. */
  predicate IsPlainValue(value: string)
  {
    && value != "" && !IsWhitespace(value[0]) && !IsWhitespace(value[|value| - 1])
    && value[0] != '"' && Find(value, RECEIPT_COMMENT_PREFIX) == None
  }

  /** It stands for itself, or for what follows the mark of raw JSON. */
  function PlainText(value: string): string { if "json:" <= value then value[5..] else value }

  lemma PlainValueReads(parsed: Parsed, value: string)
    requires IsPlainValue(value)
    ensures ReadRegion(parsed, value) == Recovered(Receipt(parsed.kind, parsed.key, parsed.pred, PlainText(value), None, None))
  {
    hide Find, FindLast, RECEIPT_COMMENT_PREFIX, IsWhitespace, HasAt, Trim;
    TrimOfTight(value);
    NoHintsInNothing();
  }

  lemma NoHintsInNothing()
    ensures ParseMetaHints("") == Hints(None, None)
  {
  }

  /** A line written by hand, `<anything> <URI> <no equals sign> = <value>`, is read as that fact with that value, without hints. */
  lemma HandWrittenLineReads(pre: string, kind: string, key: string, pred: string, gap: string, space: string, value: string)
    requires kind != "" && key != "" && pred != "" && IsPlainValue(value) && IsBlank(space)
    requires gap != "" && IsUriTerminator(gap[0]) && '=' !in gap
    requires forall i :: 0 <= i < |pre| ==> !HasAt(pre + (ResourceUri.ResourceUri(kind, key, pred) + (gap + "=" + (space + value))), i, SCHEME)
    ensures ParseReceiptLine(pre + (ResourceUri.ResourceUri(kind, key, pred) + (gap + "=" + (space + value))))
         == Recovered(Receipt(kind, key, pred, PlainText(value), None, None))
  {
    hide ResourceUri.ResourceUri, ParseResourceUri, ReadRegion, IsUriTerminator, IsWhitespace, SCHEME, IndexOf;
    hide TokenLength, TrimStart, IsBlank;
    hide ParseReceiptLine, IsPlainValue, Find, HasAt;
    var uri, after := ResourceUri.ResourceUri(kind, key, pred), gap + "=" + (space + value);
    var line := pre + (uri + after);
    UriEnds(kind, key, pred, after);
    FoundAtTheFront(pre, uri + after);
    ResourceUriReadsBack(kind, key, pred);
    IndexOfFirst(gap, '=', space + value);
    PlainStartsInText(value);
    TrimStartOf(space, value);
    ReadsFrom(pre, uri, gap, space, value, Parsed(kind, key, pred));
    PlainValueReads(Parsed(kind, key, pred), value);
  }

  lemma PlainStartsInText(value: string)
    requires IsPlainValue(value)
    ensures value != "" && !IsWhitespace(value[0])
  {
    hide IsWhitespace, Find;
  }

  /** Parsing, step by step. */
  lemma ReadsFrom(pre: string, uri: string, gap: string, space: string, value: string, parsed: Parsed)
    requires Find(pre + (uri + (gap + "=" + (space + value))), SCHEME) == Some(|pre|)
    requires TokenLength(uri + (gap + "=" + (space + value))) == |uri| && ParseResourceUri(uri) == Some(parsed)
    requires IndexOf(gap + "=" + (space + value), '=') == Some(|gap|) && TrimStart(space + value) == value
    ensures ParseReceiptLine(pre + (uri + (gap + "=" + (space + value)))) == ReadRegion(parsed, value)
  {
    hide ParseResourceUri, ReadRegion, SCHEME, IndexOf, TokenLength, TrimStart, Find;
    var after := gap + "=" + (space + value);
    assert (pre + (uri + after))[|pre|..] == uri + after;
    assert (uri + after)[..|uri|] == uri && (uri + after)[|uri|..] == after;
    assert after[|gap| + 1..] == space + value;
  }

  lemma FoundAtTheFront(pre: string, rest: string)
    requires SCHEME <= rest && forall i :: 0 <= i < |pre| ==> !HasAt(pre + rest, i, SCHEME)
    ensures Find(pre + rest, SCHEME) == Some(|pre|)
  {
    assert HasAt(pre + rest, |pre|, SCHEME) by { hide SCHEME; assert (pre + rest)[|pre|..|pre| + |SCHEME|] == rest[..|SCHEME|]; }
    hide HasAt;
  }

  lemma UriEnds(kind: string, key: string, pred: string, after: string)
    requires after != "" && IsUriTerminator(after[0])
    ensures TokenLength(ResourceUri.ResourceUri(kind, key, pred) + after) == |ResourceUri.ResourceUri(kind, key, pred)|
    ensures SCHEME <= ResourceUri.ResourceUri(kind, key, pred) + after
  {
    var fact := ContextFact("", kind, key, pred, Redacted, Low, None, false, 0, "");
    UriCharacters(fact);
    UriStartsWithScheme(fact);
    hide ContextFact.Uri, IsUriTerminator, IsUriChar;
    var uri := fact.Uri();
    forall i | 0 <= i < |uri| ensures !IsUriTerminator(uri[i]) { UriCharEndsNothing(uri[i]); }
    TokenStops(uri, after);
  }
}
