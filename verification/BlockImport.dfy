/**
 What import reads of a rendered block, alone or among the lines of a file: each fact from its own line and nothing
 else. Every lemma at the end of a section is exact.
 */
module BlockImport {
  import opened Wrappers
  import opened Text
  import opened ManagedBlock
  import opened BlockLines
  import opened RoundTrip
  import ResourceUri
  import Splice

  const INSIDE := Mode(true, false, false)

  predicate IsFenceFree(mode: Mode) { !mode.dent8Fence && !mode.otherFence }

  /** What import is to propose: each written fact, at the number of its line; `n` is the number of the next line. */
  function WrittenAt(facts: seq<ContextFact>, current: Option<string>, n: nat): seq<(nat, Proposal)>
    decreases |facts|
  {
    if facts == [] then []
    else if facts[0].value.Redacted? then WrittenAt(facts[1..], current, n)
    else
      var k := n + |HeadingLines(facts[0], current)|;
      [(k, FromBlock(Expected(facts[0])))] + WrittenAt(facts[1..], Some(facts[0].Subject()), k + 1)
  }

  /** The lines propose that, and nothing on them is skipped. */
  predicate ReadsAs(mode: Mode, n: nat, lines: seq<string>, written: seq<(nat, Proposal)>)
  {
    ProposalsOf(mode, n, lines) == written && SkipsOf(mode, n, lines) == []
  }

  // ---- Runs of lines ------------------------------------------------------------------

  lemma {:induction false} ProposalsCompose(mode: Mode, n: nat, a: seq<string>, b: seq<string>)
    ensures ProposalsOf(mode, n, a + b) == ProposalsOf(mode, n, a) + ProposalsOf(ModeThrough(mode, a), n + |a|, b)
    ensures SkipsOf(mode, n, a + b) == SkipsOf(mode, n, a) + SkipsOf(ModeThrough(mode, a), n + |a|, b)
    ensures ModeThrough(mode, a + b) == ModeThrough(ModeThrough(mode, a), b)
    decreases |a|
  {
    hide YieldOf, ModeAfter;
    if a == [] {
      assert a + b == b;
    } else {
      assert (a + b)[1..] == a[1..] + b;
      ProposalsCompose(ModeAfter(mode, a[0]), n + 1, a[1..], b);
    }
  }

  predicate AreFrom(numbered: seq<(nat, Proposal)>, from: nat, end: nat)
  {
    forall i :: 0 <= i < |numbered| ==> from <= numbered[i].0 < end
  }

  lemma {:induction false} ProposalsAreFrom(mode: Mode, n: nat, lines: seq<string>)
    ensures AreFrom(ProposalsOf(mode, n, lines), n, n + |lines|)
    decreases |lines|
  {
    hide YieldOf, ModeAfter;
    if lines != [] { ProposalsAreFrom(ModeAfter(mode, lines[0]), n + 1, lines[1..]); }
  }

  lemma {:induction false} WrittenAreFrom(facts: seq<ContextFact>, current: Option<string>, n: nat)
    ensures AreFrom(WrittenAt(facts, current, n), n, n + |BodyLines(facts, current)|)
    decreases |facts|
  {
    hide Expected, FactLine, EncodeBlockValue, HeadingLines, ContextFact.Subject;
    if facts != [] {
      OnlyRedactedIsSkipped(facts[0].value);
      if facts[0].value.Redacted? {
        WrittenAreFrom(facts[1..], current, n);
      } else {
        WrittenAreFrom(facts[1..], Some(facts[0].Subject()), n + |HeadingLines(facts[0], current)| + 1);
      }
    }
  }

  /** Numbers tell where one sequence ends and the next begins. */
  lemma {:induction false} NumbersSplit(
    a: seq<(nat, Proposal)>, b: seq<(nat, Proposal)>, x: seq<(nat, Proposal)>, y: seq<(nat, Proposal)>, m: nat)
    requires a + b == x + y
    requires forall i :: 0 <= i < |a| ==> a[i].0 < m
    requires forall i :: 0 <= i < |x| ==> x[i].0 < m
    requires forall i :: 0 <= i < |b| ==> m <= b[i].0
    requires forall i :: 0 <= i < |y| ==> m <= y[i].0
    ensures a == x && b == y
    decreases |a|
  {
    if a == [] {
      assert b == x + y;
      HeadOfHigh(x, y, m);
    } else if x == [] {
      HeadOfHigh(a, b, m);
    } else {
      assert a[0] == (a + b)[0] == (x + y)[0] == x[0];
      assert a[1..] + b == (a + b)[1..] && x[1..] + y == (x + y)[1..];
      NumbersSplit(a[1..], b, x[1..], y, m);
    }
  }

  lemma HeadOfHigh(x: seq<(nat, Proposal)>, y: seq<(nat, Proposal)>, m: nat)
    requires forall i :: 0 <= i < |x + y| ==> m <= (x + y)[i].0
    ensures x != [] ==> m <= x[0].0
  {
    if x != [] { assert (x + y)[0] == x[0]; }
  }

  lemma CutFront(a: seq<(nat, Proposal)>, b: seq<(nat, Proposal)>, x: seq<(nat, Proposal)>)
    requires a + b == a + x
    ensures b == x
  {
    assert b == (a + b)[|a|..] && x == (a + x)[|a|..];
  }

  lemma OneLineRuns(mode: Mode, n: nat, line: string)
    ensures ModeThrough(mode, [line]) == ModeAfter(mode, line)
    ensures ProposalsOf(mode, n, [line]) == if YieldOf(mode, line).Proposes? then [(n, YieldOf(mode, line).proposal)] else []
    ensures SkipsOf(mode, n, [line]) == if YieldOf(mode, line).Skips? then [(n, YieldOf(mode, line).reason)] else []
  {
    hide ModeAfter, YieldOf;
    assert [line][1..] == [];
    assert ModeThrough(ModeAfter(mode, line), []) == ModeAfter(mode, line);
    assert ProposalsOf(ModeAfter(mode, line), n + 1, []) == [] && SkipsOf(ModeAfter(mode, line), n + 1, []) == [];
  }

  // ---- Single lines -------------------------------------------------------------------

  lemma PrefixStart(s: string, prefix: string)
    requires prefix != ""
    ensures HasPrefix(s, prefix) ==> s != "" && s[0] == prefix[0]
  {
  }

  /** It is no fence line for import. */
  predicate OpensNoFence(line: string) { line != "" ==> !IsWhitespace(line[0]) && line[0] != '`' }

  lemma OpensNone(line: string)
    requires OpensNoFence(line)
    ensures !HasPrefix(Trim(line), "```") && (Trim(line) == "" <==> line == "")
  {
    assert Trim("") == "";
    hide IsWhitespace, Trim;
    if line != "" { TrimKeepsTightStart(line); }
    PrefixStart(Trim(line), "```");
  }

  /** A line is a sentinel line for import when it contains one; BEGIN is looked for first. */
  lemma SentinelLineSwitchesTheMode(mode: Mode, line: string)
    requires !HoldsNoSentinel(line)
    ensures ModeAfter(mode, line) == mode.(managed := Find(line, BEGIN_SENTINEL).Some?)
    ensures YieldOf(mode, line) == Nothing
  {
    hide BEGIN_SENTINEL, END_SENTINEL, Find, ParseReceiptLine, Trim, HasPrefix;
  }

  lemma NothingOnIt()
    ensures HoldsNoSentinel("") && Trim("") == "" && !HasPrefix("", "```")
  {
    NothingIsPlain();
    hide HoldsNoSentinel;
  }

  lemma EmptyLine(mode: Mode)
    ensures ModeAfter(mode, "") == mode && YieldOf(mode, "") == Nothing
  {
    NothingOnIt();
    hide BEGIN_SENTINEL, END_SENTINEL, Find, ParseReceiptLine, Trim, HasPrefix, Splice.AfterRun;
  }

  lemma LineKeepsTheMode(mode: Mode, line: string)
    requires OpensNoFence(line) && HoldsNoSentinel(line)
    ensures ModeAfter(mode, line) == mode
  {
    OpensNone(line);
    hide BEGIN_SENTINEL, END_SENTINEL, Find, Trim, HasPrefix, OpensNoFence, Splice.AfterRun;
  }

  lemma LineIsParsed(mode: Mode, line: string)
    requires IsFenceFree(mode) && line != "" && OpensNoFence(line) && HoldsNoSentinel(line)
    ensures YieldOf(mode, line) ==
            match ParseReceiptLine(line)
            case Recovered(receipt) => Proposes(if mode.managed then FromBlock(receipt) else Inline(receipt))
            case Malformed => Skips(MalformedReceipt)
            case NotAFact =>
              if mode.managed then Nothing else if Find(line, ResourceUri.SCHEME).Some? then Skips(BareReference) else Skips(FreeProse)
  {
    OpensNone(line);
    hide BEGIN_SENTINEL, END_SENTINEL, Find, ParseReceiptLine, Trim, HasPrefix, OpensNoFence, ResourceUri.SCHEME;
  }

  /** Outside every fence a line without a sentinel is read for its receipt. */
  lemma LineIsRead(mode: Mode, line: string)
    requires IsFenceFree(mode) && line != "" && OpensNoFence(line) && HoldsNoSentinel(line)
    ensures ModeAfter(mode, line) == mode
    ensures ParseReceiptLine(line).Recovered? ==>
              YieldOf(mode, line) == Proposes(if mode.managed then FromBlock(ParseReceiptLine(line).receipt)
                                              else Inline(ParseReceiptLine(line).receipt))
    ensures ParseReceiptLine(line).Malformed? ==> YieldOf(mode, line).Skips?
    ensures ParseReceiptLine(line).NotAFact? ==> if mode.managed then YieldOf(mode, line) == Nothing else YieldOf(mode, line).Skips?
  {
    hide *;
    LineKeepsTheMode(mode, line);
    LineIsParsed(mode, line);
  }

  lemma StartsNoFence()
    ensures !IsWhitespace('#') && !IsWhitespace('-')
  {
  }

  lemma WithoutSchemeNotAFact(line: string)
    requires Find(line, ResourceUri.SCHEME) == None
    ensures ParseReceiptLine(line) == NotAFact
  {
    hide Find, ResourceUri.SCHEME, ResourceUri.ParseResourceUri, ReadRegion, TokenLength;
  }

  lemma QuietLineRuns(n: nat, line: string)
    requires IsPlainLine(line) && Find(line, ResourceUri.SCHEME) == None
    ensures ReadsAs(INSIDE, n, [line], []) && ModeThrough(INSIDE, [line]) == INSIDE
  {
    hide HoldsNoSentinel, ParseReceiptLine, ModeAfter, YieldOf, ModeThrough, ProposalsOf, SkipsOf, IsWhitespace, Find, ResourceUri.SCHEME;
    OneLineRuns(INSIDE, n, line);
    if line == "" {
      EmptyLine(INSIDE);
    } else {
      WithoutSchemeNotAFact(line);
      LineIsRead(INSIDE, line);
    }
  }

  // ---- The lines of a block -----------------------------------------------------------

  /** A heading is passed over exactly when its subject is quiet; no heading opens a fence. */
  lemma HeadingRuns(subject: string, n: nat)
    ensures var lines := ["", "### " + subject, ""];
            && (ReadsAs(INSIDE, n, lines, []) && ModeThrough(INSIDE, lines) == INSIDE <==> IsQuietSubject(subject))
            && IsFenceFree(ModeThrough(INSIDE, lines))
  {
    StartsNoFence();
    hide ParseReceiptLine, ModeAfter, YieldOf, ModeThrough, ProposalsOf, SkipsOf, IsWhitespace, Find, BEGIN_SENTINEL, END_SENTINEL;
    var h := "### " + subject;
    EmptyLine(INSIDE);
    EmptyLine(ModeAfter(INSIDE, h));
    OneLineRuns(INSIDE, n, "");
    OneLineRuns(INSIDE, n + 1, h);
    OneLineRuns(ModeAfter(INSIDE, h), n + 2, "");
    ProposalsCompose(INSIDE, n, [""], [h]);
    ProposalsCompose(INSIDE, n, [""] + [h], [""]);
    assert [""] + [h] + [""] == ["", h, ""];
    if HoldsNoSentinel(h) { LineIsRead(INSIDE, h); } else { SentinelLineSwitchesTheMode(INSIDE, h); }
  }

  /** A fact is read from its line exactly in the block, and when the line carries it. */
  lemma FactLineRuns(mode: Mode, fact: ContextFact, n: nat)
    requires IsFenceFree(mode) && IsStored(fact) && !fact.value.Redacted?
    ensures EncodeBlockValue(fact.value).Some?
    ensures var line := FactLine(fact, EncodeBlockValue(fact.value).value);
            && (ProposalsOf(mode, n, [line]) == [(n, FromBlock(Expected(fact)))] <==> mode == INSIDE && IsCarried(fact))
            && (mode == INSIDE && IsCarried(fact) ==> SkipsOf(mode, n, [line]) == [] && ModeThrough(mode, [line]) == INSIDE)
  {
    StartsNoFence();
    StoredIsHashed(fact);
    FactLineSentinels(fact);
    FactLineReadsBackIff(fact);
    hide ParseReceiptLine, ModeAfter, YieldOf, ModeThrough, ProposalsOf, SkipsOf, IsWhitespace, Find, IsStored, RECEIPT_COMMENT_PREFIX;
    hide IsReadableSource, SourceText, ValueText, HoldsNoSentinel, FactLine, EncodeBlockValue, Expected;
    if IsReadableSource(SourceText(fact)) { ReadableIsPlain(SourceText(fact)); }
    var line := FactLine(fact, EncodeBlockValue(fact.value).value);
    FactLineStarts(fact, EncodeBlockValue(fact.value).value);
    OneLineRuns(mode, n, line);
    if HoldsNoSentinel(line) { LineIsRead(mode, line); } else { SentinelLineSwitchesTheMode(mode, line); }
  }

  /** The body is read line by line as written exactly when every fact is exportable. */
  lemma {:induction false} BodyReadsIff(facts: seq<ContextFact>, current: Option<string>, n: nat)
    requires AreNameable(facts) && (current.Some? ==> IsQuietSubject(current.value))
    ensures ReadsAs(INSIDE, n, BodyLines(facts, current), WrittenAt(facts, current, n)) <==> AreExportable(facts)
    ensures AreExportable(facts) ==> ModeThrough(INSIDE, BodyLines(facts, current)) == INSIDE
    decreases |facts|
  {
    hide IsNameable, IsExportable, AreNameable, AreExportable, IsCarried, IsQuietSubject, EncodeBlockValue, FactLine, ReadsAs, ModeThrough;
    hide ContextFact.Subject, Expected, HeadingLines;
    if facts == [] {
      EmptyRuns(n);
      NoFacts();
    } else {
      var fact, rest := facts[0], facts[1..];
      OnlyRedactedIsSkipped(fact.value);
      FirstAndRest(facts);
      if fact.value.Redacted? {
        BodyReadsIff(rest, current, n);
      } else {
        FactReadsIff(fact, current, n, BodyLines(rest, Some(fact.Subject())), rest);
        if IsCarried(fact) && IsQuietSubject(fact.Subject()) {
          BodyReadsIff(rest, Some(fact.Subject()), n + |HeadingLines(fact, current)| + 1);
        }
      }
    }
  }

  lemma NoFacts()
    ensures AreNameable([]) && AreExportable([])
  {
  }

  lemma FirstAndRest(facts: seq<ContextFact>)
    requires facts != [] && AreNameable(facts)
    ensures AreNameable(facts[1..]) && (facts[0].value.Redacted? || IsStored(facts[0]))
    ensures AreExportable(facts) <==>
            (facts[0].value.Redacted? || (IsCarried(facts[0]) && IsQuietSubject(facts[0].Subject()))) && AreExportable(facts[1..])
  {
    hide IsStored, IsOneLine, IsCarried, IsQuietSubject, ContextFact.Subject;
    assert facts[0] in facts && forall fact :: fact in facts <==> fact == facts[0] || fact in facts[1..];
  }

  lemma EmptyRuns(n: nat)
    ensures ReadsAs(INSIDE, n, [], []) && ModeThrough(INSIDE, []) == INSIDE
  {
  }

  lemma HeadingReadsIff(fact: ContextFact, current: Option<string>, n: nat)
    requires current.Some? ==> IsQuietSubject(current.value)
    ensures var heading := HeadingLines(fact, current);
            && (ReadsAs(INSIDE, n, heading, []) && ModeThrough(INSIDE, heading) == INSIDE <==> IsQuietSubject(fact.Subject()))
            && IsFenceFree(ModeThrough(INSIDE, heading))
  {
    hide IsQuietSubject, ReadsAs, ModeThrough, ContextFact.Subject;
    EmptyRuns(n);
    HeadingRuns(fact.Subject(), n);
  }

  /** Heading and line of one fact, with the lines below: exact once the lines below are. */
  lemma FactReadsIff(fact: ContextFact, current: Option<string>, n: nat, below: seq<string>, rest: seq<ContextFact>)
    requires IsStored(fact) && !fact.value.Redacted? && (current.Some? ==> IsQuietSubject(current.value))
    ensures EncodeBlockValue(fact.value).Some?
    ensures var heading, line := HeadingLines(fact, current), FactLine(fact, EncodeBlockValue(fact.value).value);
            var k := n + |heading|;
            var lines, later := heading + ([line] + below), WrittenAt(rest, Some(fact.Subject()), k + 1);
            && (ReadsAs(INSIDE, n, lines, [(k, FromBlock(Expected(fact)))] + later) <==>
                IsCarried(fact) && IsQuietSubject(fact.Subject()) && ReadsAs(INSIDE, k + 1, below, later))
            && (IsCarried(fact) && IsQuietSubject(fact.Subject()) ==> ModeThrough(INSIDE, lines) == ModeThrough(INSIDE, below))
  {
    hide IsStored, IsCarried, IsQuietSubject, EncodeBlockValue, FactLine, ContextFact.Subject, Expected, ModeThrough, ProposalsOf, SkipsOf;
    hide HeadingLines, WrittenAt;
    OnlyRedactedIsSkipped(fact.value);
    var heading, line := HeadingLines(fact, current), FactLine(fact, EncodeBlockValue(fact.value).value);
    var k, x := n + |heading|, (n + |heading|, FromBlock(Expected(fact)));
    var later, mode := WrittenAt(rest, Some(fact.Subject()), k + 1), ModeThrough(INSIDE, heading);
    HeadingReadsIff(fact, current, n);
    FactLineRuns(mode, fact, k);
    ProposalsCompose(INSIDE, n, heading, [line] + below);
    ProposalsCompose(mode, k, [line], below);
    ProposalsAreFrom(INSIDE, n, heading);
    ProposalsAreFrom(mode, k, [line]);
    ProposalsAreFrom(ModeThrough(mode, [line]), k + 1, below);
    WrittenAreFrom(rest, Some(fact.Subject()), k + 1);
    var ph, pl, pb := ProposalsOf(INSIDE, n, heading), ProposalsOf(mode, k, [line]), ProposalsOf(ModeThrough(mode, [line]), k + 1, below);
    Assembled(ph, pl, pb, x, later, k);
  }

  lemma Assembled(
    a: seq<(nat, Proposal)>, b: seq<(nat, Proposal)>, c: seq<(nat, Proposal)>, x: (nat, Proposal), later: seq<(nat, Proposal)>, k: nat)
    requires x.0 == k
    requires forall i :: 0 <= i < |a| ==> a[i].0 < k
    requires forall i :: 0 <= i < |b| ==> b[i].0 == k
    requires forall i :: 0 <= i < |c| ==> k < c[i].0
    requires forall i :: 0 <= i < |later| ==> k < later[i].0
    ensures a + (b + c) == [x] + later <==> a == [] && b == [x] && c == later
  {
    if a + (b + c) == [x] + later {
      assert forall i :: 0 <= i < |b + c| ==> k <= (b + c)[i].0;
      assert forall i :: 0 <= i < |[x] + later| ==> k <= ([x] + later)[i].0;
      NumbersSplit(a, b + c, [], [x] + later, k);
      NumbersSplit(b, c, [x], later, k + 1);
    }
  }

  lemma {:induction false} NoneEmittedNoneWritten(facts: seq<ContextFact>, current: Option<string>, n: nat)
    requires CountEmitted(facts) == 0
    ensures WrittenAt(facts, current, n) == [] && AreExportable(facts)
  {
    hide IsExportable;
    if facts != [] {
      NoneEmittedNoneWritten(facts[1..], current, n);
      assert forall f :: f in facts <==> f == facts[0] || f in facts[1..];
    }
  }

  lemma {:induction false} SomeEmittedSomeWritten(facts: seq<ContextFact>, current: Option<string>, n: nat)
    requires CountEmitted(facts) != 0
    ensures WrittenAt(facts, current, n) != [] && WrittenAt(facts, current, n)[0].1.FromBlock?
    decreases |facts|
  {
    hide Expected, HeadingLines, ContextFact.Subject;
    if facts[0].value.Redacted? { SomeEmittedSomeWritten(facts[1..], current, n); }
  }

  /** All lines between the sentinel lines. */
  lemma InteriorReadsIff(facts: seq<ContextFact>, n: nat)
    requires AreNameable(facts)
    ensures ReadsAs(INSIDE, n, InteriorLines(facts), WrittenAt(facts, None, n + 1)) <==> AreExportable(facts)
    ensures AreExportable(facts) ==> ModeThrough(INSIDE, InteriorLines(facts)) == INSIDE
  {
    hide AreNameable, AreExportable, Summary, NothingYet, CountEmitted, BodyLines, IsPlainLine, Find, ResourceUri.SCHEME, WrittenAt;
    hide ModeThrough, ProposalsOf, SkipsOf, YieldOf, ModeAfter;
    var emitted := CountEmitted(facts);
    var inner := if emitted == 0 then ["", NothingYet()] else BodyLines(facts, None);
    SummaryIsPlain(emitted);
    QuietLineRuns(n, Summary(emitted));
    if emitted == 0 {
      NoneEmittedNoneWritten(facts, None, n + 1);
      NothingYetIsPlain();
      QuietLineRuns(n + 2, NothingYet());
      EmptyLineRuns(INSIDE, n + 1);
      ProposalsCompose(INSIDE, n + 1, [""], [NothingYet()]);
      assert [""] + [NothingYet()] == inner;
    } else {
      BodyReadsIff(facts, None, n + 1);
    }
    EmptyLineRuns(ModeThrough(INSIDE, inner), n + 1 + |inner|);
    ProposalsCompose(INSIDE, n + 1, inner, [""]);
    ProposalsCompose(INSIDE, n, [Summary(emitted)], inner + [""]);
  }

  lemma EmptyLineRuns(mode: Mode, n: nat)
    ensures ReadsAs(mode, n, [""], []) && ModeThrough(mode, [""]) == mode
  {
    hide ModeAfter, YieldOf, ModeThrough, ProposalsOf, SkipsOf;
    EmptyLine(mode);
    OneLineRuns(mode, n, "");
  }

  /** The sentinel lines and what is between them: the line that holds END may hold a BEGIN too. */
  function Between(top: string, facts: seq<ContextFact>, bottom: string): seq<string>
  {
    [top] + InteriorLines(facts) + [bottom]
  }

  lemma SentinelLineRuns(mode: Mode, n: nat, line: string)
    requires !HoldsNoSentinel(line)
    ensures ReadsAs(mode, n, [line], []) && ModeThrough(mode, [line]) == mode.(managed := Find(line, BEGIN_SENTINEL).Some?)
  {
    hide ModeAfter, YieldOf, ModeThrough, ProposalsOf, SkipsOf, HoldsNoSentinel, BEGIN_SENTINEL, Find;
    SentinelLineSwitchesTheMode(mode, line);
    OneLineRuns(mode, n, line);
  }

  lemma BetweenReadsIff(mode: Mode, top: string, facts: seq<ContextFact>, bottom: string, n: nat)
    requires AreNameable(facts) && IsFenceFree(mode) && Find(top, BEGIN_SENTINEL).Some? && Find(bottom, END_SENTINEL).Some?
    ensures ReadsAs(mode, n, Between(top, facts, bottom), WrittenAt(facts, None, n + 2)) <==> AreExportable(facts)
    ensures AreExportable(facts) ==>
              ModeThrough(mode, Between(top, facts, bottom)) == mode.(managed := Find(bottom, BEGIN_SENTINEL).Some?)
  {
    hide AreNameable, AreExportable, InteriorLines, Find, BEGIN_SENTINEL, END_SENTINEL, WrittenAt, ModeThrough, ProposalsOf, SkipsOf;
    var lines := InteriorLines(facts);
    InteriorReadsIff(facts, n + 1);
    SentinelLineRuns(mode, n, top);
    SentinelLineRuns(ModeThrough(INSIDE, lines), n + 1 + |lines|, bottom);
    assert mode.(managed := true) == INSIDE;
    ProposalsCompose(mode, n, [top], lines);
    ProposalsCompose(mode, n, [top] + lines, [bottom]);
  }

  // ---- The round trip -----------------------------------------------------------------

  /** What a proposal from the block says of its source, a receipt can say. */
  lemma {:induction false} ProposedSourcesAreReadable(mode: Mode, n: nat, lines: seq<string>, i: nat)
    requires i < |ProposalsOf(mode, n, lines)| && ProposalsOf(mode, n, lines)[i].1.FromBlock?
    ensures ProposalsOf(mode, n, lines)[i].1.receipt.source.Some? ==>
              IsReadableSource(ProposalsOf(mode, n, lines)[i].1.receipt.source.value)
    decreases |lines|
  {
    hide YieldOf, ModeAfter, IsReadableSource;
    var here := YieldOf(mode, lines[0]);
    YieldedSourceIsReadable(mode, lines[0]);
    if !here.Proposes? {
      ProposedSourcesAreReadable(ModeAfter(mode, lines[0]), n + 1, lines[1..], i);
    } else if 0 < i {
      ProposedSourcesAreReadable(ModeAfter(mode, lines[0]), n + 1, lines[1..], i - 1);
    }
  }

  lemma YieldedSourceIsReadable(mode: Mode, line: string)
    ensures YieldOf(mode, line).Proposes? && YieldOf(mode, line).proposal.FromBlock? &&
            YieldOf(mode, line).proposal.receipt.source.Some? ==>
              IsReadableSource(YieldOf(mode, line).proposal.receipt.source.value)
  {
    RecoveredSourceIsReadable(line);
    hide ParseReceiptLine, IsReadableSource, Find, Trim, HasPrefix, BEGIN_SENTINEL, END_SENTINEL;
  }

  lemma {:induction false} EachIsWritten(facts: seq<ContextFact>, current: Option<string>, n: nat, fact: ContextFact) returns (i: nat)
    requires fact in facts && !fact.value.Redacted?
    ensures i < |WrittenAt(facts, current, n)| && WrittenAt(facts, current, n)[i].1 == FromBlock(Expected(fact))
    decreases |facts|
  {
    hide Expected, HeadingLines, ContextFact.Subject;
    if facts[0] == fact {
      i := 0;
    } else if facts[0].value.Redacted? {
      i := EachIsWritten(facts[1..], current, n, fact);
    } else {
      i := EachIsWritten(facts[1..], Some(facts[0].Subject()), n + |HeadingLines(facts[0], current)| + 1, fact);
      i := i + 1;
    }
  }

  /** A fact whose source no receipt can say is proposed on no line, whatever the lines. */
  lemma UnreadableSourceIsNowhere(fact: ContextFact, mode: Mode, n: nat, lines: seq<string>, i: nat)
    requires !IsReadableSource(SourceText(fact)) && i < |ProposalsOf(mode, n, lines)|
    ensures ProposalsOf(mode, n, lines)[i].1 != FromBlock(Expected(fact))
  {
    hide ProposalsOf, IsReadableSource, SourceText;
    if ProposalsOf(mode, n, lines)[i].1.FromBlock? { ProposedSourcesAreReadable(mode, n, lines, i); }
  }

  /**
   Export, then import, gives each written fact from its own line, and nothing else, if and only if every fact is
   carried by its line and every subject is quiet in its heading.
   */
  lemma ExportThenImportIsTheIdentityIff(facts: seq<ContextFact>)
    requires AreNameable(facts)
    ensures ReadsAs(OUTSIDE, 1, Lines(RenderManagedBlock(facts)), WrittenAt(facts, None, 3)) <==> AreExportable(facts)
  {
    hide IsNameable, IsCarried, IsQuietSubject, SourceText, IsReadableSource, Lines, RenderManagedBlock, ProposalsOf, SkipsOf, WrittenAt;
    hide BEGIN_SENTINEL, END_SENTINEL, Find, InteriorLines, IsOneLine, Expected;
    var lines := Lines(RenderManagedBlock(facts));
    if ArePlaceable(facts) {
      LinesOfBlock(facts);
      SentinelLines();
      BetweenReadsIff(OUTSIDE, BEGIN_SENTINEL, facts, END_SENTINEL, 1);
    } else {
      var fact :| fact in facts && !fact.value.Redacted? && !IsOneLine(SourceText(fact));
      SourceOfManyLines(fact);
      var i := EachIsWritten(facts, None, 3, fact);
      if ReadsAs(OUTSIDE, 1, lines, WrittenAt(facts, None, 3)) { UnreadableSourceIsNowhere(fact, OUTSIDE, 1, lines, i); }
    }
  }

  lemma SourceOfManyLines(fact: ContextFact)
    requires !IsOneLine(SourceText(fact))
    ensures !IsReadableSource(SourceText(fact)) && !IsCarried(fact)
  {
    hide SourceText, HoldsNoSentinel, Find, IsReadableSource;
    if IsReadableSource(SourceText(fact)) { ReadableIsPlain(SourceText(fact)); }
  }

  // ---- A fence left open above the block ----------------------------------------------

  /** Inside a fence: the line leaves it open and yields nothing but what a `dent8` fence makes of it. */
  lemma FencedLineRuns(mode: Mode, line: string)
    requires !IsFenceFree(mode) && (OpensNoFence(line) || !HoldsNoSentinel(line))
    ensures ModeAfter(mode, line).dent8Fence == mode.dent8Fence && ModeAfter(mode, line).otherFence == mode.otherFence
    ensures !YieldOf(mode, line).Skips? && (YieldOf(mode, line).Proposes? ==> YieldOf(mode, line).proposal.Fenced?)
    ensures mode.dent8Fence && HoldsNoSentinel(line) && line != "" ==> YieldOf(mode, line).Proposes?
    ensures !mode.dent8Fence ==> YieldOf(mode, line) == Nothing
  {
    if HoldsNoSentinel(line) { OpensNone(line); }
    hide BEGIN_SENTINEL, END_SENTINEL, IsWhitespace, Find, ParseReceiptLine, Trim, HasPrefix, OpensNoFence;
  }

  lemma {:induction false} FencedLinesRun(mode: Mode, n: nat, lines: seq<string>)
    requires !IsFenceFree(mode)
    requires forall line :: line in lines ==> OpensNoFence(line) || !HoldsNoSentinel(line)
    ensures ModeThrough(mode, lines).dent8Fence == mode.dent8Fence && ModeThrough(mode, lines).otherFence == mode.otherFence
    ensures SkipsOf(mode, n, lines) == []
    ensures forall i :: 0 <= i < |ProposalsOf(mode, n, lines)| ==> ProposalsOf(mode, n, lines)[i].1.Fenced?
    ensures mode.dent8Fence && (exists line :: line in lines && HoldsNoSentinel(line) && line != "") ==> ProposalsOf(mode, n, lines) != []
    ensures !mode.dent8Fence ==> ProposalsOf(mode, n, lines) == []
    decreases |lines|
  {
    hide OpensNoFence, HoldsNoSentinel, ModeAfter, YieldOf;
    if lines != [] {
      assert lines[0] in lines;
      FencedLineRuns(mode, lines[0]);
      FencedLinesRun(ModeAfter(mode, lines[0]), n + 1, lines[1..]);
      assert forall line :: line in lines <==> line == lines[0] || line in lines[1..];
    }
  }

  /** Where the block's facts are read from it, whatever was open above. */
  predicate IsOpenTo(mode: Mode, facts: seq<ContextFact>)
  {
    IsFenceFree(mode) || (!mode.dent8Fence && CountEmitted(facts) == 0)
  }

  lemma TightOpensNoFence(line: string)
    requires IsTightLine(line)
    ensures OpensNoFence(line)
  {
    hide IsWhitespace;
  }

  /** What is between the sentinel lines inside a fence. */
  lemma FencedBetween(mode: Mode, top: string, facts: seq<ContextFact>, bottom: string, n: nat)
    requires AreExportable(facts) && !IsFenceFree(mode)
    requires Find(top, BEGIN_SENTINEL).Some? && Find(bottom, END_SENTINEL).Some?
    ensures ReadsAs(mode, n, Between(top, facts, bottom), WrittenAt(facts, None, n + 2)) <==> IsOpenTo(mode, facts)
    ensures !mode.dent8Fence ==> ProposalsOf(mode, n, Between(top, facts, bottom)) == []
    ensures ModeThrough(mode, Between(top, facts, bottom)) == mode.(managed := Find(bottom, BEGIN_SENTINEL).Some?)
  {
    hide AreExportable, ArePlaceable, AreSpliceable, Summary, NothingYet, BodyLines, CountEmitted, Find, BEGIN_SENTINEL, END_SENTINEL;
    hide IsTightLine, OpensNoFence, IsPlainLine, ProposalsOf, SkipsOf, ModeThrough, WrittenAt, ResourceUri.SCHEME;
    ExportableArePlaceable(facts);
    InteriorIsTight(facts);
    SummaryIsPlain(CountEmitted(facts));
    SummaryIsThere(CountEmitted(facts));
    var interior, lines := InteriorLines(facts), Between(top, facts, bottom);
    forall line | line in lines ensures OpensNoFence(line) || !HoldsNoSentinel(line)
    {
      if line in interior { TightOpensNoFence(line); }
    }
    assert interior[0] == Summary(CountEmitted(facts)) && interior[0] in lines;
    PlainHoldsNone(interior[0]);
    FencedLinesRun(mode, n, lines);
    if CountEmitted(facts) == 0 { NoneEmittedNoneWritten(facts, None, n + 2); } else { SomeEmittedSomeWritten(facts, None, n + 2); }
    FencedEnds(mode, n, [top] + interior, bottom);
  }

  lemma PlainHoldsNone(line: string)
    requires IsPlainLine(line)
    ensures HoldsNoSentinel(line)
  {
  }

  lemma FencedEnds(mode: Mode, n: nat, lines: seq<string>, bottom: string)
    requires Find(bottom, END_SENTINEL).Some?
    requires ModeThrough(mode, lines + [bottom]).dent8Fence == mode.dent8Fence
    requires ModeThrough(mode, lines + [bottom]).otherFence == mode.otherFence
    ensures ModeThrough(mode, lines + [bottom]) == mode.(managed := Find(bottom, BEGIN_SENTINEL).Some?)
  {
    hide Find, BEGIN_SENTINEL, END_SENTINEL, ModeThrough;
    ProposalsCompose(mode, n, lines, [bottom]);
    SentinelLineRuns(ModeThrough(mode, lines), n, bottom);
  }

  /**
   Whatever stands above, the block's facts are read from it if and only if no fence is left open for the importer,
   or the fence is not a `dent8` one and there was nothing to read.
   */
  lemma BlockIsReadIffUnfenced(mode: Mode, facts: seq<ContextFact>, n: nat)
    requires AreExportable(facts)
    ensures ReadsAs(mode, n, Lines(RenderManagedBlock(facts)), WrittenAt(facts, None, n + 2)) <==> IsOpenTo(mode, facts)
  {
    hide RenderManagedBlock, Lines, AreExportable, ArePlaceable, AreNameable, ProposalsOf, SkipsOf, WrittenAt, BEGIN_SENTINEL, END_SENTINEL;
    hide Find, InteriorLines, CountEmitted, ModeThrough;
    ExportableArePlaceable(facts);
    LinesOfBlock(facts);
    SentinelLines();
    if IsFenceFree(mode) {
      BetweenReadsIff(mode, BEGIN_SENTINEL, facts, END_SENTINEL, n);
    } else {
      FencedBetween(mode, BEGIN_SENTINEL, facts, END_SENTINEL, n);
    }
  }

  // ---- The block among the lines of a file --------------------------------------------

  /** Below the block: outside, unless the line of END opens another block. */
  function ModeBelow(bottom: string): Mode { OUTSIDE.(managed := Find(bottom, BEGIN_SENTINEL).Some?) }

  /** Import reads on below the block as it would without what it took to be open above. */
  predicate ReadsAlike(mode: Mode, below: seq<string>, m: nat, after: Mode)
  {
    IsFenceFree(mode) || ProposalsOf(after.(otherFence := true), m, below) == ProposalsOf(after, m, below)
  }

  lemma {:induction false} OneFenceAtMost(mode: Mode, lines: seq<string>)
    requires !mode.dent8Fence || !mode.otherFence
    ensures !ModeThrough(mode, lines).dent8Fence || !ModeThrough(mode, lines).otherFence
    decreases |lines|
  {
    hide Find, BEGIN_SENTINEL, END_SENTINEL, Trim, HasPrefix, Splice.AfterRun;
    if lines != [] { OneFenceAtMost(ModeAfter(mode, lines[0]), lines[1..]); }
  }

  /**
   A file with a block: import proposes what the lines above propose, each written fact from its own line, and what
   the lines below propose, if and only if no fence is open for it where the block begins; or else none of `dent8`,
   nothing was written, and the lines below read the same inside a fence.
   */
  lemma BlockInAFileReadsIff(above: seq<string>, top: string, facts: seq<ContextFact>, bottom: string, below: seq<string>)
    requires AreExportable(facts) && Find(top, BEGIN_SENTINEL).Some? && Find(bottom, END_SENTINEL).Some?
    ensures var mode, n := ModeThrough(OUTSIDE, above), 1 + |above|;
            var m, after := n + |Between(top, facts, bottom)|, ModeBelow(bottom);
            ProposalsOf(OUTSIDE, 1, above + Between(top, facts, bottom) + below) ==
              ProposalsOf(OUTSIDE, 1, above) + WrittenAt(facts, None, n + 2) + ProposalsOf(after, m, below)
            <==> IsOpenTo(mode, facts) && ReadsAlike(mode, below, m, after)
  {
    hide AreExportable, AreNameable, ArePlaceable, Between, Find, BEGIN_SENTINEL, END_SENTINEL, WrittenAt, ModeThrough, ProposalsOf, SkipsOf;
    hide CountEmitted;
    var block := Between(top, facts, bottom);
    var mode, n := ModeThrough(OUTSIDE, above), 1 + |above|;
    var m, after := n + |block|, ModeBelow(bottom);
    ExportableArePlaceable(facts);
    if IsFenceFree(mode) { BetweenReadsIff(mode, top, facts, bottom, n); } else { FencedBetween(mode, top, facts, bottom, n); }
    OneFenceAtMost(OUTSIDE, above);
    var through := ModeThrough(mode, block);
    assert IsFenceFree(mode) ==> through == after;
    assert !IsFenceFree(mode) && !mode.dent8Fence ==> through == after.(otherFence := true);
    ProposalsCompose(OUTSIDE, 1, above, block);
    ProposalsCompose(OUTSIDE, 1, above + block, below);
    var a, b, c := ProposalsOf(OUTSIDE, 1, above), ProposalsOf(mode, n, block), ProposalsOf(through, m, below);
    var x, y := WrittenAt(facts, None, n + 2), ProposalsOf(after, m, below);
    BlockNumbers(mode, n, top, facts, bottom);
    ProposalsAreFrom(through, m, below);
    ProposalsAreFrom(after, m, below);
    BlockSkipsNothing(mode, top, facts, bottom, n);
    assert a + b + c == a + (b + c) && a + x + y == a + (x + y);
    if a + (b + c) == a + (x + y) {
      CutFront(a, b + c, x + y);
      NumbersSplit(b, c, x, y, m);
    }
  }

  lemma BlockNumbers(mode: Mode, n: nat, top: string, facts: seq<ContextFact>, bottom: string)
    ensures var m := n + |Between(top, facts, bottom)|;
            AreFrom(ProposalsOf(mode, n, Between(top, facts, bottom)), n, m) && AreFrom(WrittenAt(facts, None, n + 2), n, m)
  {
    hide Summary, NothingYet, CountEmitted, BodyLines, ProposalsOf, WrittenAt;
    ProposalsAreFrom(mode, n, Between(top, facts, bottom));
    WrittenAreFrom(facts, None, n + 2);
    if CountEmitted(facts) == 0 { NoneEmittedNoneWritten(facts, None, n + 2); }
  }

  lemma BlockSkipsNothing(mode: Mode, top: string, facts: seq<ContextFact>, bottom: string, n: nat)
    requires AreExportable(facts) && Find(top, BEGIN_SENTINEL).Some? && Find(bottom, END_SENTINEL).Some?
    ensures SkipsOf(mode, n, Between(top, facts, bottom)) == []
  {
    hide AreExportable, AreNameable, ArePlaceable, Find, BEGIN_SENTINEL, END_SENTINEL, WrittenAt, ModeThrough, ProposalsOf, SkipsOf;
    hide InteriorLines, OpensNoFence, IsTightLine;
    ExportableArePlaceable(facts);
    if IsFenceFree(mode) {
      BetweenReadsIff(mode, top, facts, bottom, n);
    } else {
      InteriorIsTight(facts);
      var lines := Between(top, facts, bottom);
      forall line | line in lines ensures OpensNoFence(line) || !HoldsNoSentinel(line)
      {
        if line in InteriorLines(facts) { TightOpensNoFence(line); }
      }
      FencedLinesRun(mode, n, lines);
    }
  }
}
