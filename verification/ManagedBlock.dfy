/** The managed block of a native memory file: how export renders it and how import reads facts back. */
module ManagedBlock {
  import opened Wrappers
  import opened AuthorityLevels
  import opened Text
  import opened JsonText
  import opened EventIds
  import opened FactLog
  import opened ResourceUri
  import Splice

  const BEGIN_SENTINEL :=
    "<!-- BEGIN dent8" + " managed block" + " (generated by" + " `dent8 export`;" + " edits inside are" + " overwritten) -->"
  const END_SENTINEL := "<!-- END dent8" + " managed block -->"
  const RECEIPT_COMMENT_PREFIX := "  <!-- dent8 receipt"

  const MARKERS: Splice.Markers := Splice.Markers(BEGIN_SENTINEL, END_SENTINEL)

  // ---- Export -------------------------------------------------------------------------

  datatype ContextFact = ContextFact(
    factId: string, kind: string, key: string, pred: string, value: FactValue, authority: AuthorityLevel,
    source: Option<string>, stale: bool, contestedBy: nat, eventHash: string)
  {
    function Subject(): string { kind + ":" + key }
    function Uri(): string { ResourceUri.ResourceUri(kind, key, pred) }
  }

  /** A redacted value is never written to a plaintext file. */
  function EncodeBlockValue(value: FactValue): Option<string>
  {
    match value
    case Text(text) => Some(Quote(text))
    case Json(json) => Some("json:" + json)
    case Redacted => None
  }

  /** `short`: the first twelve characters and an ellipsis. */
  function Short(hash: string): string { (if |hash| < 12 then hash else hash[..12]) + "\U{2026}" }

  /** Each word after one space. */
  function Spaced(words: seq<string>): string
  {
    if words == [] then "" else " " + words[0] + Spaced(words[1..])
  }

  /** The flags after a fact line, each set off by two spaces. */
  function FactMarkers(fact: ContextFact): string
  {
    (if fact.contestedBy > 0 then ContestedMarker(fact.contestedBy) else "") + (if fact.stale then StaleMarker() else "")
  }

  function ContestedMarker(rivals: nat): string
  {
    "  **[contested \U{2014}" + (" " + Decimal(rivals)) + " rival value(s); run" + " `dent8 conflicts`" + " before relying on" + " this]**"
  }

  function StaleMarker(): string { "  **[stale \U{2014} past" + " its validity window]**" }

  lemma {:induction false} NumeralsEndAlike(x: string, a: string, y: string, b: string)
    requires x + a == y + b && a != "" && b != "" && a[0] == b[0] == ' '
    requires forall i :: 0 <= i < |x| ==> '0' <= x[i] <= '9'
    requires forall i :: 0 <= i < |y| ==> '0' <= y[i] <= '9'
    ensures x == y && a == b
  {
    var s := x + a;
    assert s[|x|] == ' ' && s[|y|] == ' ';
    assert forall i :: 0 <= i < |x| ==> s[i] == x[i];
    assert forall i :: 0 <= i < |y| ==> s[i] == y[i];
    assert s[..|x|] == x && s[..|y|] == y && s[|x|..] == a && s[|y|..] == b;
  }

  lemma ContestedMarkerReads(m: nat) returns (open: string, rest: string)
    ensures open == "  **[contested \U{2014}" + " " && rest != "" && rest[0] == ' ' && " rival" <= rest
    ensures forall k: nat :: ContestedMarker(k) == open + (Decimal(k) + rest)
    ensures 6 <= |ContestedMarker(m)| && ContestedMarker(m)[5] == 'c'
  {
    hide Decimal;
    open, rest := "  **[contested \U{2014}" + " ", " rival value(s); run" + " `dent8 conflicts`" + " before relying on" + " this]**";
  }

  lemma ContestedMarkerCounts(m: nat, n: nat, a: string, b: string)
    ensures ContestedMarker(m) + a == ContestedMarker(n) + b ==> m == n && a == b
    ensures 6 <= |ContestedMarker(m)| && ContestedMarker(m)[5] == 'c'
    ensures "  **[contested \U{2014}" + (" " + Decimal(m)) + " rival" <= ContestedMarker(m)
  {
    hide Decimal, ContestedMarker;
    var open, rest := ContestedMarkerReads(m);
    assert open + (Decimal(m) + rest) == "  **[contested \U{2014}" + (" " + Decimal(m)) + rest;
    if ContestedMarker(m) + a == ContestedMarker(n) + b {
      assert (ContestedMarker(m) + a)[|open|..] == Decimal(m) + (rest + a);
      assert (ContestedMarker(n) + b)[|open|..] == Decimal(n) + (rest + b);
      NumeralsEndAlike(Decimal(m), rest + a, Decimal(n), rest + b);
      DecimalInjective(m, n);
      assert (rest + a)[|rest|..] == a && (rest + b)[|rest|..] == b;
    }
  }

  lemma StaleMarkerReads()
    ensures var flag := StaleMarker();
            && 27 <= |flag| && flag[5] == 's' && "  **[stale \U{2014}" <= flag
            && flag[|flag| - 27..] == "past its" + " validity" + " window]**"
  {
    var front, back := "  **[stale \U{2014} ", "past its" + " validity" + " window]**";
    assert StaleMarker() == front + back;
    assert |back| == 27 && front[5] == 's';
    hide StaleMarker;
    assert (front + back)[|front|..] == back;
  }

  /**
   The flags say which they are and how many rivals there are: a dispute by its count, staleness at the end, and
   nothing is printed where neither is the case. So the printed flags determine both.
   */
  lemma FlagsAreShown(fact: ContextFact, other: ContextFact)
    ensures var flags := FactMarkers(fact);
            && (0 < fact.contestedBy ==> "  **[contested \U{2014}" + (" " + Decimal(fact.contestedBy)) + " rival" <= flags)
            && (fact.stale ==> 27 <= |flags| && flags[|flags| - 27..] == "past its" + " validity" + " window]**")
            && (fact.contestedBy == 0 && fact.stale ==> "  **[stale \U{2014}" <= flags)
            && (fact.contestedBy == 0 && !fact.stale ==> flags == "")
    ensures FactMarkers(fact) == FactMarkers(other) <==> fact.contestedBy == other.contestedBy && fact.stale == other.stale
  {
    hide Decimal, ContestedMarker, StaleMarker;
    var a, b := if fact.stale then StaleMarker() else "", if other.stale then StaleMarker() else "";
    StaleMarkerReads();
    ContestedMarkerCounts(fact.contestedBy, other.contestedBy, a, b);
    ContestedMarkerCounts(other.contestedBy, fact.contestedBy, b, a);
  }

  function ReceiptWords(fact: ContextFact): seq<string>
  {
    ["fact=" + fact.factId, "event_hash=" + Short(fact.eventHash), "authority=" + Name(fact.authority),
     "source=" + (if fact.source.Some? then fact.source.value else "-"), "-->"]
  }

  function FactLine(fact: ContextFact, encoded: string): string
  {
    "- `" + fact.Uri() + "` = " + encoded + RECEIPT_COMMENT_PREFIX + Spaced(ReceiptWords(fact)) + FactMarkers(fact)
  }

  /** A heading wherever the subject changes, then one line per fact; `current` is the subject under way. */
  function Body(facts: seq<ContextFact>, current: Option<string>): string
    decreases |facts|
  {
    if facts == [] then ""
    else
      var fact, encoded := facts[0], EncodeBlockValue(facts[0].value);
      if encoded.None? then Body(facts[1..], current)
      else
        Heading(fact, current) + (FactLine(fact, encoded.value) + "\n" + Body(facts[1..], Some(fact.Subject())))
  }

  function Heading(fact: ContextFact, current: Option<string>): string
  {
    if current == Some(fact.Subject()) then "" else "\n### " + fact.Subject() + "\n\n"
  }

  function CountEmitted(facts: seq<ContextFact>): nat
  {
    if facts == [] then 0 else (if facts[0].value.Redacted? then 0 else 1) + CountEmitted(facts[1..])
  }

  function Summary(emitted: nat): string
  {
    "<!-- dent8 export:" + (" " + Decimal(emitted)) + " believed fact(s);" + " do not edit inside" + " this block \U{2014} run" +
    " `dent8 export" + " --target " + "<file>`" + " to refresh -->"
  }

  function NothingYet(): string
  {
    "_No believed facts" + " to export yet \U{2014}" + " seed them with" + " `dent8 assert` or" + " `dent8 import`._"
  }

  function RenderManagedBlock(facts: seq<ContextFact>): string
  {
    var emitted := CountEmitted(facts);
    BEGIN_SENTINEL + "\n" + Summary(emitted) + "\n" +
    (if emitted == 0 then "\n" + NothingYet() + "\n" else Body(facts, None)) +
    "\n" + END_SENTINEL
  }

  /** The same, pushing onto an output buffer; also how many facts were skipped as redacted. */
  method RenderBlock(facts: seq<ContextFact>) returns (block: string, redacted: nat)
    ensures block == RenderManagedBlock(facts) && redacted + CountEmitted(facts) == |facts|
  {
    hide Summary, NothingYet, Body, CountEmitted;
    var body, emitted;
    body, emitted, redacted := RenderBody(facts);
    var out := BEGIN_SENTINEL + "\n" + Summary(emitted) + "\n";
    out := out + (if emitted == 0 then "\n" + NothingYet() + "\n" else body);
    block := out + "\n" + END_SENTINEL;
  }

  method RenderBody(facts: seq<ContextFact>) returns (body: string, emitted: nat, redacted: nat)
    ensures body == Body(facts, None) && emitted == CountEmitted(facts) && redacted + emitted == |facts|
  {
    hide FactLine, EncodeBlockValue, Heading, ContextFact.Subject;
    var current: Option<string> := None;
    body, emitted, redacted := "", 0, 0;
    for i := 0 to |facts|
      invariant body + Body(facts[i..], current) == Body(facts, None)
      invariant emitted + CountEmitted(facts[i..]) == CountEmitted(facts)
      invariant redacted + emitted == i
    {
      assert facts[i..][1..] == facts[i + 1..];
      var fact, encoded := facts[i], EncodeBlockValue(facts[i].value);
      OnlyRedactedIsSkipped(fact.value);
      if encoded.None? {
        redacted := redacted + 1;
        continue;
      }
      ghost var rest := Body(facts[i + 1..], Some(fact.Subject()));
      var heading, line := Heading(fact, current), FactLine(fact, encoded.value) + "\n";
      PushedTwice(body, heading, line, rest);
      if current != Some(fact.Subject()) { current := Some(fact.Subject()); }
      body := body + heading;
      body := body + line;
      emitted := emitted + 1;
    }
    assert facts[|facts|..] == [];
  }

  lemma PushedTwice(body: string, heading: string, line: string, rest: string)
    ensures body + (heading + (line + rest)) == body + heading + line + rest
  {
  }

  lemma OnlyRedactedIsSkipped(value: FactValue)
    ensures EncodeBlockValue(value).None? <==> value.Redacted?
  {
  }

  // ---- Import -------------------------------------------------------------------------

  datatype Receipt = Receipt(
    kind: string, key: string, pred: string, value: string, authority: Option<string>, source: Option<string>)

  /** Does this character end a URI token? */
  predicate IsUriTerminator(c: char)
  {
    IsWhitespace(c) || c in {'"', '\'', '`', '<', '>', '(', ')', '[', ']', '{', '}', ',', ';'}
  }

  /** Length of the token at the front of `tail`. */
  function TokenLength(tail: string): (n: nat)
    ensures n <= |tail| && (forall i :: 0 <= i < n ==> !IsUriTerminator(tail[i]))
    ensures n < |tail| ==> IsUriTerminator(tail[n])
  {
    if tail == "" || IsUriTerminator(tail[0]) then 0 else 1 + TokenLength(tail[1..])
  }

  datatype Hints = Hints(authority: Option<string>, source: Option<string>)

  function HintOf(word: string, hints: Hints): Hints
  {
    var token := TrimEndMatches(word, "-->");
    if "authority=" <= token && token != "authority=" then hints.(authority := Some(token[10..]))
    else if "source=" <= token && token != "source=" then hints.(source := Some(token[7..]))
    else hints
  }

  /** Later words win. */
  function HintsOf(words: seq<string>, hints: Hints): Hints
    decreases |words|
  {
    if words == [] then hints else HintsOf(words[1..], HintOf(words[0], hints))
  }

  function ParseMetaHints(region: string): Hints { HintsOf(SplitWhitespace(region), Hints(None, None)) }

  /** The value a token stands for: a JSON string, `json:` and raw text, or a bare hand-written value. */
  function DecodeBlockValue(raw: string): Option<string>
  {
    var token := Trim(raw);
    if token == "" then None
    else if token[0] == '"' then Unquote(token)
    else if "json:" <= token then Some(token[5..])
    else Some(token)
  }

  datatype Reading = NotAFact | Malformed | Recovered(receipt: Receipt)

  function ParseReceiptLine(line: string): Reading
  {
    var marker := Find(line, SCHEME);
    if marker.None? then NotAFact
    else
      var tail := line[marker.value..];
      var parsed, after := ParseResourceUri(tail[..TokenLength(tail)]), tail[TokenLength(tail)..];
      if parsed.None? then Malformed
      else
        var equals := IndexOf(after, '=');
        if equals.None? then NotAFact else ReadRegion(parsed.value, TrimStart(after[equals.value + 1..]))
  }

  /** The value, and the receipt comment that trails it: the last one, as a value may hold the token itself. */
  function ReadRegion(parsed: Parsed, region: string): Reading
  {
    var comment := FindLast(region, RECEIPT_COMMENT_PREFIX);
    var value := DecodeBlockValue(if comment.Some? then region[..comment.value] else region);
    var hints := ParseMetaHints(if comment.Some? then region[comment.value + |RECEIPT_COMMENT_PREFIX|..] else "");
    if value.None? then Malformed
    else Recovered(Receipt(parsed.kind, parsed.key, parsed.pred, value.value, hints.authority, hints.source))
  }

  datatype Mode = Mode(managed: bool, dent8Fence: bool, otherFence: bool)

  datatype Proposal = FromBlock(receipt: Receipt) | Inline(receipt: Receipt) | Fenced(json: string)

  datatype SkipReason = MalformedReceipt | BareReference | FreeProse

  /** What one line yields. */
  datatype Yield = Nothing | Proposes(proposal: Proposal) | Skips(reason: SkipReason)

  predicate HasPrefix(s: string, prefix: string) { prefix <= s }

  function ModeAfter(mode: Mode, line: string): Mode
  {
    var trimmed := Trim(line);
    if Find(line, BEGIN_SENTINEL).Some? then mode.(managed := true)
    else if Find(line, END_SENTINEL).Some? then mode.(managed := false)
    else if HasPrefix(trimmed, "```") then
      if mode.dent8Fence then mode.(dent8Fence := false)
      else if mode.otherFence then mode.(otherFence := false)
      else if Trim(Splice.AfterRun(trimmed, '`')) == "dent8" then mode.(dent8Fence := true)
      else mode.(otherFence := true)
    else mode
  }

  function YieldOf(mode: Mode, line: string): Yield
  {
    var trimmed := Trim(line);
    if Find(line, BEGIN_SENTINEL).Some? || Find(line, END_SENTINEL).Some? || HasPrefix(trimmed, "```") then Nothing
    else if mode.dent8Fence then (if trimmed == "" then Nothing else Proposes(Fenced(trimmed)))
    else if mode.otherFence || trimmed == "" then Nothing
    else
      match ParseReceiptLine(line)
      case Recovered(receipt) => Proposes(if mode.managed then FromBlock(receipt) else Inline(receipt))
      case Malformed => Skips(MalformedReceipt)
      case NotAFact =>
        if mode.managed then Nothing
        else if Find(line, SCHEME).Some? then Skips(BareReference)
        else Skips(FreeProse)
  }

  /** Proposals with their line numbers; `n` is the number of the first line. */
  function ProposalsOf(mode: Mode, n: nat, lines: seq<string>): seq<(nat, Proposal)>
    decreases |lines|
  {
    if lines == [] then []
    else
      (match YieldOf(mode, lines[0]) case Proposes(proposal) => [(n, proposal)] case _ => []) +
      ProposalsOf(ModeAfter(mode, lines[0]), n + 1, lines[1..])
  }

  function SkipsOf(mode: Mode, n: nat, lines: seq<string>): seq<(nat, SkipReason)>
    decreases |lines|
  {
    if lines == [] then []
    else
      (match YieldOf(mode, lines[0]) case Skips(reason) => [(n, reason)] case _ => []) +
      SkipsOf(ModeAfter(mode, lines[0]), n + 1, lines[1..])
  }

  function ModeThrough(mode: Mode, lines: seq<string>): Mode
    decreases |lines|
  {
    if lines == [] then mode else ModeThrough(ModeAfter(mode, lines[0]), lines[1..])
  }

  const OUTSIDE := Mode(false, false, false)

  method ParseImportFile(contents: string) returns (proposals: seq<(nat, Proposal)>, skipped: seq<(nat, SkipReason)>)
    ensures proposals == ProposalsOf(OUTSIDE, 1, Lines(contents)) && skipped == SkipsOf(OUTSIDE, 1, Lines(contents))
  {
    hide ModeAfter, YieldOf, Lines, ProposalsOf, SkipsOf;
    proposals, skipped := [], [];
    var lines, mode := Lines(contents), OUTSIDE;
    assert lines[0..] == lines;
    for i := 0 to |lines|
      invariant proposals + ProposalsOf(mode, i + 1, lines[i..]) == ProposalsOf(OUTSIDE, 1, lines)
      invariant skipped + SkipsOf(mode, i + 1, lines[i..]) == SkipsOf(OUTSIDE, 1, lines)
    {
      FirstOfTheRest(mode, i + 1, lines, i);
      var found := YieldOf(mode, lines[i]);
      if found.Proposes? { proposals := proposals + [(i + 1, found.proposal)]; }
      if found.Skips? { skipped := skipped + [(i + 1, found.reason)]; }
      mode := ModeAfter(mode, lines[i]);
    }
    NothingLeft(mode, |lines| + 1, lines);
  }

  lemma FirstOfTheRest(mode: Mode, n: nat, lines: seq<string>, i: nat)
    requires i < |lines|
    ensures var found, later := YieldOf(mode, lines[i]), ModeAfter(mode, lines[i]);
            && ProposalsOf(mode, n, lines[i..]) ==
               (if found.Proposes? then [(n, found.proposal)] else []) + ProposalsOf(later, n + 1, lines[i + 1..])
            && SkipsOf(mode, n, lines[i..]) ==
               (if found.Skips? then [(n, found.reason)] else []) + SkipsOf(later, n + 1, lines[i + 1..])
  {
    hide ModeAfter, YieldOf;
    assert lines[i..][1..] == lines[i + 1..];
  }

  lemma NothingLeft(mode: Mode, n: nat, lines: seq<string>)
    ensures ProposalsOf(mode, n, lines[|lines|..]) == [] && SkipsOf(mode, n, lines[|lines|..]) == []
  {
  }
}
