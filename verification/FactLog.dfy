/**
 The event log, the fold that projects it to current facts, and the firewall every write passes.

 A log is a sequence of events. Each fact's events fold to a `FactState`; the firewall admits an
 event when it applies to its fact's state and, for a supersession, when the replacing fact really
 out-ranks the incumbent.
 */
module FactLog {
  import opened Wrappers
  import opened AuthorityLevels
  import opened Text

  datatype Subject = Subject(kind: string, key: string)

  datatype FactValue = Text(text: string) | Json(json: string) | Redacted

  datatype Ttl = Never | ExpiresAt(at: int) | DurationMillis(millis: nat)

  datatype FactLifecycle = Active | Contested | Superseded | Expired | Retracted
  {
    predicate IsTerminal() { Superseded? || Expired? || Retracted? }
  }

  datatype ChallengeKind = Supersession | Contradiction | Retraction | Expiration

  datatype ChallengeRejection = InsufficientStrength | Laundering | CanonicalAlarm | WeakerEntrenchment

  datatype EventKind =
    | Asserted
    | Reinforced(backer: string)
    | ContradictedBy(rival: string)
    | SupersededBy(successor: string)
    | ExpiredEvent
    | RetractedEvent
    | Retrieved(purpose: string)
    | UsedInDecision(decision: string)
    | ChallengeRejected(challenge: ChallengeKind, challenger: Option<string>, rejection: ChallengeRejection)

  /** A per-write source signature: the signing key and the signature, both hex. */
  datatype WriteAttestation = WriteAttestation(publicKey: string, signature: string)

  /** `evidence` holds the locators: the speaker's, then the ids of the facts a derivation rests on. */
  datatype FactEvent = FactEvent(
    eventId: string, factId: string, kind: EventKind, subject: Subject, pred: string,
    value: Option<FactValue>, authority: AuthorityLevel, source: string,
    ttl: Ttl, observedAt: Option<int>, validFrom: Option<int>, validTo: Option<int>, recordedAt: int,
    evidence: seq<string>, attestation: Option<WriteAttestation>)

  type Log = seq<FactEvent>

  datatype FactState = FactState(
    factId: string, subject: Subject, pred: string, value: FactValue, authority: AuthorityLevel,
    ttl: Ttl, freshnessAnchor: int, validFrom: Option<int>, validTo: Option<int>,
    lifecycle: FactLifecycle, createdAt: int, updatedAt: int, lastEventId: string,
    supersededBy: Option<string>, contradictedBy: seq<string>, evidenceCount: nat,
    corroborating: map<string, AuthorityLevel>, survived: map<string, AuthorityLevel>)
  {
    /** The earliest of the TTL bound and the asserted end of validity. */
    function ExpiryInstant(): Option<int>
    {
      var bound := TtlExpiry(ttl, freshnessAnchor);
      if bound.Some? && validTo.Some? then (if bound.value <= validTo.value then bound else validTo)
      else if bound.Some? then bound else validTo
    }

    predicate IsExpiredAt(now: int)
    {
      ExpiryInstant().Some? && ExpiryInstant().value <= now
    }

    predicate Believed() { !lifecycle.IsTerminal() }
  }

  const I64_MAX := 0x7FFF_FFFF_FFFF_FFFF

  /** A duration that cannot be represented from its anchor never expires. */
  function TtlExpiry(ttl: Ttl, anchor: int): Option<int>
  {
    match ttl
    case Never => None
    case ExpiresAt(at) => Some(at)
    case DurationMillis(millis) =>
      if millis <= I64_MAX && anchor + millis <= I64_MAX then Some(anchor + millis) else None
  }

  // ---- The fold -----------------------------------------------------------------------

  datatype TransitionError =
    | InvalidEvent
    | MissingInitialAssertion
    | DuplicateAssertion
    | FactIdMismatch
    | FactShapeMismatch
    | ReinforcementValueMismatch
    | TerminalStateMutation
    | InsufficientAuthority
    | CanonicalContradiction

  predicate IsValid(event: FactEvent)
  {
    && (event.validFrom.Some? && event.validTo.Some? ==> event.validFrom.value < event.validTo.value)
    && (event.kind.Asserted? ==> event.value.Some? && event.evidence != [])
    && (event.kind.Retrieved? ==> !IsBlank(event.kind.purpose))
    && (event.kind.UsedInDecision? ==> !IsBlank(event.kind.decision))
  }

  function Strengthened(levels: map<string, AuthorityLevel>, source: string, level: AuthorityLevel): map<string, AuthorityLevel>
  {
    levels[source := if source in levels then MaxLevel(levels[source], level) else level]
  }

  function Apply(current: Option<FactState>, event: FactEvent): Result<FactState, TransitionError>
  {
    if !IsValid(event) then Err(InvalidEvent)
    else if current.None? then ApplyInitial(event)
    else ApplyNext(current.value, event)
  }

  /** When the asserted window of a fact begins: its validity, else its observation, else its recording. */
  function Anchor(event: FactEvent): int
  {
    if event.validFrom.Some? then event.validFrom.value
    else if event.observedAt.Some? then event.observedAt.value
    else event.recordedAt
  }

  function ApplyInitial(event: FactEvent): Result<FactState, TransitionError>
  {
    if !event.kind.Asserted? || event.value.None? then Err(MissingInitialAssertion)
    else
      Ok(FactState(
           event.factId, event.subject, event.pred, event.value.value, event.authority,
           event.ttl, Anchor(event), event.validFrom, event.validTo,
           Active, event.recordedAt, event.recordedAt, event.eventId, None, [], |event.evidence|, map[event.source := event.authority], map[]))
  }

  /** An event that applies leaves its mark, whatever it changes. */
  function ApplyNext(state: FactState, event: FactEvent): Result<FactState, TransitionError>
  {
    match Transition(state, event)
    case Ok(next) => Ok(next.(updatedAt := event.recordedAt, lastEventId := event.eventId))
    case Err(error) => Err(error)
  }

  function Transition(state: FactState, event: FactEvent): Result<FactState, TransitionError>
  {
    if state.factId != event.factId then Err(FactIdMismatch)
    else if state.subject != event.subject || state.pred != event.pred then Err(FactShapeMismatch)
    else if state.lifecycle.IsTerminal() && !event.kind.Retrieved? && !event.kind.UsedInDecision? then
      Err(TerminalStateMutation)
    else
      match event.kind
      case Asserted => Err(DuplicateAssertion)
      case Reinforced(_) =>
        if event.value.Some? && event.value.value != state.value then Err(ReinforcementValueMismatch)
        else Ok(state.(evidenceCount := state.evidenceCount + |event.evidence|,
                       corroborating := Strengthened(state.corroborating, event.source, event.authority)))
      case ContradictedBy(rival) =>
        if state.authority == Canonical then Err(CanonicalContradiction)
        else Ok(state.(lifecycle := Contested,
                       contradictedBy := if rival in state.contradictedBy then state.contradictedBy else state.contradictedBy + [rival]))
      case SupersededBy(successor) =>
        if !AtMost(state.authority, event.authority) then Err(InsufficientAuthority)
        else Ok(state.(lifecycle := Superseded, supersededBy := Some(successor)))
      case ExpiredEvent =>
        if !AtMost(state.authority, event.authority) then Err(InsufficientAuthority)
        else Ok(state.(lifecycle := Expired))
      case RetractedEvent =>
        if !AtMost(state.authority, event.authority) then Err(InsufficientAuthority)
        else Ok(state.(lifecycle := Retracted))
      case Retrieved(_) => Ok(state)
      case UsedInDecision(_) => Ok(state)
      case ChallengeRejected(_, _, _) =>
        Ok(state.(survived := Strengthened(state.survived, event.source, event.authority)))
  }

  /** Every fact's current state. */
  type Projection = map<string, FactState>

  function Lookup(view: Projection, factId: string): Option<FactState>
  {
    if factId in view then Some(view[factId]) else None
  }

  function Step(view: Projection, event: FactEvent): Result<Projection, TransitionError>
  {
    match Apply(Lookup(view, event.factId), event)
    case Ok(state) => Ok(view[event.factId := state])
    case Err(error) => Err(error)
  }

  function Replay(log: Log): Result<Projection, TransitionError>
  {
    if log == [] then Ok(map[])
    else
      var before := Replay(log[..|log| - 1]);
      if before.Err? then before else Step(before.value, log[|log| - 1])
  }

  /** One fact's own stream. */
  function StreamOf(log: Log, factId: string): Log
  {
    if log == [] then []
    else
      var before := StreamOf(log[..|log| - 1], factId);
      if log[|log| - 1].factId == factId then before + [log[|log| - 1]] else before
  }

  /** `replay_fact`: the fold of one stream, as the source loops it. */
  function ReplayFact(events: Log): Result<Option<FactState>, TransitionError>
  {
    if events == [] then Ok(None)
    else
      var before := ReplayFact(events[..|events| - 1]);
      if before.Err? then before
      else
        match Apply(before.value, events[|events| - 1])
        case Ok(state) => Ok(Some(state))
        case Err(error) => Err(error)
  }

  method FoldFact(events: Log) returns (state: Result<Option<FactState>, TransitionError>)
    ensures state == ReplayFact(events)
  {
    var current: Option<FactState> := None;
    for i := 0 to |events|
      invariant ReplayFact(events[..i]) == Ok(current)
    {
      assert events[..i + 1][..i] == events[..i];
      var next := Apply(current, events[i]);
      if next.Err? {
        ReplayStaysFailed(events, i + 1);
        return Err(next.error);
      }
      current := Some(next.value);
    }
    assert events[..|events|] == events;
    return Ok(current);
  }

  lemma {:induction false} ReplayStaysFailed(events: Log, n: nat)
    requires n <= |events| && ReplayFact(events[..n]).Err?
    ensures ReplayFact(events) == ReplayFact(events[..n])
    decreases |events|
  {
    if n < |events| {
      assert events[..|events| - 1][..n] == events[..n];
      ReplayStaysFailed(events[..|events| - 1], n);
    } else {
      assert events[..n] == events;
    }
  }

  /** Folding all streams at once agrees with folding each stream on its own. */
  lemma {:induction false} ReplayIsPerFact(log: Log, factId: string)
    requires Replay(log).Ok?
    ensures ReplayFact(StreamOf(log, factId)) == Ok(Lookup(Replay(log).value, factId))
  {
    if log != [] {
      var front, last := log[..|log| - 1], log[|log| - 1];
      ReplayIsPerFact(front, factId);
      if last.factId == factId {
        var stream := StreamOf(front, factId);
        assert (stream + [last])[..|stream|] == stream;
      }
    }
  }

  // ---- The firewall -------------------------------------------------------------------

  datatype StoreError =
    | Rejected(transition: TransitionError)
    | LaunderedAuthority(challenger: AuthorityLevel)
    | UnbackedSupersession
    | Conflict
    | BelowAuthorityFloor
    | TtlCeilingExceeded
    | UniquenessViolation

  function Arbitrate(view: Projection, event: FactEvent): Option<StoreError>
  {
    var applied := Apply(Lookup(view, event.factId), event);
    if applied.Err? then Some(Rejected(applied.error))
    else if event.kind.SupersededBy? then
      var incumbent, target := Lookup(view, event.factId), Lookup(view, event.kind.successor);
      if target.None? then Some(UnbackedSupersession)
      else if incumbent.Some? && !AtMost(incumbent.value.authority, target.value.authority) then
        Some(LaunderedAuthority(target.value.authority))
      else None
    else None
  }

  predicate HasEventId(log: Log, eventId: string)
  {
    exists i :: 0 <= i < |log| && log[i].eventId == eventId
  }

  /** A rehydrated store: the log and its projection. */
  datatype Store = Store(log: Log, view: Projection)

  function Append(store: Store, event: FactEvent): Result<Store, StoreError>
  {
    var refused := Arbitrate(store.view, event);
    if refused.Some? then Err(refused.value)
    else if HasEventId(store.log, event.eventId) then Err(Conflict)
    else
      match Step(store.view, event)
      case Ok(view) => Ok(Store(store.log + [event], view))
      case Err(error) => Err(Rejected(error))
  }

  /** The in-memory application of a whole operation; on a refusal, the event that was refused. */
  datatype Applied = AllApplied(store: Store) | Stopped(event: FactEvent, error: StoreError)

  function AppendAll(store: Store, events: Log): Applied
    decreases |events|
  {
    if events == [] then AllApplied(store)
    else
      match Append(store, events[0])
      case Ok(next) => AppendAll(next, events[1..])
      case Err(error) => Stopped(events[0], error)
  }

  method ApplyEach(store: Store, events: Log) returns (applied: Applied)
    ensures applied == AppendAll(store, events)
  {
    var current := store;
    for i := 0 to |events|
      invariant AppendAll(store, events) == AppendAll(current, events[i..])
    {
      assert events[i..][1..] == events[i + 1..];
      var next := Append(current, events[i]);
      if next.Err? { return Stopped(events[i], next.error); }
      current := next.value;
    }
    return AllApplied(current);
  }
}
