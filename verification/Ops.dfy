/**
 The write operations: gate, load, decide, apply in memory, persist all or nothing; and the record
 an incumbent keeps of a challenge it survived.
 */
module Ops {
  import opened Wrappers
  import opened AuthorityLevels
  import opened Text
  import opened EventIds
  import opened Registry
  import opened FactLog
  import opened FactIndex
  import opened Policies
  import opened Reload
  import opened Identity

  // ---- What an operation is given -----------------------------------------------------

  datatype Validity = Validity(start: Option<int>, end: Option<int>, ttl: Option<nat>)

  datatype Op =
    | Assert(value: string, validity: Validity)
    | Derive(value: string, validity: Validity, fromSubject: Subject, fromPred: string)
    | Supersede(value: string, validity: Validity)
    | Contradict(value: string, validity: Validity)
    | Retract
    | Expire
    | Reinforce
    | MarkUsedInDecision(decision: string)

  datatype Request = Request(subject: Subject, pred: string, authority: AuthorityLevel, source: string, op: Op)
  {
    function Auth(): WriteAuth { WriteAuth(subject.kind, subject.key, authority, source) }
  }

  /** The clock as each step reads it. */
  datatype Times = Times(gate: int, load: int, decide: int, reload: int, record: int)
  {
    predicate InOrder() { gate <= load <= decide <= reload <= record }
  }

  /** The configuration an operation runs under; `contentAdmits` is the verdict of the content scanner. */
  datatype Env = Env(
    sources: Option<Sources>, ctx: Context, keys: Keyring,
    contentAdmits: bool, recordsChallenges: bool, entrenchmentGate: bool, at: Times)

  datatype OpError =
    | AuthorityRefused(outcome: GateOutcome)
    | IdentityRefused(error: IdentityError)
    | Unloadable
    | EmptyName
    | EmptyDecision
    | NothingBelieved
    | BelowFloor
    | ContentRefused
    | UnearnedSupersession(incumbent: string)
    | StoreRefused(cause: StoreError)
    | CommitFailed(error: IdentityError)

  // ---- Minting events -----------------------------------------------------------------

  /** One past the highest number any `event:<n>` id of the log carries. */
  function NextSeq(log: Log): nat
  {
    if log == [] then 0
    else
      var before, number := NextSeq(log[..|log| - 1]), EventNumber(log[|log| - 1].eventId);
      if number.Some? && before <= number.value then number.value + 1 else before
  }

  predicate HasEmptyTarget(request: Request)
  {
    IsBlank(request.subject.kind) || IsBlank(request.subject.key) || IsBlank(request.pred)
  }

  /** A fresh fact, stamped with its validity and the predicate's default TTL. */
  function NewFact(n: nat, request: Request, value: string, validity: Validity, now: int): FactEvent
  {
    var ttl := if validity.ttl.Some? then DurationMillis(validity.ttl.value) else Never;
    ApplyPolicyDefaults(FactEvent(
      EventId(n), FactId(request.subject.kind, request.subject.key, request.pred, n), Asserted, request.subject, request.pred,
      Some(FactValue.Text(value)), request.authority, request.source, ttl, None, validity.start, validity.end, now,
      Spoken(request.source), None))
  }

  /** The evidence every event carries: who says so. */
  function Spoken(source: string): seq<string> { ["cli:" + source] }

  /** The facts a derivation rests on: all that is believed about what it names as its source. */
  function Grounds(store: Store, request: Request): seq<string>
  {
    if request.op.Derive? then BelievedFactIds(store, request.op.fromSubject, request.op.fromPred) else []
  }

  /** What `assert` or `derive` adds. */
  function AssertedFact(store: Store, request: Request, value: string, validity: Validity, now: int): FactEvent
  {
    var event := NewFact(NextSeq(store.log), request, value, validity, now);
    event.(evidence := event.evidence + Grounds(store, request))
  }

  /** A value-less event on an existing fact. */
  function OnFact(n: nat, factId: string, kind: EventKind, request: Request, now: int): FactEvent
  {
    FactEvent(EventId(n), factId, kind, request.subject, request.pred, None, request.authority, request.source,
              Never, None, None, None, now, Spoken(request.source), None)
  }

  function IncumbentKind(op: Op, incumbent: string): EventKind
    requires op.Retract? || op.Expire? || op.Reinforce? || op.MarkUsedInDecision?
  {
    match op
    case Retract => RetractedEvent
    case Expire => ExpiredEvent
    case Reinforce => Reinforced(incumbent)
    case MarkUsedInDecision(decision) => UsedInDecision(Trim(decision))
  }

  /** One event per incumbent, of the kind `kindFor` chooses, numbered from `n`. */
  function BuildPerIncumbent(n: nat, incumbents: seq<string>, kindFor: string -> EventKind, request: Request, now: int): Log
  {
    seq(|incumbents|, i requires 0 <= i < |incumbents| => OnFact(n + i, incumbents[i], kindFor(incumbents[i]), request, now))
  }

  /** The replacement first, so the supersessions can resolve it; then one supersession per incumbent. */
  function BuildRevision(n: nat, incumbents: seq<string>, request: Request, value: string, validity: Validity, now: int): Log
  {
    var replacement := NewFact(n, request, value, validity, now);
    [replacement] + BuildPerIncumbent(n + 1, incumbents, _ => SupersededBy(replacement.factId), request, now)
  }

  function BuildContradiction(n: nat, incumbent: string, request: Request, value: string, validity: Validity, now: int): Log
  {
    var opposing := NewFact(n, request, value, validity, now);
    [opposing, OnFact(n + 1, incumbent, ContradictedBy(opposing.factId), request, now)]
  }

  // ---- Deciding -----------------------------------------------------------------------

  function CountAtOrAbove(levels: map<string, AuthorityLevel>, floor: AuthorityLevel): nat
  {
    |set source | source in levels && AtMost(floor, levels[source])|
  }

  /** Independent backing plus survived challenges, each counted at `floor` or above. */
  function EarnedEntrenchment(state: FactState, floor: AuthorityLevel): nat
  {
    CountAtOrAbove(state.corroborating, floor) + CountAtOrAbove(state.survived, floor)
  }

  /** At equal authority, an incumbent with more than one backer or survival holds against a newcomer. */
  predicate OutEntrenches(view: Projection, incumbent: string, authority: AuthorityLevel)
  {
    incumbent in view && view[incumbent].authority == authority
    && 1 < EarnedEntrenchment(view[incumbent], authority)
  }

  function FirstOutEntrenching(incumbents: seq<string>, view: Projection, authority: AuthorityLevel): Option<string>
  {
    if incumbents == [] then None
    else if OutEntrenches(view, incumbents[0], authority) then Some(incumbents[0])
    else FirstOutEntrenching(incumbents[1..], view, authority)
  }

  datatype Decision =
    | Refuse(error: OpError)
    | RefuseUnearned(incumbent: string, challenger: string)
    | Attempt(events: Log)

  function DecideAssertion(env: Env, store: Store, request: Request, value: string, validity: Validity): Decision
  {
    if HasEmptyTarget(request) || IsBlank(request.source) then Refuse(EmptyName)
    else if !env.contentAdmits then Refuse(ContentRefused)
    else
      match AttestAll(env.keys, env.ctx, [AssertedFact(store, request, value, validity, env.at.decide)])
      case Err(error) => Refuse(IdentityRefused(error))
      case Ok(batch) =>
        var refused := EnforcePolicy(store.view, batch.events[0], env.at.decide);
        if refused.Some? then Refuse(StoreRefused(refused.value)) else Attempt(batch.events)
  }

  function DecideSupersession(env: Env, store: Store, request: Request, value: string, validity: Validity): Decision
  {
    var incumbents := BelievedFactIds(store, request.subject, request.pred);
    var policy := PolicyFor(request.subject, request.pred);
    if HasEmptyTarget(request) then Refuse(EmptyName)
    else if incumbents == [] then Refuse(NothingBelieved)
    else if policy.Some? && !AtMost(policy.value.authorityFloor, request.authority) then Refuse(BelowFloor)
    else if IsBlank(request.source) then Refuse(EmptyName)
    else if !env.contentAdmits then Refuse(ContentRefused)
    else
      var events := BuildRevision(NextSeq(store.log), incumbents, request, value, validity, env.at.decide);
      var holding := FirstOutEntrenching(incumbents, store.view, request.authority);
      if env.entrenchmentGate && holding.Some? then RefuseUnearned(holding.value, events[0].factId) else Attempt(events)
  }

  function DecideContradiction(env: Env, store: Store, request: Request, value: string, validity: Validity): Decision
  {
    var incumbent := ExplainSubject(store, request.subject, request.pred, env.at.decide);
    if HasEmptyTarget(request) then Refuse(EmptyName)
    else if incumbent.None? then Refuse(NothingBelieved)
    else if IsBlank(request.source) then Refuse(EmptyName)
    else if !env.contentAdmits then Refuse(ContentRefused)
    else Attempt(BuildContradiction(NextSeq(store.log), incumbent.value, request, value, validity, env.at.decide))
  }

  function DecidePerIncumbent(env: Env, store: Store, request: Request): Decision
    requires request.op.Retract? || request.op.Expire? || request.op.Reinforce? || request.op.MarkUsedInDecision?
  {
    var incumbents := BelievedFactIds(store, request.subject, request.pred);
    if HasEmptyTarget(request) then Refuse(EmptyName)
    else if incumbents == [] then Refuse(NothingBelieved)
    else if IsBlank(request.source) then Refuse(EmptyName)
    else
      var kindFor := incumbent => IncumbentKind(request.op, incumbent);
      Attempt(BuildPerIncumbent(NextSeq(store.log), incumbents, kindFor, request, env.at.decide))
  }

  function Decide(env: Env, store: Store, request: Request): Decision
  {
    match request.op
    case Assert(value, validity) => DecideAssertion(env, store, request, value, validity)
    case Derive(value, validity, fromSubject, fromPred) =>
      if IsBlank(fromSubject.kind) || IsBlank(fromSubject.key) || IsBlank(fromPred) then Refuse(EmptyName)
      else if BelievedFactIds(store, fromSubject, fromPred) == [] then Refuse(NothingBelieved)
      else DecideAssertion(env, store, request, value, validity)
    case Supersede(value, validity) => DecideSupersession(env, store, request, value, validity)
    case Contradict(value, validity) => DecideContradiction(env, store, request, value, validity)
    case _ => DecidePerIncumbent(env, store, request)
  }

  // ---- Challenges ---------------------------------------------------------------------

  datatype Challenge = Challenge(
    incumbent: string, subject: Subject, pred: string, kind: ChallengeKind, challenger: Option<string>,
    rejection: ChallengeRejection, source: string, effective: AuthorityLevel)

  /** Only a contest lost on strength counts; a malformed or duplicate write does not. */
  function ClassifyChallenge(event: FactEvent, error: StoreError): Option<Challenge>
  {
    var lost := (kind: ChallengeKind, challenger: Option<string>, rejection: ChallengeRejection, effective: AuthorityLevel) =>
      Some(Challenge(event.factId, event.subject, event.pred, kind, challenger, rejection, event.source, effective));
    var outranked := error == Rejected(TransitionError.InsufficientAuthority);
    match event.kind
    case SupersededBy(successor) =>
      if outranked then lost(Supersession, Some(successor), InsufficientStrength, event.authority)
      else if error.LaunderedAuthority? then lost(Supersession, Some(successor), Laundering, error.challenger)
      else None
    case ContradictedBy(rival) =>
      if error == Rejected(CanonicalContradiction) then lost(Contradiction, Some(rival), CanonicalAlarm, event.authority) else None
    case RetractedEvent => if outranked then lost(Retraction, None, InsufficientStrength, event.authority) else None
    case ExpiredEvent => if outranked then lost(Expiration, None, InsufficientStrength, event.authority) else None
    case _ => None
  }

  function ChallengeRecord(n: nat, challenge: Challenge, now: int): FactEvent
  {
    FactEvent(EventId(n), challenge.incumbent,
              ChallengeRejected(challenge.kind, challenge.challenger, challenge.rejection),
              challenge.subject, challenge.pred, None, challenge.effective, challenge.source, Never, None, None, None, now,
              Spoken(challenge.source), None)
  }

  /** Best effort, on a fresh load of the durable log: any failure records nothing. */
  ghost function PersistChallengeRecord(env: Env, log: Log, challenge: Challenge): Log
  {
    var store := Load(log, env.at.reload);
    if store.None? then log
    else
      var record := ChallengeRecord(NextSeq(log), challenge, env.at.record);
      if Append(store.value, record).Err? then log
      else
        match AttestAll(env.keys, env.ctx, [record])
        case Err(_) => log
        case Ok(batch) => log + batch.events
  }

  ghost function RecordSurvivedChallenge(env: Env, log: Log, event: FactEvent, error: StoreError): Log
  {
    var challenge := ClassifyChallenge(event, error);
    if !env.recordsChallenges || challenge.None? then log else PersistChallengeRecord(env, log, challenge.value)
  }

  // ---- Running ------------------------------------------------------------------------

  /** The durable log afterwards, and what was persisted or why it was not. */
  datatype Ran = Ran(log: Log, result: Result<Log, OpError>)

  /** The authority registry first, then the signed identity. */
  function Gate(env: Env, request: Request): Option<OpError>
  {
    var outcome := if env.sources.None? then Accepted else GateDecision(env.sources.value, request.Auth());
    if outcome != Accepted then Some(AuthorityRefused(outcome))
    else
      var refused := EnforceWrite(env.keys, env.ctx, request.Auth(), env.at.gate);
      if refused.Some? then Some(IdentityRefused(refused.value)) else None
  }

  ghost function Commit(env: Env, log: Log, store: Store, events: Log): Ran
  {
    match AppendAll(store, events)
    case Stopped(event, error) => Ran(RecordSurvivedChallenge(env, log, event, error), Err(StoreRefused(error)))
    case AllApplied(_) =>
      match AttestAll(env.keys, env.ctx, events)
      case Err(error) => Ran(log, Err(CommitFailed(error)))
      case Ok(batch) => Ran(log + batch.events, Ok(batch.events))
  }

  ghost function Execute(env: Env, log: Log, store: Store, request: Request): Ran
  {
    match Decide(env, store, request)
    case Refuse(error) => Ran(log, Err(error))
    case RefuseUnearned(incumbent, challenger) =>
      var challenge := Challenge(incumbent, request.subject, request.pred, Supersession, Some(challenger),
                                 WeakerEntrenchment, request.source, request.authority);
      Ran(if env.recordsChallenges then PersistChallengeRecord(env, log, challenge) else log,
          Err(UnearnedSupersession(incumbent)))
    case Attempt(events) => Commit(env, log, store, events)
  }

  ghost function Run(env: Env, log: Log, request: Request): Ran
  {
    if request.op.MarkUsedInDecision? && IsBlank(request.op.decision) then Ran(log, Err(EmptyDecision))
    else
      var refused, store := Gate(env, request), Load(log, env.at.load);
      if refused.Some? then Ran(log, Err(refused.value))
      else if store.None? then Ran(log, Err(Unloadable))
      else Execute(env, log, store.value, request)
  }
}
