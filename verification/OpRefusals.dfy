/** Why an operation is refused: what the answer says is the case. */
module OpRefusals {
  import opened Wrappers
  import opened AuthorityLevels
  import opened Text
  import opened EventIds
  import opened Registry
  import RegistryGate
  import opened FactLog
  import opened FactIndex
  import opened Policies
  import opened PolicyMeaning
  import opened Reload
  import opened Identity
  import opened IdentityProofs
  import opened Ops
  import opened Batches
  import opened OpEffects
  import opened LogInvariants
  import opened OpRequests
  import opened OpTheorems
  import opened OpOutcomes

  ghost predicate IsOutranked(view: Projection, request: Request)
  {
    exists id :: Believes(view, request.subject, request.pred, id) && Rank(request.authority) < Rank(view[id].authority)
  }

  /** The store's own answer to the batch. */
  ghost predicate StoreSaysWhy(view: Projection, request: Request, now: int, cause: StoreError)
  {
    match cause
    case Rejected(InvalidEvent) => HasEmptyWindow(request)
    case Rejected(InsufficientAuthority) => (request.op.Supersede? || request.op.Retract? || request.op.Expire?) && IsOutranked(view, request)
    case Rejected(CanonicalContradiction) =>
      request.op.Contradict? && exists id :: Believes(view, request.subject, request.pred, id) && view[id].authority == Canonical
    case BelowAuthorityFloor => (request.op.Assert? || request.op.Derive?) && !MeetsTheFloor(request)
    case TtlCeilingExceeded => (request.op.Assert? || request.op.Derive?) && !IsWithinRetention(request, request.op.validity, now)
    case UniquenessViolation => (request.op.Assert? || request.op.Derive?) && !HasNoRival(view, request, now)
    case _ => false
  }

  ghost predicate SaysWhy(env: Env, log: Log, request: Request, error: OpError)
    requires Replay(log).Ok?
  {
    var view := Replay(log).value;
    match error
    case AuthorityRefused(outcome) =>
      && env.sources.Some? && !RegistryGate.Authorized(env.sources.value, request.Auth())
      && RegistryGate.GateSaysWhy(env.sources.value, request.Auth(), outcome)
    case IdentityRefused(refused) => IsTheCase(env.keys, env.ctx, request.Auth(), env.at.gate, refused)
    case Unloadable => Load(log, env.at.load).None?
    case EmptyName =>
      || !IsNamed(request)
      || (request.op.Derive? && (IsBlank(request.op.fromSubject.kind) || IsBlank(request.op.fromSubject.key) || IsBlank(request.op.fromPred)))
    case EmptyDecision => request.op.MarkUsedInDecision? && IsBlank(request.op.decision)
    case NothingBelieved =>
      if request.op.Derive? then forall id :: !Believes(view, request.op.fromSubject, request.op.fromPred, id)
      else !SomethingBelieved(view, request)
    case BelowFloor => request.op.Supersede? && !MeetsTheFloor(request)
    case ContentRefused => !env.contentAdmits
    case UnearnedSupersession(incumbent) => request.op.Supersede? && env.entrenchmentGate && HoldsOut(log, request, incumbent)
    case StoreRefused(cause) => StoreSaysWhy(view, request, env.at.decide, cause)
    case CommitFailed(_) => false
  }

  /** Whatever an operation is refused for is so; nothing is refused for a failed signature or a clash past the gate. */
  lemma RefusalSaysWhy(env: Env, log: Log, request: Request)
    requires Lawful(log) && Run(env, log, request).result.Err?
    ensures SaysWhy(env, log, request, Run(env, log, request).result.error)
  {
    hide Lawful, Replay, Load, Gate, IsBlank, SaysWhy, Execute;
    LawfulReplays(log);
    UnattemptedSaysWhy(env, log, request);
    if request.op.MarkUsedInDecision? && IsBlank(request.op.decision) {
    } else if Gate(env, request).Some? {
      GateSaysWhy(env, log, request);
    } else if Load(log, env.at.load).Some? {
      LoadedStore(log, env.at.load);
      PastTheGateSaysWhy(env, log, request);
    }
  }

  lemma UnattemptedSaysWhy(env: Env, log: Log, request: Request)
    requires Replay(log).Ok?
    ensures request.op.MarkUsedInDecision? && IsBlank(request.op.decision) ==> SaysWhy(env, log, request, EmptyDecision)
    ensures Load(log, env.at.load).None? ==> SaysWhy(env, log, request, Unloadable)
  {
    hide Replay, Load, IsBlank;
  }

  lemma GateSaysWhy(env: Env, log: Log, request: Request)
    requires Replay(log).Ok? && Gate(env, request).Some?
    ensures SaysWhy(env, log, request, Gate(env, request).value)
  {
    hide Replay, GateDecision, EnforceWrite, IsTheCase, RegistryGate.Authorized, RegistryGate.GateSaysWhy;
    if env.sources.Some? {
      RegistryGate.GateAcceptsIffAuthorized(env.sources.value, request.Auth());
      RegistryGate.GateAnswerIsTheCase(env.sources.value, request.Auth());
    }
    RefusalIsTheCase(env.keys, env.ctx, request.Auth(), env.at.gate);
  }

  lemma PastTheGateSaysWhy(env: Env, log: Log, request: Request)
    requires Lawful(log) && Replay(log).Ok? && Gate(env, request) == None
    requires request.op.MarkUsedInDecision? ==> !IsBlank(request.op.decision)
    requires Execute(env, log, Store(log, Replay(log).value), request).result.Err?
    ensures SaysWhy(env, log, request, Execute(env, log, Store(log, Replay(log).value), request).result.error)
  {
    hide Lawful, Replay, Load, Gate, AttestAll, AppendAll, IsBlank, IsExpectedStop, StoreSaysWhy, Decide, SaysWhy;
    hide RecordSurvivedChallenge, PersistChallengeRecord;
    var store := Store(log, Replay(log).value);
    match Decide(env, store, request)
    case Refuse(_) => DecisionSaysWhy(env, log, request);
    case RefuseUnearned(incumbent, _) => UnearnedSaysWhy(env, log, request);
    case Attempt(events) =>
      CommitOutcome(env, log, store, request, events);
      StopsAreExpected(env, log, store, request);
      var applied := AppendAll(store, events);
      StopSaysWhy(env, log, store, request, applied.event, applied.error);
  }

  lemma StopSaysWhy(env: Env, log: Log, store: Store, request: Request, event: FactEvent, error: StoreError)
    requires Replay(log) == Ok(store.view) && IsExpectedStop(store, request, event, error)
    ensures SaysWhy(env, log, request, StoreRefused(error))
  {
    hide Replay, Believes;
  }

  lemma UnearnedSaysWhy(env: Env, log: Log, request: Request)
    requires Replay(log).Ok? && Decide(env, Store(log, Replay(log).value), request).RefuseUnearned?
    ensures SaysWhy(env, log, request, UnearnedSupersession(Decide(env, Store(log, Replay(log).value), request).incumbent))
  {
    hide Replay, BelievedFactIds, FirstOutEntrenching, HoldsOut, DecideAssertion, DecideContradiction;
    hide DecidePerIncumbent, IsBlank, BuildRevision;
    hide PolicyFor;
    DecisionUnearnedOnlyOnSupersession(env, Store(log, Replay(log).value), request);
    FirstHoldsOut(log, request);
  }

  lemma DecisionSaysWhy(env: Env, log: Log, request: Request)
    requires Lawful(log) && Replay(log).Ok? && Gate(env, request) == None
    requires Decide(env, Store(log, Replay(log).value), request).Refuse?
    ensures SaysWhy(env, log, request, Decide(env, Store(log, Replay(log).value), request).error)
  {
    hide Lawful, Replay, Gate, BelievedFactIds, ExplainSubject, IsBlank, SaysWhy, DecideAssertion, DecideSupersession;
    hide DecideContradiction, DecidePerIncumbent;
    var store := Store(log, Replay(log).value);
    match request.op
    case Assert(value, validity) => AssertionSaysWhy(env, log, request, value, validity);
    case Derive(value, validity, fromSubject, fromPred) =>
      GroundSaysWhy(env, log, request);
      if DecideAssertion(env, store, request, value, validity).Refuse? { AssertionSaysWhy(env, log, request, value, validity); }
    case Supersede(value, validity) => SupersessionSaysWhy(env, log, request, value, validity);
    case Contradict(value, validity) => ContradictionSaysWhy(env, log, request, value, validity);
    case _ => PerIncumbentSaysWhy(env, log, request);
  }

  lemma GroundSaysWhy(env: Env, log: Log, request: Request)
    requires Replay(log).Ok? && request.op.Derive?
    ensures BelievedFactIds(Store(log, Replay(log).value), request.op.fromSubject, request.op.fromPred) == [] ==>
              SaysWhy(env, log, request, NothingBelieved)
    ensures IsBlank(request.op.fromSubject.kind) || IsBlank(request.op.fromSubject.key) || IsBlank(request.op.fromPred) ==>
              SaysWhy(env, log, request, EmptyName)
  {
    hide Replay, BelievedFactIds, IsBlank, Believes;
    BelievedFactIdsAreTheBelieved(Store(log, Replay(log).value), request.op.fromSubject, request.op.fromPred);
  }

  lemma AssertionSaysWhy(env: Env, log: Log, request: Request, value: string, validity: Validity)
    requires Lawful(log) && Replay(log).Ok? && Gate(env, request) == None
    requires (request.op.Assert? || request.op.Derive?) && request.op.value == value && request.op.validity == validity
    requires DecideAssertion(env, Store(log, Replay(log).value), request, value, validity).Refuse?
    ensures SaysWhy(env, log, request, DecideAssertion(env, Store(log, Replay(log).value), request, value, validity).error)
  {
    hide Lawful, Replay, Gate, BelievedFactIds, IsBlank, AssertedFact, NewFact, EnforcePolicy, MeetsTheFloor;
    hide IsWithinRetention, HasNoRival, AttestAll, IsAskedFor;
    var store := Store(log, Replay(log).value);
    if HasEmptyTarget(request) || IsBlank(request.source) {
      EmptyNamesAreRefused(env, store, request, value, validity);
    } else {
      AssertionDecision(env, store, request, value, validity);
      var event := AssertedFact(store, request, value, validity, env.at.decide);
      FactIsAskedFor(log, request, value, validity, env.at.decide);
      PolicyAdmitsAsAsked(store.view, event, |log|, request, value, validity, env.at.decide);
    }
  }

  lemma FactIsAskedFor(log: Log, request: Request, value: string, validity: Validity, now: int)
    requires Lawful(log) && Replay(log).Ok?
    ensures var event := AssertedFact(Store(log, Replay(log).value), request, value, validity, now);
            IsAskedFor(event, |log|, request, value, validity, now) && event.factId !in Replay(log).value
  {
    hide Replay, Lawful, NewFact, BelievedFactIds, NextSeq, Decimal, FactState.IsExpiredAt;
    FreshNewFact(log, request, value, validity, now);
  }

  lemma SupersessionSaysWhy(env: Env, log: Log, request: Request, value: string, validity: Validity)
    requires Replay(log).Ok? && request.op == Op.Supersede(value, validity)
    requires DecideSupersession(env, Store(log, Replay(log).value), request, value, validity).Refuse?
    ensures SaysWhy(env, log, request, DecideSupersession(env, Store(log, Replay(log).value), request, value, validity).error)
  {
    hide Replay, BelievedFactIds, FirstOutEntrenching, IsBlank, BuildRevision, PolicyFor, ReachesTheFloor, SomethingBelieved;
    BelievedIffSome(Store(log, Replay(log).value), request);
    FloorIff(request.subject, request.pred, request.authority);
  }

  lemma ContradictionSaysWhy(env: Env, log: Log, request: Request, value: string, validity: Validity)
    requires Replay(log).Ok? && request.op == Op.Contradict(value, validity)
    requires DecideContradiction(env, Store(log, Replay(log).value), request, value, validity).Refuse?
    ensures SaysWhy(env, log, request, DecideContradiction(env, Store(log, Replay(log).value), request, value, validity).error)
  {
    hide Replay, ExplainSubject, IsBlank, BuildContradiction, Believes, Preference, Before;
    ExplainedFactIsPreferred(Store(log, Replay(log).value), request.subject, request.pred, env.at.decide);
  }

  lemma PerIncumbentSaysWhy(env: Env, log: Log, request: Request)
    requires Replay(log).Ok? && IsPerIncumbent(request.op)
    requires DecidePerIncumbent(env, Store(log, Replay(log).value), request).Refuse?
    ensures SaysWhy(env, log, request, DecidePerIncumbent(env, Store(log, Replay(log).value), request).error)
  {
    hide Replay, BelievedFactIds, IsBlank, BuildPerIncumbent, SomethingBelieved;
    BelievedIffSome(Store(log, Replay(log).value), request);
  }

  // ---- What a refusal leaves behind ---------------------------------------------------

  /** The request was refused because a believed fact held against it. */
  predicate IsLostContest(error: OpError)
  {
    || error.UnearnedSupersession?
    || error == StoreRefused(Rejected(TransitionError.InsufficientAuthority))
    || error == StoreRefused(Rejected(CanonicalContradiction))
  }

  /** How the contest is put on record: what was tried, by which fact where there was one, and why it was lost. */
  function LostContest(request: Request, n: nat, error: OpError): EventKind
  {
    var challenger := if request.op.Supersede? || request.op.Contradict? then
                        Some("fact:" + request.subject.kind + ":" + request.subject.key + ":" + request.pred + ":" + Decimal(n))
                      else None;
    var attempt := match request.op
                   case Contradict(_, _) => Contradiction
                   case Retract => Retraction
                   case Expire => Expiration
                   case _ => Supersession;
    ChallengeRejected(attempt, challenger,
                      if error.UnearnedSupersession? then WeakerEntrenchment
                      else if request.op.Contradict? then CanonicalAlarm else InsufficientStrength)
  }

  /** The log is extended by one mark of the lost contest, on a believed fact that held. */
  ghost predicate RecordsTheContest(log: Log, after: Log, request: Request, error: OpError, now: int)
    requires Replay(log).Ok?
  {
    && |after| == |log| + 1 && after[..|log|] == log
    && HoldsAgainst(Replay(log).value, request, after[|log|].factId)
    && IsMark(after[|log|], |log|, after[|log|].factId, LostContest(request, |log|, error), request, now)
  }

  lemma RecordIsAppended(env: Env, log: Log, request: Request, challenge: Challenge)
    requires Lawful(log) && Replay(log).Ok? && Gate(env, request) == None && Load(log, env.at.reload).Some?
    requires Believes(Replay(log).value, request.subject, request.pred, challenge.incumbent)
    requires challenge.subject == request.subject && challenge.pred == request.pred
    ensures var after := PersistChallengeRecord(env, log, challenge);
            var record := ChallengeRecord(|log|, challenge, env.at.record);
            && |after| == |log| + 1 && after[..|log|] == log && after[|log|] == record.(attestation := after[|log|].attestation)
  {
    hide Replay, Lawful, Gate, Apply, AttestAll, HasEventId, NextSeq, EventId, IsSupported, IsSound, DistinctIds;
    LoadedStore(log, env.at.reload);
    MintedFactIsFresh(log, request);
    var store := Store(log, Replay(log).value);
    var record := ChallengeRecord(|log|, challenge, env.at.record);
    MintedIdsAreFresh(log, |log|);
    SupportApplies(store.view[challenge.incumbent], record);
    AdmittedEventApplies(store, record);
    GatedAttestationSucceeds(env, request, [record]);
    var signed := AttestAll(env.keys, env.ctx, [record]).value.events;
    assert signed == [signed[0]] && (log + signed)[..|log|] == log && (log + signed)[|log|] == signed[0];
  }

  lemma RecordIsMark(n: nat, challenge: Challenge, request: Request, now: int, signed: FactEvent)
    requires signed == ChallengeRecord(n, challenge, now).(attestation := signed.attestation)
    requires challenge.subject == request.subject && challenge.pred == request.pred
    requires challenge.source == request.source && challenge.effective == request.authority
    ensures IsMark(signed, n, challenge.incumbent, ChallengeRejected(challenge.kind, challenge.challenger, challenge.rejection), request, now)
  {
    hide Decimal;
  }

  /** A lost contest, put on record where that can be done. */
  lemma ContestIsRecorded(env: Env, log: Log, request: Request, challenge: Challenge, error: OpError)
    requires Lawful(log) && Replay(log).Ok? && Gate(env, request) == None
    requires HoldsAgainst(Replay(log).value, request, challenge.incumbent)
    requires challenge.subject == request.subject && challenge.pred == request.pred
    requires challenge.source == request.source && challenge.effective == request.authority
    requires ChallengeRejected(challenge.kind, challenge.challenger, challenge.rejection) == LostContest(request, |log|, error)
    ensures var after := PersistChallengeRecord(env, log, challenge);
            if Load(log, env.at.reload).Some? then RecordsTheContest(log, after, request, error, env.at.record) else after == log
  {
    if Load(log, env.at.reload).Some? {
      hide Replay, Lawful, Gate, LostContest, PersistChallengeRecord, Load, OutEntrenches, ChallengeRecord, IsMark;
      RecordIsAppended(env, log, request, challenge);
      var after := PersistChallengeRecord(env, log, challenge);
      RecordIsMark(|log|, challenge, request, env.at.record, after[|log|]);
      assert after[|log|].factId == challenge.incumbent by { hide *; RecordIsOnTheIncumbent(|log|, challenge, env.at.record, after[|log|]); }
    }
  }

  lemma RecordIsOnTheIncumbent(n: nat, challenge: Challenge, now: int, signed: FactEvent)
    requires signed == ChallengeRecord(n, challenge, now).(attestation := signed.attestation)
    ensures signed.factId == challenge.incumbent
  {
    hide EventId;
  }

  /**
   A refusal is put on record exactly when a believed fact held against the request, recording is on and the log still
   loads; any other refusal leaves the log as it was.
   */
  lemma ContestIsRecordedIff(env: Env, log: Log, request: Request)
    requires Lawful(log) && Replay(log).Ok? && Run(env, log, request).result.Err?
    ensures var ran := Run(env, log, request);
            if env.recordsChallenges && IsLostContest(ran.result.error) && Load(log, env.at.reload).Some? then
              RecordsTheContest(log, ran.log, request, ran.result.error, env.at.record)
            else ran.log == log
  {
    hide Lawful, Replay, Load, Gate, AttestAll, AppendAll, IsBlank, IsExpectedStop, Decide, PersistChallengeRecord, RecordsTheContest;
    GateAnswersForItself(env, request);
    if Gate(env, request) == None && Load(log, env.at.load).Some? && !(request.op.MarkUsedInDecision? && IsBlank(request.op.decision)) {
      LoadedStore(log, env.at.load);
      var store := Store(log, Replay(log).value);
      match Decide(env, store, request)
      case Refuse(error) => DecisionLosesNoContest(env, store, request);
      case RefuseUnearned(incumbent, challenger) => UnearnedIsRecorded(env, log, request);
      case Attempt(events) =>
        CommitOutcome(env, log, store, request, events);
        StopsAreExpected(env, log, store, request);
        StopIsRecorded(env, log, request);
    }
  }

  lemma DecisionLosesNoContest(env: Env, store: Store, request: Request)
    requires Decide(env, store, request).Refuse?
    ensures !IsLostContest(Decide(env, store, request).error)
  {
    hide AttestAll, EnforcePolicy, AssertedFact, BelievedFactIds, ExplainSubject, FirstOutEntrenching, IsBlank;
    hide BuildRevision, BuildContradiction, BuildPerIncumbent;
    hide PolicyFor;
    forall value, validity | DecideAssertion(env, store, request, value, validity).Refuse?
      ensures !IsLostContest(DecideAssertion(env, store, request, value, validity).error)
    {
      AssertionLosesNoContest(env, store, request, value, validity);
    }
  }

  lemma AssertionLosesNoContest(env: Env, store: Store, request: Request, value: string, validity: Validity)
    requires DecideAssertion(env, store, request, value, validity).Refuse?
    ensures !IsLostContest(DecideAssertion(env, store, request, value, validity).error)
  {
    hide AttestAll, AssertedFact, IsBlank, PolicyFor, HasFreshRival, ExceedsCeiling;
  }

  lemma UnearnedIsRecorded(env: Env, log: Log, request: Request)
    requires Lawful(log) && Replay(log).Ok? && Gate(env, request) == None
    requires Decide(env, Store(log, Replay(log).value), request).RefuseUnearned?
    ensures var ran := Execute(env, log, Store(log, Replay(log).value), request);
            && ran.result.Err? && IsLostContest(ran.result.error)
            && if env.recordsChallenges && Load(log, env.at.reload).Some? then
                 RecordsTheContest(log, ran.log, request, ran.result.error, env.at.record)
               else ran.log == log
  {
    hide Lawful, Replay, Load, Gate, Decide, PersistChallengeRecord, RecordsTheContest, HoldsAgainst, FactId, Decimal;
    var store := Store(log, Replay(log).value);
    UnearnedHolds(env, store, request);
    DecisionUnearnedOnlyOnSupersession(env, store, request);
    UnearnedNamesTheReplacement(env, log, request);
    var decision := Decide(env, store, request);
    var challenge := Challenge(decision.incumbent, request.subject, request.pred, Supersession, Some(decision.challenger),
                               WeakerEntrenchment, request.source, request.authority);
    ContestIsRecorded(env, log, request, challenge, UnearnedSupersession(decision.incumbent));
  }

  lemma UnearnedNamesTheReplacement(env: Env, log: Log, request: Request)
    requires Lawful(log) && Replay(log).Ok? && request.op.Supersede?
    requires Decide(env, Store(log, Replay(log).value), request).RefuseUnearned?
    ensures Some(Decide(env, Store(log, Replay(log).value), request).challenger) ==
            Some("fact:" + request.subject.kind + ":" + request.subject.key + ":" + request.pred + ":" + Decimal(|log|))
  {
    hide Lawful, Replay, BelievedFactIds, FirstOutEntrenching, IsBlank, PolicyFor, NewFact, BuildPerIncumbent, NextSeq, Decimal;
    FreshNewFact(log, request, request.op.value, request.op.validity, env.at.decide);
  }

  /** The event a lost attempt was stopped at says what was tried. */
  lemma StopIsRecorded(env: Env, log: Log, request: Request)
    requires Lawful(log) && Replay(log).Ok? && Gate(env, request) == None
    requires var store := Store(log, Replay(log).value);
             && Decide(env, store, request).Attempt?
             && AppendAll(store, Decide(env, store, request).events).Stopped?
             && var applied := AppendAll(store, Decide(env, store, request).events);
                IsExpectedStop(store, request, applied.event, applied.error)
    ensures var store := Store(log, Replay(log).value);
            var ran := Commit(env, log, store, Decide(env, store, request).events);
            && ran.result.Err?
            && if env.recordsChallenges && IsLostContest(ran.result.error) && Load(log, env.at.reload).Some? then
                 RecordsTheContest(log, ran.log, request, ran.result.error, env.at.record)
               else ran.log == log
  {
    hide Lawful, Replay, Load, Gate, Decide, AppendAll, PersistChallengeRecord, RecordsTheContest, Believes, FactId, Decimal;
    var store := Store(log, Replay(log).value);
    var events := Decide(env, store, request).events;
    var applied := AppendAll(store, events);
    var challenge := ClassifyChallenge(applied.event, applied.error);
    if IsLostContest(StoreRefused(applied.error)) {
      StoppedMark(env, log, request);
      assert challenge.Some?;
      if env.recordsChallenges { ContestIsRecorded(env, log, request, challenge.value, StoreRefused(applied.error)); }
    }
  }

  /** A batch on a believed fact is stopped at its mark on that fact. */
  lemma StoppedMark(env: Env, log: Log, request: Request)
    requires Lawful(log) && Replay(log).Ok?
    requires request.op.Supersede? || request.op.Contradict? || request.op.Retract? || request.op.Expire?
    requires var store := Store(log, Replay(log).value);
             && Decide(env, store, request).Attempt?
             && AppendAll(store, Decide(env, store, request).events).Stopped?
             && Believes(store.view, request.subject, request.pred, AppendAll(store, Decide(env, store, request).events).event.factId)
    ensures var store := Store(log, Replay(log).value);
            IsTheMark(request, |log|, AppendAll(store, Decide(env, store, request).events).event.kind)
  {
    hide Lawful, Replay, Decide, AppendAll, IsTheMark, Believes;
    var store := Store(log, Replay(log).value);
    var events := Decide(env, store, request).events;
    AppendedStoreIsTheFold(store, events);
    AttemptMarks(env, log, request);
    var event := AppendAll(store, events).event;
    BelievedIsThere(store.view, request.subject, request.pred, event.factId);
  }

  predicate IsTheMark(request: Request, n: nat, kind: EventKind)
  {
    var fact := "fact:" + request.subject.kind + ":" + request.subject.key + ":" + request.pred + ":" + Decimal(n);
    match request.op
    case Supersede(_, _) => kind == SupersededBy(fact)
    case Contradict(_, _) => kind == ContradictedBy(fact)
    case Retract => kind == RetractedEvent
    case Expire => kind == ExpiredEvent
    case _ => false
  }

  /** Every event of an attempt is its mark, or on the fact it mints. */
  lemma AttemptMarks(env: Env, log: Log, request: Request)
    requires Lawful(log) && Replay(log).Ok? && Decide(env, Store(log, Replay(log).value), request).Attempt?
    requires request.op.Supersede? || request.op.Contradict? || request.op.Retract? || request.op.Expire?
    ensures forall event :: event in Decide(env, Store(log, Replay(log).value), request).events ==>
              IsTheMark(request, |log|, event.kind) || event.factId !in Replay(log).value
  {
    hide Lawful, Replay, BelievedFactIds, FirstOutEntrenching, ExplainSubject, IsBlank, PolicyFor, NewFact, NextSeq;
    hide Decimal, BuildRevision, BuildContradiction, BuildPerIncumbent;
    var store, n, now := Store(log, Replay(log).value), |log|, env.at.decide;
    var ids := BelievedFactIds(store, request.subject, request.pred);
    MintedFactIsFresh(log, request);
    if request.op.Supersede? {
      FreshNewFact(log, request, request.op.value, request.op.validity, now);
      RevisionKinds(n, ids, request, request.op.value, request.op.validity, now);
    } else if request.op.Contradict? {
      FreshNewFact(log, request, request.op.value, request.op.validity, now);
      ContradictionKinds(n, ExplainSubject(store, request.subject, request.pred, now).value, request, request.op.value, request.op.validity, now);
    } else {
      PerIncumbentKinds(n, ids, incumbent => IncumbentKind(request.op, incumbent), request, now);
    }
  }

  lemma ContradictionKinds(n: nat, incumbent: string, request: Request, value: string, validity: Validity, now: int)
    ensures var fact := NewFact(n, request, value, validity, now);
            forall event :: event in BuildContradiction(n, incumbent, request, value, validity, now) ==>
              event == fact || event.kind == ContradictedBy(fact.factId)
  {
    hide NewFact, EventId;
  }

  lemma PerIncumbentKinds(n: nat, ids: seq<string>, kindFor: string -> EventKind, request: Request, now: int)
    ensures forall event :: event in BuildPerIncumbent(n, ids, kindFor, request, now) ==> event.kind == kindFor(event.factId)
  {
    hide EventId;
  }

  lemma RevisionKinds(n: nat, ids: seq<string>, request: Request, value: string, validity: Validity, now: int)
    ensures var fact := NewFact(n, request, value, validity, now);
            forall event :: event in BuildRevision(n, ids, request, value, validity, now) ==>
              event == fact || event.kind == SupersededBy(fact.factId)
  {
    hide NewFact, BuildPerIncumbent;
    var fact := NewFact(n, request, value, validity, now).factId;
    PerIncumbentKinds(n + 1, ids, _ => SupersededBy(fact), request, now);
  }
}
