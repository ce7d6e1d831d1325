/** For each operation: exactly when it succeeds, what it leaves behind, and what a refusal leaves behind. */
module OpTheorems {
  import opened Wrappers
  import opened AuthorityLevels
  import opened Text
  import opened EventIds
  import opened Registry
  import RegistryGate
  import opened FactLog
  import opened FactIndex
  import opened Policies
  import opened Reload
  import opened Identity
  import opened IdentityProofs
  import opened Ops
  import opened Batches
  import opened OpEffects
  import opened LogInvariants
  import opened Runs

  /** The registry, where there is one, authorizes the write, and so does the signed identity. */
  ghost predicate Permitted(env: Env, request: Request)
  {
    && (env.sources.Some? ==> RegistryGate.Authorized(env.sources.value, request.Auth()))
    && MayWrite(env.keys, env.ctx, request.Auth(), env.at.gate)
  }

  predicate IsNamed(request: Request)
  {
    !IsBlank(request.subject.kind) && !IsBlank(request.subject.key) && !IsBlank(request.pred) && !IsBlank(request.source)
  }

  /** The write is permitted, the log loads, and every name is given. */
  ghost predicate Ready(env: Env, log: Log, request: Request)
  {
    Permitted(env, request) && Load(log, env.at.load).Some? && IsNamed(request)
  }

  /** Both gates open exactly for the permitted writes. */
  lemma GateOpensIffPermitted(env: Env, request: Request)
    ensures Gate(env, request) == None <==> Permitted(env, request)
  {
    hide GateDecision, RegistryGate.Authorized, EnforceWrite, MayWrite;
    if env.sources.Some? { RegistryGate.GateAcceptsIffAuthorized(env.sources.value, request.Auth()); }
    WriteIsAdmittedIff(env.keys, env.ctx, request.Auth(), env.at.gate);
  }

  lemma ReadyIff(env: Env, log: Log, request: Request)
    ensures Ready(env, log, request) <==>
            && Gate(env, request) == None && Load(log, env.at.load).Some?
            && !HasEmptyTarget(request) && !IsBlank(request.source)
  {
    hide Gate, Permitted, Load, IsBlank;
    GateOpensIffPermitted(env, request);
  }

  ghost predicate SomethingBelieved(view: Projection, request: Request)
  {
    exists id :: Believes(view, request.subject, request.pred, id)
  }

  /** Past the gate, signing cannot fail: a batch is persisted exactly when the store takes all of it. */
  lemma CommitOutcome(env: Env, log: Log, store: Store, request: Request, events: Log)
    requires Gate(env, request) == None && Replay(log) == Ok(store.view) && store.log == log
    ensures Commit(env, log, store, events).result.Ok? <==> AppendAll(store, events).AllApplied?
    ensures AttestAll(env.keys, env.ctx, events).Ok?
    ensures var ran := Commit(env, log, store, events);
            ran.result.Ok? ==>
              && Replay(ran.log) == Ok(AppendAll(store, events).store.view)
              && ran.result == Ok(AttestAll(env.keys, env.ctx, events).value.events) && ran.log == log + ran.result.value
              && SameContent(events, ran.result.value)
  {
    GatedAttestationSucceeds(env, request, events);
    hide Replay, AppendAll, AttestAll, Gate;
    if AppendAll(store, events).AllApplied? {
      PersistedBatch(log, store, events, AttestAll(env.keys, env.ctx, events).value.events);
    }
  }

  lemma GatedAttestationSucceeds(env: Env, request: Request, events: Log)
    requires Gate(env, request) == None
    ensures AttestAll(env.keys, env.ctx, events).Ok?
    ensures EnforceWrite(env.keys, env.ctx, request.Auth(), env.at.gate) == None
  {
    hide EnforceWrite, Entitled, LoadSigningKey, LoadGrant;
    AdmittedWriteIsEntitledOrAgentTier(env.keys, env.ctx, request.Auth(), env.at.gate);
  }

  lemma LoadedStore(log: Log, now: int)
    requires Load(log, now).Some?
    ensures Replay(log).Ok? && Load(log, now).value == Store(log, Replay(log).value) && DistinctIds(log)
  {
    hide Replay, IsSound;
  }

  lemma PolicyIgnoresAttestation(view: Projection, event: FactEvent, signed: Option<WriteAttestation>, now: int)
    ensures EnforcePolicy(view, event.(attestation := signed), now) == EnforcePolicy(view, event, now)
    ensures IsValid(event.(attestation := signed)) == IsValid(event)
  {
    var other := event.(attestation := signed);
    assert ExceedsCeiling(other) == ExceedsCeiling(event);
    assert HasFreshRival(view, other, now) == HasFreshRival(view, event, now);
  }

  // ---- Assert and derive --------------------------------------------------------------

  /** An assertion goes through exactly when the policy admits it and its window is not empty. */
  lemma AssertionCommits(env: Env, log: Log, request: Request, value: string, validity: Validity)
    requires Lawful(log) && request.op == Op.Assert(value, validity)
    ensures var event := NewFact(|log|, request, value, validity, env.at.decide);
            var ran := Run(env, log, request);
            && (ran.result.Ok? <==>
                  && Ready(env, log, request) && env.contentAdmits && IsValid(event)
                  && EnforcePolicy(Replay(log).value, event, env.at.decide) == None)
            && (ran.result.Ok? ==>
                  && Replay(ran.log).Ok? && Adds(Replay(log).value, Replay(ran.log).value, event.factId, event)
                  && ran.log == log + ran.result.value && SameContent([event], ran.result.value))
  {
    hide Replay, Load, Gate, EnforcePolicy, NextSeq, EventId, FactId, NewFact, WellBorn, IsValid, IsBlank, Adds, Execute, DecideAssertion;
    hide AssertedFact, Ready;
    ReadyIff(env, log, request);
    if Ready(env, log, request) {
      LoadedStore(log, env.at.load);
      MintedFactIsFresh(log, request);
      AssertedFactIsAnAssertion(Store(log, Replay(log).value), request, value, validity, env.at.decide);
      AssertedFactIsCommitted(env, log, request, value, validity);
    } else if Gate(env, request) == None && Load(log, env.at.load).Some? {
      LoadedStore(log, env.at.load);
      EmptyNamesAreRefused(env, Store(log, Replay(log).value), request, value, validity);
      RefusalRuns(env, log, Store(log, Replay(log).value), request);
    }
  }

  /**
   A derivation goes through exactly when, besides, something is believed about what it names as its source; the
   event it persists then rests on exactly the facts believed about it.
   */
  lemma DerivationCommits(env: Env, log: Log, request: Request, value: string, validity: Validity, fromSubject: Subject, fromPred: string)
    requires Lawful(log) && request.op == Op.Derive(value, validity, fromSubject, fromPred)
    ensures var view := Replay(log).value;
            var event := AssertedFact(Store(log, view), request, value, validity, env.at.decide);
            var ran := Run(env, log, request);
            && (ran.result.Ok? <==>
                  && Ready(env, log, request) && env.contentAdmits && IsValid(event)
                  && !IsBlank(fromSubject.kind) && !IsBlank(fromSubject.key) && !IsBlank(fromPred)
                  && (exists id :: Believes(view, fromSubject, fromPred, id))
                  && EnforcePolicy(view, event, env.at.decide) == None)
            && (ran.result.Ok? ==>
                  && Replay(ran.log).Ok? && Adds(view, Replay(ran.log).value, event.factId, event)
                  && ran.log == log + ran.result.value && SameContent([event], ran.result.value)
                  && |event.evidence| > 0
                  && forall id :: id in event.evidence[1..] <==> Believes(view, fromSubject, fromPred, id))
  {
    hide Replay, Load, Gate, EnforcePolicy, NextSeq, EventId, FactId, NewFact, WellBorn, IsValid, IsBlank, Adds, Execute, DecideAssertion;
    hide AssertedFact, Believes, BelievedFactIds, Ready;
    ReadyIff(env, log, request);
    if Gate(env, request) == None && Load(log, env.at.load).Some? {
      LoadedStore(log, env.at.load);
      var store := Store(log, Replay(log).value);
      BelievedFactIdsAreTheBelieved(store, fromSubject, fromPred);
      var ids := BelievedFactIds(store, fromSubject, fromPred);
      assert (exists id :: Believes(store.view, fromSubject, fromPred, id)) <==> ids != [] by {
        if ids != [] { assert ids[0] in ids; }
      }
      AssertedFactIsAnAssertion(store, request, value, validity, env.at.decide);
      if IsBlank(fromSubject.kind) || IsBlank(fromSubject.key) || IsBlank(fromPred) || ids == [] {
        RefusalRuns(env, log, store, request);
      } else if Ready(env, log, request) {
        AssertedFactIsCommitted(env, log, request, value, validity);
        GroundsFollow(request.source, ids);
      } else {
        EmptyNamesAreRefused(env, store, request, value, validity);
        RefusalRuns(env, log, store, request);
      }
    }
  }

  lemma GroundsFollow(source: string, ids: seq<string>)
    ensures |Spoken(source) + ids| > 0 && (Spoken(source) + ids)[1..] == ids
  {
  }

  lemma RefusalRuns(env: Env, log: Log, store: Store, request: Request)
    requires Gate(env, request) == None && Load(log, env.at.load) == Some(store) && Decide(env, store, request).Refuse?
    ensures Run(env, log, request).result.Err?
  {
    hide Gate, Load, Decide;
  }

  /** What `assert` and `derive` come to once nothing but the fact itself is in question. */
  lemma AssertedFactIsCommitted(env: Env, log: Log, request: Request, value: string, validity: Validity)
    requires Lawful(log) && Ready(env, log, request) && (request.op.Assert? || request.op.Derive?)
    requires var store := Store(log, Replay(log).value); Decide(env, store, request) == DecideAssertion(env, store, request, value, validity)
    ensures var event := AssertedFact(Store(log, Replay(log).value), request, value, validity, env.at.decide);
            var ran := Run(env, log, request);
            && (ran.result.Ok? <==>
                  env.contentAdmits && IsValid(event) && EnforcePolicy(Replay(log).value, event, env.at.decide) == None)
            && (ran.result.Ok? ==>
                  && Replay(ran.log).Ok? && Adds(Replay(log).value, Replay(ran.log).value, event.factId, event)
                  && ran.log == log + ran.result.value && SameContent([event], ran.result.value))
  {
    hide Replay, Load, Gate, AttestAll, EnforcePolicy, NextSeq, EventId, FactId, AssertedFact, WellBorn, IsValid, IsBlank;
    hide Adds, Commit, HasEventId, Append, DecideAssertion, Decide, Ready;
    ReadyIff(env, log, request);
    MintedFactIsFresh(log, request);
    LoadedStore(log, env.at.load);
    var store := Store(log, Replay(log).value);
    AssertionDecision(env, store, request, value, validity);
    var event := AssertedFact(store, request, value, validity, env.at.decide);
    var decision := DecideAssertion(env, store, request, value, validity);
    if decision.Attempt? {
      AssertedFactIsAnAssertion(store, request, value, validity, env.at.decide);
      var signed := decision.events[0];
      MintedIdsAreFresh(log, |log|);
      OpeningEffect(store, signed);
      PolicyIgnoresAttestation(store.view, event, signed.attestation, env.at.decide);
      CommitOutcome(env, log, store, request, [signed]);
      SingleAppend(store, signed);
      if Append(store, signed).Ok? { AddsIgnoresAttestation(store.view, Append(store, signed).value.view, event, signed); }
    }
  }

  lemma AssertionDecision(env: Env, store: Store, request: Request, value: string, validity: Validity)
    requires Gate(env, request) == None && !HasEmptyTarget(request) && !IsBlank(request.source)
    ensures var event := AssertedFact(store, request, value, validity, env.at.decide);
            var decision := DecideAssertion(env, store, request, value, validity);
            && (decision.Attempt? <==> env.contentAdmits && EnforcePolicy(store.view, event, env.at.decide) == None)
            && !decision.RefuseUnearned?
            && (decision.Attempt? ==>
                  decision.events == AttestAll(env.keys, env.ctx, [event]).value.events
                  && |decision.events| == 1 && decision.events == [decision.events[0]]
                  && decision.events[0] == event.(attestation := decision.events[0].attestation))
            && (decision.Refuse? ==>
                  decision.error == ContentRefused
                  || (EnforcePolicy(store.view, event, env.at.decide).Some?
                      && decision.error == StoreRefused(EnforcePolicy(store.view, event, env.at.decide).value)))
  {
    hide Gate, AttestAll, EnforcePolicy, AssertedFact, IsBlank;
    var event := AssertedFact(store, request, value, validity, env.at.decide);
    GatedAttestationSucceeds(env, request, [event]);
    var batch := AttestAll(env.keys, env.ctx, [event]).value;
    PolicyIgnoresAttestation(store.view, event, batch.events[0].attestation, env.at.decide);
  }

  lemma EmptyNamesAreRefused(env: Env, store: Store, request: Request, value: string, validity: Validity)
    requires HasEmptyTarget(request) || IsBlank(request.source)
    ensures DecideAssertion(env, store, request, value, validity) == Refuse(EmptyName)
  {
  }

  lemma SingleAppend(store: Store, event: FactEvent)
    ensures AppendAll(store, [event]) ==
            match Append(store, event)
            case Ok(after) => AllApplied(after)
            case Err(error) => Stopped(event, error)
  {
    hide Append;
    assert [event][1..] == [];
    if Append(store, event).Ok? { OneAppend(store, event); }
  }

  lemma AddsIgnoresAttestation(before: Projection, after: Projection, event: FactEvent, signed: FactEvent)
    requires Adds(before, after, signed.factId, signed) && signed == event.(attestation := signed.attestation)
    ensures Adds(before, after, event.factId, event)
  {
    NewbornIgnoresAttestation(after[event.factId], event, signed);
    hide IsNewborn;
  }

  lemma NewbornIgnoresAttestation(state: FactState, event: FactEvent, signed: FactEvent)
    requires IsNewborn(state, signed) && signed == event.(attestation := signed.attestation)
    ensures IsNewborn(state, event)
  {
  }

  // ---- Supersede ----------------------------------------------------------------------

  /** No incumbent holds out by earned entrenchment, when that gate is on. */
  predicate Earned(env: Env, store: Store, request: Request)
  {
    env.entrenchmentGate ==>
      FirstOutEntrenching(BelievedFactIds(store, request.subject, request.pred), store.view, request.authority) == None
  }

  predicate ClearsFloor(request: Request)
  {
    var policy := PolicyFor(request.subject, request.pred);
    policy.Some? ==> AtMost(policy.value.authorityFloor, request.authority)
  }

  /**
   A supersession goes through exactly when there is something to supersede and the request outranks or
   ties all of it; afterwards the replacement is the only belief about that subject and predicate, and
   each former one points to it.
   */
  lemma SupersessionCommits(env: Env, log: Log, request: Request, value: string, validity: Validity)
    requires Lawful(log) && request.op == Op.Supersede(value, validity)
    ensures var store := Store(log, Replay(log).value);
            var replacement := NewFact(|log|, request, value, validity, env.at.decide);
            var ran := Run(env, log, request);
            && (ran.result.Ok? <==>
                  && Ready(env, log, request) && env.contentAdmits && IsValid(replacement)
                  && SomethingBelieved(store.view, request) && OutranksAll(store.view, request)
                  && ClearsFloor(request) && Earned(env, store, request))
            && (ran.result.Ok? ==>
                  && Replay(ran.log).Ok? && ran.log == log + ran.result.value
                  && SameContent(BuildRevision(|log|, BelievedFactIds(store, request.subject, request.pred), request, value, validity, env.at.decide),
                                 ran.result.value)
                  && Replaces(store.view, Replay(ran.log).value, request.subject, request.pred, replacement.factId, replacement)
                  && forall id :: Believes(Replay(ran.log).value, request.subject, request.pred, id) <==> id == replacement.factId)
  {
    hide Replay, Load, Gate, AttestAll, NextSeq, EventId, FactId, NewFact, WellBorn, IsValid, IsBlank, Numbered;
    hide Replaces, Commit, BuildRevision, BelievedFactIds, FirstOutEntrenching, AppendAll, OutranksAll, Ready;
    ReadyIff(env, log, request);
    MintedFactIsFresh(log, request);
    var store := Store(log, Replay(log).value);
    if Gate(env, request) == None && Load(log, env.at.load).Some? {
      LoadedStore(log, env.at.load);
      BelievedIffSome(store, request);
      var ids := BelievedFactIds(store, request.subject, request.pred);
      var replacement := NewFact(|log|, request, value, validity, env.at.decide);
      NewFactIsAnAssertion(|log|, request, value, validity, env.at.decide);
      RevisionIsNumbered(|log|, ids, request, value, validity, env.at.decide);
      RevisionEffect(store, request, value, validity, env.at.decide);
      var events := BuildRevision(|log|, ids, request, value, validity, env.at.decide);
      CommitOutcome(env, log, store, request, events);
      var applied := AppendAll(store, events);
      if applied.AllApplied? {
        ReplacementIsTheOnlyBelief(store.view, applied.store.view, request.subject, request.pred, replacement.factId, replacement);
      }
    }
  }

  lemma BelievedIffSome(store: Store, request: Request)
    requires Replay(store.log) == Ok(store.view)
    ensures BelievedFactIds(store, request.subject, request.pred) != [] <==> SomethingBelieved(store.view, request)
  {
    hide Replay, BelievedFactIds, Believes;
    BelievedFactIdsAreTheBelieved(store, request.subject, request.pred);
    var ids := BelievedFactIds(store, request.subject, request.pred);
    if ids != [] { assert ids[0] in ids; }
  }

  lemma ReplacementIsTheOnlyBelief(before: Projection, after: Projection, subject: Subject, pred: string, fact: string, event: FactEvent)
    requires Replaces(before, after, subject, pred, fact, event) && event.subject == subject && event.pred == pred
    ensures forall id :: Believes(after, subject, pred, id) <==> id == fact
  {
    forall id ensures Believes(after, subject, pred, id) <==> id == fact
    {
      if id != fact && !Believes(before, subject, pred, id) { assert Lookup(after, id) == Lookup(before, id); }
    }
  }

  // ---- Contradict ---------------------------------------------------------------------

  predicate CanBeContested(view: Projection, incumbent: Option<string>)
  {
    incumbent.Some? && incumbent.value in view && view[incumbent.value].authority != Canonical
  }

  /** A contradiction needs no authority; only a canonical incumbent refuses it. Both sides stay believed. */
  lemma ContradictionCommits(env: Env, log: Log, request: Request, value: string, validity: Validity)
    requires Lawful(log) && request.op == Op.Contradict(value, validity)
    ensures var store := Store(log, Replay(log).value);
            var opposing := NewFact(|log|, request, value, validity, env.at.decide);
            var incumbent := ExplainSubject(store, request.subject, request.pred, env.at.decide);
            var ran := Run(env, log, request);
            && (ran.result.Ok? <==>
                  && Ready(env, log, request) && env.contentAdmits && IsValid(opposing)
                  && CanBeContested(store.view, incumbent))
            && (ran.result.Ok? ==>
                  && Replay(ran.log).Ok? && ran.log == log + ran.result.value
                  && SameContent(BuildContradiction(|log|, incumbent.value, request, value, validity, env.at.decide), ran.result.value)
                  && Contests(store.view, Replay(ran.log).value, incumbent.value, opposing.factId, opposing))
  {
    hide Replay, Load, Gate, AttestAll, NextSeq, EventId, FactId, NewFact, WellBorn, IsValid, IsBlank, Numbered, Fresh;
    hide Contests, Commit, BuildContradiction, ExplainSubject, AppendAll, Ready;
    ReadyIff(env, log, request);
    MintedFactIsFresh(log, request);
    var store := Store(log, Replay(log).value);
    ExplainedFactIsPreferred(store, request.subject, request.pred, env.at.decide);
    if Gate(env, request) == None && Load(log, env.at.load).Some? {
      LoadedStore(log, env.at.load);
      var incumbent := ExplainSubject(store, request.subject, request.pred, env.at.decide);
      if incumbent.Some? {
        ContradictionEffect(store, incumbent.value, request, value, validity, env.at.decide);
        CommitOutcome(env, log, store, request,
                      BuildContradiction(|log|, incumbent.value, request, value, validity, env.at.decide));
      }
    }
  }

  // ---- Retract, expire, reinforce, use ------------------------------------------------

  lemma ClosingCommits(env: Env, log: Log, request: Request)
    requires Lawful(log) && (request.op.Retract? || request.op.Expire?)
    ensures var view, ran := Replay(log).value, Run(env, log, request);
            && (ran.result.Ok? <==> Ready(env, log, request) && SomethingBelieved(view, request) && OutranksAll(view, request))
            && (ran.result.Ok? ==>
                  && Replay(ran.log).Ok? && ran.log == log + ran.result.value
                  && SameContent(PerIncumbentEvents(Store(log, view), request, env.at.decide), ran.result.value)
                  && Closes(view, Replay(ran.log).value, request.subject, request.pred)
                  && ClosesAsAsked(view, Replay(ran.log).value, request)
                  && !SomethingBelieved(Replay(ran.log).value, request))
  {
    hide Replay, Load, Gate, AttestAll, NextSeq, EventId, WellBorn, IsBlank, Numbered;
    hide Closes, ClosesAsAsked, Commit, BelievedFactIds, AppendAll, OutranksAll, BuildPerIncumbent, Ready;
    ReadyIff(env, log, request);
    MintedFactIsFresh(log, request);
    var store := Store(log, Replay(log).value);
    if Gate(env, request) == None && Load(log, env.at.load).Some? {
      LoadedStore(log, env.at.load);
      BelievedIffSome(store, request);
      ClosingEffect(store, request, env.at.decide);
      var events := PerIncumbentEvents(store, request, env.at.decide);
      CommitOutcome(env, log, store, request, events);
      if AppendAll(store, events).AllApplied? {
        ClosedPairIsEmpty(store.view, AppendAll(store, events).store.view, request);
      }
    }
  }

  lemma SupportCommits(env: Env, log: Log, request: Request)
    requires Lawful(log) && (request.op.Reinforce? || request.op.MarkUsedInDecision?)
    ensures var view, ran := Replay(log).value, Run(env, log, request);
            && (ran.result.Ok? <==>
                  && Ready(env, log, request) && SomethingBelieved(view, request)
                  && (request.op.MarkUsedInDecision? ==> !IsBlank(request.op.decision)))
            && (ran.result.Ok? ==>
                  && Replay(ran.log).Ok? && ran.log == log + ran.result.value
                  && SameContent(PerIncumbentEvents(Store(log, view), request, env.at.decide), ran.result.value)
                  && Supports(view, Replay(ran.log).value, request))
  {
    hide Replay, Load, Gate, AttestAll, NextSeq, EventId, WellBorn, IsBlank, Numbered;
    hide Supports, KeepsStanding, Commit, BelievedFactIds, AppendAll, BuildPerIncumbent, Ready;
    ReadyIff(env, log, request);
    MintedFactIsFresh(log, request);
    var store := Store(log, Replay(log).value);
    if Gate(env, request) == None && Load(log, env.at.load).Some? && !(request.op.MarkUsedInDecision? && IsBlank(request.op.decision)) {
      LoadedStore(log, env.at.load);
      BelievedIffSome(store, request);
      SupportEffect(store, request, env.at.decide);
      CommitOutcome(env, log, store, request, PerIncumbentEvents(store, request, env.at.decide));
    }
  }

  lemma ClosedPairIsEmpty(before: Projection, after: Projection, request: Request)
    requires Closes(before, after, request.subject, request.pred)
    ensures !SomethingBelieved(after, request)
  {
    forall id ensures !Believes(after, request.subject, request.pred, id)
    {
      if !Believes(before, request.subject, request.pred, id) { assert Lookup(after, id) == Lookup(before, id); }
    }
  }

  // ---- Refusals -----------------------------------------------------------------------

  /** The believed fact holds against this request, and on a ground that counts as a survived challenge. */
  ghost predicate HoldsAgainst(view: Projection, request: Request, id: string)
  {
    && Believes(view, request.subject, request.pred, id)
    && match request.op
       case Supersede(_, _) => !AtMost(view[id].authority, request.authority) || OutEntrenches(view, id, request.authority)
       case Contradict(_, _) => view[id].authority == Canonical
       case Retract => !AtMost(view[id].authority, request.authority)
       case Expire => !AtMost(view[id].authority, request.authority)
       case _ => false
  }

  /** At most one record, in the challenger's name at its stated level, on a fact that held against it. */
  ghost predicate OnlyRecordsSurvival(log: Log, after: Log, request: Request)
  {
    && OnlyRecords(log, after)
    && (after != log ==>
          var record := after[|log|];
          && Replay(log).Ok? && HoldsAgainst(Replay(log).value, request, record.factId)
          && record.source == request.source && record.authority == request.authority)
  }

  lemma NothingRecorded(log: Log, request: Request)
    ensures OnlyRecordsSurvival(log, log, request)
  {
  }

  lemma RecordingSurvival(env: Env, log: Log, request: Request, challenge: Challenge)
    requires Replay(log).Ok? && HoldsAgainst(Replay(log).value, request, challenge.incumbent)
    requires challenge.source == request.source && challenge.effective == request.authority
    ensures OnlyRecordsSurvival(log, PersistChallengeRecord(env, log, challenge), request)
  {
    hide PersistChallengeRecord, Replay, HoldsAgainst, OnlyRecords;
    RecordingOnlyRecords(env, log, challenge);
    var after := PersistChallengeRecord(env, log, challenge);
    if after != log { OnlyRecordsGrowsByOne(log, after); }
  }

  lemma OnlyRecordsGrowsByOne(log: Log, after: Log)
    requires OnlyRecords(log, after) && after != log
    ensures |after| == |log| + 1
  {
  }

  /** The request asks for a fact whose validity ends before it begins. */
  predicate HasEmptyWindow(request: Request)
  {
    && (request.op.Assert? || request.op.Derive? || request.op.Supersede? || request.op.Contradict?)
    && request.op.validity.start.Some? && request.op.validity.end.Some?
    && request.op.validity.end.value <= request.op.validity.start.value
  }

  /** Refusals the store gives on a lawful log: an empty window, or an incumbent that holds. */
  ghost predicate IsExpectedStop(store: Store, request: Request, event: FactEvent, error: StoreError)
  {
    || (error == Rejected(InvalidEvent) && HasEmptyWindow(request))
    || ((request.op.Supersede? || request.op.Retract? || request.op.Expire?)
        && StoppedFor(store, request, event, error, TransitionError.InsufficientAuthority))
    || (request.op.Contradict? && StoppedFor(store, request, event, error, CanonicalContradiction))
  }

  lemma RefusedCommitRecordsSurvival(env: Env, log: Log, store: Store, request: Request, events: Log)
    requires Replay(log) == Ok(store.view) && AppendAll(store, events).Stopped?
    requires IsExpectedStop(store, request, AppendAll(store, events).event, AppendAll(store, events).error)
    ensures OnlyRecordsSurvival(log, Commit(env, log, store, events).log, request)
    ensures Commit(env, log, store, events).result == Err(StoreRefused(AppendAll(store, events).error))
  {
    hide Replay, AppendAll, PersistChallengeRecord, OnlyRecordsSurvival, Believes;
    var applied := AppendAll(store, events);
    NothingRecorded(log, request);
    var challenge := ClassifyChallenge(applied.event, applied.error);
    if env.recordsChallenges && challenge.Some? {
      RecordingSurvival(env, log, request, challenge.value);
    }
  }

  /** The store's refusal of each attempt on a lawful log is an expected one. */
  lemma StopsAreExpected(env: Env, log: Log, store: Store, request: Request)
    requires Lawful(log) && store == Store(log, Replay(log).value) && Gate(env, request) == None
    requires request.op.MarkUsedInDecision? ==> !IsBlank(request.op.decision)
    requires Decide(env, store, request).Attempt? && AppendAll(store, Decide(env, store, request).events).Stopped?
    ensures var applied := AppendAll(store, Decide(env, store, request).events);
            IsExpectedStop(store, request, applied.event, applied.error)
  {
    hide Replay, Gate, AttestAll, NextSeq, EventId, FactId, NewFact, WellBorn, IsValid, IsBlank, Numbered, StoppedFor;
    hide BuildRevision, BuildContradiction, BuildPerIncumbent, BelievedFactIds, FirstOutEntrenching, ExplainSubject, AppendAll;
    hide DecideAssertion, HasEventId, EnforcePolicy, Replaces, Contests, Closes, KeepsStanding, OutranksAll;
    MintedFactIsFresh(log, request);
    match request.op
    case Assert(value, validity) => AssertionStops(env, log, store, request, value, validity);
    case Derive(value, validity, _, _) => AssertionStops(env, log, store, request, value, validity);
    case Supersede(value, validity) =>
      NewFactIsAnAssertion(NextSeq(store.log), request, value, validity, env.at.decide);
      RevisionEffect(store, request, value, validity, env.at.decide);
    case Contradict(value, validity) =>
      NewFactIsAnAssertion(NextSeq(store.log), request, value, validity, env.at.decide);
      ExplainedFactIsPreferred(store, request.subject, request.pred, env.at.decide);
      ContradictionEffect(store, ExplainSubject(store, request.subject, request.pred, env.at.decide).value,
                          request, value, validity, env.at.decide);
    case Retract => ClosingEffect(store, request, env.at.decide);
    case Expire => ClosingEffect(store, request, env.at.decide);
    case Reinforce => SupportEffect(store, request, env.at.decide);
    case MarkUsedInDecision(_) => SupportEffect(store, request, env.at.decide);
  }

  lemma AssertionStops(env: Env, log: Log, store: Store, request: Request, value: string, validity: Validity)
    requires Lawful(log) && store == Store(log, Replay(log).value)
    requires DecideAssertion(env, store, request, value, validity).Attempt?
    requires AppendAll(store, DecideAssertion(env, store, request, value, validity).events).Stopped?
    ensures AppendAll(store, DecideAssertion(env, store, request, value, validity).events).error == Rejected(InvalidEvent)
    ensures validity.start.Some? && validity.end.Some? && validity.end.value <= validity.start.value
  {
    hide Replay, AttestAll, NextSeq, EventId, FactId, NewFact, AssertedFact, WellBorn, IsValid, IsBlank, Numbered;
    hide HasEventId, EnforcePolicy, Append;
    MintedFactIsFresh(log, request);
    AssertedFactIsAnAssertion(store, request, value, validity, env.at.decide);
    MintedIdsAreFresh(log, |log|);
    var events := DecideAssertion(env, store, request, value, validity).events;
    assert events == [events[0]];
    PolicyIgnoresAttestation(store.view, AssertedFact(store, request, value, validity, env.at.decide), events[0].attestation, env.at.decide);
    NewFactIsAnAssertion(NextSeq(store.log), request, value, validity, env.at.decide);
    OpeningEffect(store, events[0]);
    SingleAppend(store, events[0]);
  }

  lemma {:induction false} FirstOutEntrenchingHolds(ids: seq<string>, view: Projection, authority: AuthorityLevel)
    ensures FirstOutEntrenching(ids, view, authority).Some? ==>
              var id := FirstOutEntrenching(ids, view, authority).value;
              id in ids && OutEntrenches(view, id, authority)
  {
    hide OutEntrenches;
    if ids != [] { FirstOutEntrenchingHolds(ids[1..], view, authority); }
  }

  /** Store refusals that a lawful log can meet. */
  predicate IsReachableRefusal(error: StoreError)
  {
    || error == Rejected(InvalidEvent) || error == Rejected(TransitionError.InsufficientAuthority)
    || error == Rejected(CanonicalContradiction)
    || error == BelowAuthorityFloor || error == TtlCeilingExceeded || error == UniquenessViolation
  }

  lemma ExpectedStopIsReachable(store: Store, request: Request, event: FactEvent, error: StoreError)
    requires IsExpectedStop(store, request, event, error)
    ensures IsReachableRefusal(error)
  {
    hide Believes;
  }

  lemma PolicyRefusalIsReachable(view: Projection, event: FactEvent, now: int)
    requires EnforcePolicy(view, event, now).Some?
    ensures IsReachableRefusal(EnforcePolicy(view, event, now).value)
  {
    hide HasFreshRival, ExceedsCeiling;
  }

  /**
   A refused operation leaves the log as it was but for at most one record of the challenge, on a fact
   that held; no fact's standing changes. A refusal is never for laundered authority, an unbacked
   supersession or a clash of ids.
   */
  lemma RefusalOnlyRecordsSurvival(env: Env, log: Log, request: Request)
    requires Lawful(log) && Run(env, log, request).result.Err?
    ensures OnlyRecordsSurvival(log, Run(env, log, request).log, request)
    ensures var error := Run(env, log, request).result.error;
            error.StoreRefused? ==> IsReachableRefusal(error.cause)
  {
    hide Lawful, Replay, Load, Gate, AttestAll, Commit, PersistChallengeRecord, OnlyRecordsSurvival, AppendAll, IsReachableRefusal, IsBlank;
    hide DecideAssertion, DecideSupersession, DecideContradiction, BelievedFactIds, IsExpectedStop;
    NothingRecorded(log, request);
    GateRefusalsAreNotTheStores(env, request);
    if Gate(env, request) == None && Load(log, env.at.load).Some?
       && !(request.op.MarkUsedInDecision? && IsBlank(request.op.decision)) {
      LoadedStore(log, env.at.load);
      var store := Store(log, Replay(log).value);
      match Decide(env, store, request)
      case Refuse(error) => RefusedDecisionIsReachable(env, log, store, request);
      case RefuseUnearned(incumbent, challenger) =>
        UnearnedHolds(env, store, request);
        RecordingSurvival(env, log, request, Challenge(incumbent, request.subject, request.pred, Supersession, Some(challenger),
                                                       WeakerEntrenchment, request.source, request.authority));
      case Attempt(events) =>
        CommitOutcome(env, log, store, request, events);
        StopsAreExpected(env, log, store, request);
        var applied := AppendAll(store, events);
        RefusedCommitRecordsSurvival(env, log, store, request, events);
        ExpectedStopIsReachable(store, request, applied.event, applied.error);
    }
  }

  /** A supersession from below a believed fact's level is refused, and that fact stays believed as it was. */
  lemma SupersessionFromBelowIsRefused(env: Env, log: Log, request: Request, value: string, validity: Validity, id: string)
    requires Lawful(log) && request.op == Op.Supersede(value, validity)
    requires Believes(Replay(log).value, request.subject, request.pred, id)
    requires !AtMost(Replay(log).value[id].authority, request.authority)
    ensures var ran := Run(env, log, request);
            && ran.result.Err? && Replay(ran.log).Ok?
            && Believes(Replay(ran.log).value, request.subject, request.pred, id)
            && Replay(ran.log).value[id].value == Replay(log).value[id].value
            && Replay(ran.log).value[id].authority == Replay(log).value[id].authority
            && forall other :: Believes(Replay(ran.log).value, request.subject, request.pred, other) <==>
                               Believes(Replay(log).value, request.subject, request.pred, other)
  {
    hide Run, Replay, Ready, Replaces, IsValid, ClearsFloor, Earned, OnlyRecordsSurvival;
    SupersessionCommits(env, log, request, value, validity);
    RefusalOnlyRecordsSurvival(env, log, request);
    RecordsLeaveBeliefs(log, Run(env, log, request).log, request);
  }

  /** A refused operation leaves every belief as it was, and adds none. */
  lemma RecordsLeaveBeliefs(log: Log, after: Log, request: Request)
    requires OnlyRecordsSurvival(log, after, request) && Replay(log).Ok?
    ensures Replay(after).Ok?
    ensures forall id :: Believes(Replay(after).value, request.subject, request.pred, id) <==>
                         Believes(Replay(log).value, request.subject, request.pred, id)
    ensures forall id :: Believes(Replay(log).value, request.subject, request.pred, id) ==>
              && Replay(after).value[id].value == Replay(log).value[id].value
              && Replay(after).value[id].authority == Replay(log).value[id].authority
  {
    hide Replay, HoldsAgainst;
  }

  lemma GateRefusalsAreNotTheStores(env: Env, request: Request)
    ensures Gate(env, request).Some? ==> !Gate(env, request).value.StoreRefused?
  {
    hide EnforceWrite, GateDecision;
  }

  lemma RefusedDecisionIsReachable(env: Env, log: Log, store: Store, request: Request)
    requires Decide(env, store, request).Refuse?
    ensures var error := Decide(env, store, request).error;
            error.StoreRefused? ==> IsReachableRefusal(error.cause)
  {
    hide Replay, AttestAll, EnforcePolicy, IsReachableRefusal, NewFact, NextSeq, IsBlank, BelievedFactIds;
    hide ExplainSubject, FirstOutEntrenching;
    hide BuildRevision, BuildContradiction, BuildPerIncumbent;
    match request.op
    case Assert(value, validity) => AssertionRefusalIsReachable(env, store, request, value, validity);
    case Derive(value, validity, _, _) =>
      if DecideAssertion(env, store, request, value, validity).Refuse? {
        AssertionRefusalIsReachable(env, store, request, value, validity);
      }
    case _ =>
  }

  lemma AssertionRefusalIsReachable(env: Env, store: Store, request: Request, value: string, validity: Validity)
    requires DecideAssertion(env, store, request, value, validity).Refuse?
    ensures var error := DecideAssertion(env, store, request, value, validity).error;
            error.StoreRefused? ==> IsReachableRefusal(error.cause)
  {
    hide AttestAll, EnforcePolicy, IsReachableRefusal, AssertedFact, IsBlank;
    var attested := AttestAll(env.keys, env.ctx, [AssertedFact(store, request, value, validity, env.at.decide)]);
    if attested.Ok? && EnforcePolicy(store.view, attested.value.events[0], env.at.decide).Some? {
      PolicyRefusalIsReachable(store.view, attested.value.events[0], env.at.decide);
    }
  }

  lemma UnearnedHolds(env: Env, store: Store, request: Request)
    requires Replay(store.log) == Ok(store.view) && Decide(env, store, request).RefuseUnearned?
    ensures HoldsAgainst(store.view, request, Decide(env, store, request).incumbent)
  {
    hide Replay, AttestAll, EnforcePolicy, NewFact, NextSeq, IsBlank, BelievedFactIds, ExplainSubject, OutEntrenches;
    hide BuildRevision, BuildContradiction, BuildPerIncumbent, Believes, DecideAssertion, DecideContradiction, DecidePerIncumbent;
    BelievedFactIdsAreTheBelieved(store, request.subject, request.pred);
    DecisionUnearnedOnlyOnSupersession(env, store, request);
    FirstOutEntrenchingHolds(BelievedFactIds(store, request.subject, request.pred), store.view, request.authority);
  }

  lemma DecisionUnearnedOnlyOnSupersession(env: Env, store: Store, request: Request)
    requires Decide(env, store, request).RefuseUnearned?
    ensures request.op.Supersede?
  {
    hide AttestAll, EnforcePolicy, NewFact, NextSeq, IsBlank, BelievedFactIds, ExplainSubject, FirstOutEntrenching;
    hide BuildRevision, BuildContradiction, BuildPerIncumbent, DecideSupersession;
  }

  // ---- What is persisted, end to end --------------------------------------------------

  /** Every event of an accepted operation is about the request's subject, in its source's name, at its level. */
  lemma AttemptSpeaksForTheRequest(env: Env, store: Store, request: Request)
    requires Decide(env, store, request).Attempt?
    ensures forall event :: event in Decide(env, store, request).events ==>
              event.source == request.source && event.authority == request.authority && event.subject == request.subject
  {
    hide AttestAll, EnforcePolicy, NewFact, NextSeq, IsBlank, BelievedFactIds, ExplainSubject, FirstOutEntrenching, EventId;
    var n, now := NextSeq(store.log), env.at.decide;
    match request.op
    case Assert(value, validity) => AssertedFactIsAnAssertion(store, request, value, validity, now);
    case Derive(value, validity, _, _) => AssertedFactIsAnAssertion(store, request, value, validity, now);
    case Supersede(value, validity) =>
      NewFactIsAnAssertion(n, request, value, validity, now);
      RevisionSpeaks(n, BelievedFactIds(store, request.subject, request.pred), request, value, validity, now);
    case Contradict(value, validity) => NewFactIsAnAssertion(n, request, value, validity, now);
    case _ =>
      PerIncumbentSpeaks(n, BelievedFactIds(store, request.subject, request.pred),
                         incumbent => IncumbentKind(request.op, incumbent), request, now);
  }

  lemma PerIncumbentSpeaks(n: nat, ids: seq<string>, kindFor: string -> EventKind, request: Request, now: int)
    ensures forall event :: event in BuildPerIncumbent(n, ids, kindFor, request, now) ==>
              event.source == request.source && event.authority == request.authority && event.subject == request.subject
  {
    hide EventId;
  }

  lemma RevisionSpeaks(n: nat, ids: seq<string>, request: Request, value: string, validity: Validity, now: int)
    ensures forall event :: event in BuildRevision(n, ids, request, value, validity, now) ==>
              event.source == request.source && event.authority == request.authority && event.subject == request.subject
  {
    hide EventId, NewFact, BuildPerIncumbent;
    NewFactIsAnAssertion(n, request, value, validity, now);
    var fact := NewFact(n, request, value, validity, now).factId;
    PerIncumbentSpeaks(n + 1, ids, _ => SupersededBy(fact), request, now);
  }

  lemma ValidIsAttested(keys: Keyring, event: FactEvent)
    requires VerifyEventAttestation(keys, event) == Valid
    ensures event.attestation.Some?
  {
  }

  /** The keyring once the operation's batch has been signed: what was signed before, and that batch. */
  ghost function KeysAfter(env: Env, log: Log, request: Request): Keyring
  {
    var store := Load(log, env.at.load);
    if store.None? || !Decide(env, store.value, request).Attempt? then env.keys
    else
      var signed := AttestAll(env.keys, env.ctx, Decide(env, store.value, request).events);
      if signed.Ok? then signed.value.keys else env.keys
  }

  /**
   End to end: each event an accepted operation persists was authorized by the registry chain; with
   identity configured, it carries an attestation that verifies under the key of a grant that a trusted
   issuer signed for this source, level and subject and that was unexpired and active at the gate; and
   without identity, it claims no more than the agent tier.
   */
  lemma AcceptedEventsAreAuthorizedAndAttested(env: Env, log: Log, request: Request)
    requires env.keys.Sound() && Run(env, log, request).result.Ok?
    ensures env.sources.Some? ==> RegistryGate.Authorized(env.sources.value, request.Auth())
    ensures var persisted := Run(env, log, request).result.value;
            && Run(env, log, request).log == log + persisted
            && (env.ctx.Configured() ==>
                  && LoadGrant(env.ctx).Ok?
                  && IsSignedByTheKeyFile(KeysAfter(env, log, request), env.ctx, LoadGrant(env.ctx).value.grant, persisted))
            && forall event :: event in persisted ==>
                 && event.source == request.source && event.authority == request.authority && event.subject == request.subject
                 && (!env.ctx.Configured() ==> AtMost(event.authority, AGENT_TIER))
                 && (env.ctx.Configured() ==>
                       && LoadGrant(env.ctx).Ok?
                       && Entitled(env.keys, env.ctx, request.Auth(), env.at.gate, LoadGrant(env.ctx).value)
                       && event.attestation.Some?
                       && event.attestation.value.publicKey == LoadGrant(env.ctx).value.grant.publicKey
                       && VerifyEventAttestation(KeysAfter(env, log, request), event) == Valid)
    ensures KeysAfter(env, log, request) == env.keys.(made := KeysAfter(env, log, request).made)
    ensures env.keys.made <= KeysAfter(env, log, request).made
  {
    hide Load, AttestAll, AppendAll, Decide, EnforceWrite, Entitled, VerifyEventAttestation, LoadGrant, IsSignedWith, HoldsKeyOf;
    hide RegistryGate.Authorized, GateDecision, RecordSurvivedChallenge, PersistChallengeRecord, Keyring.Sound;
    if env.sources.Some? { RegistryGate.GateAcceptsIffAuthorized(env.sources.value, request.Auth()); }
    var store := Load(log, env.at.load).value;
    var events := Decide(env, store, request).events;
    AttemptSpeaksForTheRequest(env, store, request);
    AdmittedBatchIsAttested(env.keys, env.ctx, request.Auth(), env.at.gate, events);
    var batch := AttestAll(env.keys, env.ctx, events).value;
    GrownKeyring(env.keys, env.ctx, events);
    forall event | event in batch.events
      ensures event.source == request.source && event.authority == request.authority && event.subject == request.subject
      ensures env.ctx.Configured() ==>
                && VerifyEventAttestation(batch.keys, event) == Valid && event.attestation.Some?
                && event.attestation.value.publicKey == LoadGrant(env.ctx).value.grant.publicKey
    {
      var i :| 0 <= i < |batch.events| && batch.events[i] == event;
      assert events[i] in events;
      if env.ctx.Configured() { ValidIsAttested(batch.keys, event); }
    }
  }

  lemma GrownKeyring(keys: Keyring, ctx: Context, events: Log)
    requires AttestAll(keys, ctx, events).Ok?
    ensures var grown := AttestAll(keys, ctx, events).value.keys;
            grown == keys.(made := grown.made) && keys.made <= grown.made
  {
  }

  // ---- Ids ----------------------------------------------------------------------------

  lemma AttemptIsNumbered(env: Env, store: Store, request: Request)
    requires Decide(env, store, request).Attempt?
    ensures NumberedFrom(Decide(env, store, request).events, NextSeq(store.log))
  {
    hide AttestAll, EnforcePolicy, NewFact, NextSeq, IsBlank, BelievedFactIds, ExplainSubject, FirstOutEntrenching, EventId;
    hide BuildRevision, BuildContradiction, BuildPerIncumbent;
    var n, now := NextSeq(store.log), env.at.decide;
    var ids := BelievedFactIds(store, request.subject, request.pred);
    match request.op
    case Assert(value, validity) => AssertedFactIsAnAssertion(store, request, value, validity, now);
    case Derive(value, validity, _, _) => AssertedFactIsAnAssertion(store, request, value, validity, now);
    case Supersede(value, validity) => RevisionIsNumbered(n, ids, request, value, validity, now);
    case Contradict(value, validity) =>
      ContradictionIsNumbered(n, ExplainSubject(store, request.subject, request.pred, now).value, request, value, validity, now);
    case _ => PerIncumbentIsNumbered(n, ids, incumbent => IncumbentKind(request.op, incumbent), request, now);
  }

  /** Whatever ids a log carries, an operation keeps distinct ids distinct. */
  lemma RunKeepsIdsDistinct(env: Env, log: Log, request: Request)
    requires DistinctIds(log)
    ensures DistinctIds(Run(env, log, request).log)
  {
    hide DistinctIds, Gate, AttestAll, Decide, PersistChallengeRecord, IsSound, Replay, NextSeq, AppendAll, ClassifyChallenge;
    var store := Load(log, env.at.load);
    if store.Some? {
      match Decide(env, store.value, request)
      case Refuse(_) =>
      case RefuseUnearned(incumbent, challenger) =>
        RecordKeepsIdsDistinct(env, log, Challenge(incumbent, request.subject, request.pred, Supersession, Some(challenger),
                                                   WeakerEntrenchment, request.source, request.authority));
      case Attempt(events) =>
        var applied, attested := AppendAll(store.value, events), AttestAll(env.keys, env.ctx, events);
        if applied.Stopped? {
          var challenge := ClassifyChallenge(applied.event, applied.error);
          if challenge.Some? { RecordKeepsIdsDistinct(env, log, challenge.value); }
        } else if attested.Ok? {
          AttemptIsNumbered(env, store.value, request);
          SignedIsNumbered(events, attested.value.events, NextSeq(log));
          MintedBatchKeepsIdsDistinct(log, attested.value.events);
        }
    }
  }

  lemma SignedIsNumbered(events: Log, signed: Log, n: nat)
    requires SameContent(events, signed) && NumberedFrom(events, n)
    ensures NumberedFrom(signed, n)
  {
    hide EventId;
  }

  lemma RecordKeepsIdsDistinct(env: Env, log: Log, challenge: Challenge)
    requires DistinctIds(log) && Replay(log).Ok?
    ensures DistinctIds(PersistChallengeRecord(env, log, challenge))
  {
    hide DistinctIds, PersistChallengeRecord, Replay, NextSeq, EventId, KeepsStanding;
    var after := PersistChallengeRecord(env, log, challenge);
    RecordingOnlyRecords(env, log, challenge);
    if after != log {
      var record := after[|log|..];
      assert log + record == after;
      OneIsNumbered(record, NextSeq(log));
      MintedBatchKeepsIdsDistinct(log, record);
    }
  }
}
