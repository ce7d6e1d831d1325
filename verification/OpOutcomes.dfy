/**
 For each operation, in terms of the request and the log alone: exactly when it goes through, which
 events it then adds, and what the facts of the pair are afterwards.
 */
module OpOutcomes {
  import opened Wrappers
  import opened AuthorityLevels
  import opened Text
  import opened EventIds
  import opened Registry
  import opened FactLog
  import opened FactIndex
  import opened FoldMeaning
  import opened Policies
  import opened PolicyMeaning
  import opened Reload
  import opened Identity
  import opened Ops
  import opened OpEffects
  import opened LogInvariants
  import opened OpRequests
  import opened OpTheorems

  /** The log as it was with `added` after it, which still folds. */
  ghost predicate Extends(log: Log, after: Log, added: Log)
  {
    after == log + added && Replay(after).Ok?
  }

  lemma SignedIsAskedFor(event: FactEvent, signed: FactEvent, n: nat, request: Request, value: string, validity: Validity, now: int)
    requires IsAskedFor(event, n, request, value, validity, now) && signed == event.(attestation := signed.attestation)
    ensures IsAskedFor(signed, n, request, value, validity, now)
  {
    hide Decimal;
  }

  // ---- Assert and derive --------------------------------------------------------------

  /** The fact of `event` is new and stands as asked; every other fact is as it was. */
  ghost predicate AddsTheFact(
    before: Projection, after: Projection, event: FactEvent, n: nat, request: Request, value: string,
    validity: Validity, now: int)
  {
    && IsAskedFor(event, n, request, value, validity, now)
    && event.factId !in before && event.factId in after
    && after[event.factId].factId == event.factId && after[event.factId].evidenceCount == |event.evidence|
    && StandsAsAsked(after[event.factId], n, request, value, validity, now)
    && forall id :: id != event.factId ==> Lookup(after, id) == Lookup(before, id)
  }

  lemma AddsAsAsked(
    before: Projection, after: Projection, event: FactEvent, signed: FactEvent, n: nat,
    request: Request, value: string, validity: Validity, now: int)
    requires Adds(before, after, event.factId, event) && IsAskedFor(event, n, request, value, validity, now)
    requires signed == event.(attestation := signed.attestation)
    ensures AddsTheFact(before, after, signed, n, request, value, validity, now)
  {
    NewbornStandsAsAsked(after[event.factId], event, n, request, value, validity, now);
    SignedIsAskedFor(event, signed, n, request, value, validity, now);
    hide IsAskedFor, StandsAsAsked;
  }

  /** What makes an assertion acceptable besides its being permitted and named. */
  ghost predicate IsAcceptable(env: Env, view: Projection, request: Request, validity: Validity)
  {
    && env.contentAdmits && IsWindowOpen(validity)
    && MeetsTheFloor(request) && IsWithinRetention(request, validity, env.at.decide) && HasNoRival(view, request, env.at.decide)
  }

  lemma AcceptableIff(env: Env, view: Projection, event: FactEvent, n: nat, request: Request, value: string, validity: Validity)
    requires IsAskedFor(event, n, request, value, validity, env.at.decide) && event.factId !in view
    ensures IsAcceptable(env, view, request, validity) <==>
            env.contentAdmits && IsValid(event) && EnforcePolicy(view, event, env.at.decide) == None
  {
    hide IsAskedFor, IsValid, IsWindowOpen, MeetsTheFloor, IsWithinRetention, HasNoRival, EnforcePolicy;
    PolicyAdmitsAsAsked(view, event, n, request, value, validity, env.at.decide);
    ValidIffWindowIsOpen(event, n, request, value, validity, env.at.decide);
  }

  lemma FreshNewFact(log: Log, request: Request, value: string, validity: Validity, now: int)
    requires Lawful(log)
    ensures IsAskedFor(NewFact(|log|, request, value, validity, now), |log|, request, value, validity, now)
    ensures NewFact(|log|, request, value, validity, now).factId !in Replay(log).value
    ensures NextSeq(log) == |log|
  {
    hide Replay, Lawful, NewFact, IsAskedFor, FactId, NextSeq, EventId;
    MintedFactIsFresh(log, request);
    NewFactIsAskedFor(|log|, request, value, validity, now);
    NewFactIsAnAssertion(|log|, request, value, validity, now);
  }

  /** An assertion adds exactly the fact it asks for, where it is acceptable, and nothing otherwise. */
  lemma AssertionOutcome(env: Env, log: Log, request: Request, value: string, validity: Validity)
    requires Lawful(log) && request.op == Op.Assert(value, validity)
    ensures var view, ran := Replay(log).value, Run(env, log, request);
            && (ran.result.Ok? <==> Ready(env, log, request) && IsAcceptable(env, view, request, validity))
            && (ran.result.Ok? ==>
                  && Extends(log, ran.log, ran.result.value) && |ran.result.value| == 1
                  && AddsTheFact(view, Replay(ran.log).value, ran.result.value[0], |log|, request, value, validity, env.at.decide)
                  && ran.result.value[0].evidence == ["cli:" + request.source])
  {
    hide Replay, Run, Lawful, Ready, NewFact, IsAskedFor, IsValid, EnforcePolicy, Adds, AddsTheFact, IsAcceptable;
    LawfulReplays(log);
    var event, ran := NewFact(|log|, request, value, validity, env.at.decide), Run(env, log, request);
    AssertionCommits(env, log, request, value, validity);
    FreshNewFact(log, request, value, validity, env.at.decide);
    AcceptableIff(env, Replay(log).value, event, |log|, request, value, validity);
    NewFactIsAnAssertion(|log|, request, value, validity, env.at.decide);
    if ran.result.Ok? {
      AddsAsAsked(Replay(log).value, Replay(ran.log).value, event, ran.result.value[0], |log|, request, value, validity, env.at.decide);
    }
  }

  /** A derivation adds the fact it asks for, resting on all that is believed about its ground, where there is something. */
  lemma DerivationOutcome(env: Env, log: Log, request: Request, value: string, validity: Validity, fromSubject: Subject, fromPred: string)
    requires Lawful(log) && request.op == Op.Derive(value, validity, fromSubject, fromPred)
    ensures var view, ran := Replay(log).value, Run(env, log, request);
            && (ran.result.Ok? <==>
                  && Ready(env, log, request) && IsAcceptable(env, view, request, validity)
                  && !IsBlank(fromSubject.kind) && !IsBlank(fromSubject.key) && !IsBlank(fromPred)
                  && (exists id :: Believes(view, fromSubject, fromPred, id)))
            && (ran.result.Ok? ==>
                  && Extends(log, ran.log, ran.result.value) && |ran.result.value| == 1
                  && AddsTheFact(view, Replay(ran.log).value, ran.result.value[0], |log|, request, value, validity, env.at.decide)
                  && RestsOn(ran.result.value[0].evidence, request.source, view, fromSubject, fromPred))
  {
    hide Replay, Run, Lawful, Ready, NewFact, IsAskedFor, IsValid, EnforcePolicy, Adds, AddsTheFact, IsAcceptable, AssertedFact, IsBlank;
    hide RestsOn;
    LawfulReplays(log);
    var ran, store := Run(env, log, request), Store(log, Replay(log).value);
    var event := AssertedFact(store, request, value, validity, env.at.decide);
    DerivationCommits(env, log, request, value, validity, fromSubject, fromPred);
    DerivedIsAskedFor(log, request, value, validity, fromSubject, fromPred, env.at.decide);
    AcceptableIff(env, Replay(log).value, event, |log|, request, value, validity);
    if ran.result.Ok? {
      AddsAsAsked(Replay(log).value, Replay(ran.log).value, event, ran.result.value[0], |log|, request, value, validity, env.at.decide);
    }
  }

  /** The speaker first, then the ids of all believed facts of the ground, each once, in fact-id order. */
  ghost predicate RestsOn(evidence: seq<string>, source: string, view: Projection, subject: Subject, pred: string)
  {
    && evidence != [] && evidence[0] == "cli:" + source
    && (forall id :: id in evidence[1..] <==> Believes(view, subject, pred, id))
    && forall i, j :: 0 <= i < j < |evidence[1..]| ==> Before(evidence[1..][i], evidence[1..][j])
  }

  lemma DerivedIsAskedFor(log: Log, request: Request, value: string, validity: Validity, fromSubject: Subject, fromPred: string, now: int)
    requires Lawful(log) && request.op == Op.Derive(value, validity, fromSubject, fromPred)
    ensures var view := Replay(log).value;
            var event := AssertedFact(Store(log, view), request, value, validity, now);
            && IsAskedFor(event, |log|, request, value, validity, now) && event.factId !in view
            && RestsOn(event.evidence, request.source, view, fromSubject, fromPred)
  {
    hide Replay, Lawful, NewFact, BelievedFactIds, Believes, Before, NextSeq, Decimal;
    LawfulReplays(log);
    var store := Store(log, Replay(log).value);
    FreshNewFact(log, request, value, validity, now);
    BelievedFactIdsAreTheBelieved(store, fromSubject, fromPred);
    NewFactIsAnAssertion(|log|, request, value, validity, now);
    GroundsFollow(request.source, BelievedFactIds(store, fromSubject, fromPred));
  }

  lemma LawfulReplays(log: Log)
    requires Lawful(log)
    ensures Replay(log).Ok?
  {
  }

  // ---- Entrenchment -------------------------------------------------------------------

  /** The sources that asserted or reinforced the fact at this level or above. */
  ghost function Backers(log: Log, id: string, level: AuthorityLevel): set<string>
  {
    set e | e in log && e.factId == id && IsBacking(e.kind) && Rank(level) <= Rank(e.authority) :: e.source
  }

  /** The sources whose challenge at this level or above the fact is recorded to have survived. */
  ghost function BeatenChallengers(log: Log, id: string, level: AuthorityLevel): set<string>
  {
    set e | e in log && e.factId == id && e.kind.ChallengeRejected? && Rank(level) <= Rank(e.authority) :: e.source
  }

  /** At the challenger's own level, the believed fact has two sources or more to show for itself. */
  ghost predicate HoldsOut(log: Log, request: Request, id: string)
    requires Replay(log).Ok?
  {
    && Believes(Replay(log).value, request.subject, request.pred, id)
    && Replay(log).value[id].authority == request.authority
    && 2 <= |Backers(log, id, request.authority)| + |BeatenChallengers(log, id, request.authority)|
  }

  lemma EntrenchmentIsInTheLog(log: Log, id: string, level: AuthorityLevel)
    requires Replay(log).Ok? && id in Replay(log).value
    ensures EarnedEntrenchment(Replay(log).value[id], level) == |Backers(log, id, level)| + |BeatenChallengers(log, id, level)|
  {
    hide Replay, Rank, IsBacking;
    var state, stream := Replay(log).value[id], StreamOf(log, id);
    ReplayMeansTheEvents(log, id);
    MeansHasSupport(state, stream);
    StreamHoldsItsEvents(log, id);
    forall source
      ensures source in Backers(log, id, level) <==> Backed(stream, source, level)
      ensures source in BeatenChallengers(log, id, level) <==> SurvivedChallenge(stream, source, level)
    {
    }
    assert (set source | source in state.corroborating && AtMost(level, state.corroborating[source])) == Backers(log, id, level);
    assert (set source | source in state.survived && AtMost(level, state.survived[source])) == BeatenChallengers(log, id, level);
  }

  lemma MeansHasSupport(state: FactState, events: Log)
    requires Means(state, events)
    ensures HasSupport(state, events)
  {
  }

  lemma OutEntrenchesIff(log: Log, request: Request, id: string)
    requires Replay(log).Ok? && Believes(Replay(log).value, request.subject, request.pred, id)
    ensures OutEntrenches(Replay(log).value, id, request.authority) <==> HoldsOut(log, request, id)
  {
    hide Replay, EarnedEntrenchment, Backers, BeatenChallengers;
    EntrenchmentIsInTheLog(log, id, request.authority);
  }

  lemma {:induction false} FirstOutEntrenchingIsFirst(ids: seq<string>, view: Projection, authority: AuthorityLevel)
    requires Sorted(ids)
    ensures match FirstOutEntrenching(ids, view, authority)
            case None => forall id :: id in ids ==> !OutEntrenches(view, id, authority)
            case Some(id) =>
              && id in ids && OutEntrenches(view, id, authority)
              && forall other :: other in ids && OutEntrenches(view, other, authority) ==> other == id || Before(id, other)
  {
    hide OutEntrenches, Before;
    if ids != [] {
      FirstOutEntrenchingIsFirst(ids[1..], view, authority);
      forall other | other in ids[1..] ensures Before(ids[0], other) { HeadIsLeast(ids, other); }
    }
  }

  lemma FirstHoldsOut(log: Log, request: Request)
    requires Replay(log).Ok?
    ensures var view := Replay(log).value;
            match FirstOutEntrenching(BelievedFactIds(Store(log, view), request.subject, request.pred), view, request.authority)
            case None => forall id :: !HoldsOut(log, request, id)
            case Some(id) =>
              HoldsOut(log, request, id) && forall other :: HoldsOut(log, request, other) ==> other == id || Before(id, other)
  {
    hide Replay, OutEntrenches, BelievedFactIds, Believes, Before, Backers, BeatenChallengers;
    var store := Store(log, Replay(log).value);
    var ids := BelievedFactIds(store, request.subject, request.pred);
    BelievedFactIdsAreTheBelieved(store, request.subject, request.pred);
    FirstOutEntrenchingIsFirst(ids, store.view, request.authority);
    forall id | id in ids ensures OutEntrenches(store.view, id, request.authority) <==> HoldsOut(log, request, id)
    {
      OutEntrenchesIff(log, request, id);
    }
  }

  // ---- Supersede ----------------------------------------------------------------------

  /** What makes a supersession acceptable, but for how entrenched what it replaces is. */
  ghost predicate HasSomethingToReplace(env: Env, view: Projection, request: Request)
  {
    env.contentAdmits && MeetsTheFloor(request) && SomethingBelieved(view, request)
  }

  /** Every believed fact of the pair is superseded by the fact of `event`, which is new and stands as asked. */
  ghost predicate ReplacesByTheFact(
    before: Projection, after: Projection, event: FactEvent, n: nat, request: Request, value: string,
    validity: Validity, now: int)
  {
    && IsAskedFor(event, n, request, value, validity, now)
    && event.factId !in before && event.factId in after
    && after[event.factId].factId == event.factId && after[event.factId].evidenceCount == |event.evidence|
    && StandsAsAsked(after[event.factId], n, request, value, validity, now)
    && (forall id :: Believes(after, request.subject, request.pred, id) <==> id == event.factId)
    && forall id :: id != event.factId ==>
         if Believes(before, request.subject, request.pred, id) then
           id in after && IsSupersededState(before[id], after[id], event.factId)
         else Lookup(after, id) == Lookup(before, id)
  }

  predicate IsSupersededState(a: FactState, b: FactState, successor: string)
  {
    b == a.(lifecycle := Superseded, supersededBy := Some(successor), updatedAt := b.updatedAt, lastEventId := b.lastEventId)
  }

  lemma SupersededStateIs(a: FactState, b: FactState, successor: string)
    requires SameFact(a, b) && SameSupport(a, b) && b.lifecycle == Superseded && b.supersededBy == Some(successor)
    requires b.contradictedBy == a.contradictedBy
    ensures IsSupersededState(a, b, successor)
  {
  }

  lemma ReplacesAsAsked(
    before: Projection, after: Projection, event: FactEvent, signed: FactEvent, n: nat,
    request: Request, value: string, validity: Validity, now: int)
    requires Replaces(before, after, request.subject, request.pred, event.factId, event)
    requires IsAskedFor(event, n, request, value, validity, now)
    requires forall id :: Believes(after, request.subject, request.pred, id) <==> id == event.factId
    requires signed == event.(attestation := signed.attestation)
    ensures ReplacesByTheFact(before, after, signed, n, request, value, validity, now)
  {
    NewbornStandsAsAsked(after[event.factId], event, n, request, value, validity, now);
    SignedIsAskedFor(event, signed, n, request, value, validity, now);
    hide IsAskedFor, StandsAsAsked, IsSupersededState, SameFact, SameSupport, Believes;
    forall id | id != event.factId && Believes(before, request.subject, request.pred, id)
      ensures id in after && IsSupersededState(before[id], after[id], event.factId)
    {
      BelievedIsThere(before, request.subject, request.pred, id);
      SupersededStateIs(before[id], after[id], event.factId);
    }
  }

  /**
   A supersession goes through exactly when there is something to supersede, the request reaches the level of all of
   it and, with the gate on, none of it holds out. The replacement and one mark on each superseded fact are added, and
   the replacement is then the only belief of the pair.
   */
  lemma SupersessionOutcome(env: Env, log: Log, request: Request, value: string, validity: Validity)
    requires Lawful(log) && request.op == Op.Supersede(value, validity)
    ensures var view, ran := Replay(log).value, Run(env, log, request);
            && (ran.result.Ok? <==>
                  && Ready(env, log, request) && IsWindowOpen(validity) && HasSomethingToReplace(env, view, request)
                  && (forall id :: Believes(view, request.subject, request.pred, id) ==> Rank(view[id].authority) <= Rank(request.authority))
                  && (env.entrenchmentGate ==> forall id :: !HoldsOut(log, request, id)))
            && (ran.result.Ok? ==>
                  && Extends(log, ran.log, ran.result.value) && 1 < |ran.result.value|
                  && ran.result.value[0].evidence == ["cli:" + request.source]
                  && MarksEachBelieved(ran.result.value[1..], |log| + 1, view, request,
                                       _ => SupersededBy(ran.result.value[0].factId), env.at.decide)
                  && ReplacesByTheFact(view, Replay(ran.log).value, ran.result.value[0], |log|, request, value, validity, env.at.decide))
  {
    hide Replay, Run, Lawful, Ready, NewFact, IsAskedFor, IsValid, Replaces, ReplacesByTheFact, IsWindowOpen, ReachesTheFloor;
    hide HoldsOut, BelievedFactIds, FirstOutEntrenching, Believes, SomethingBelieved, PolicyFor, MarksEachBelieved;
    LawfulReplays(log);
    var store, ran := Store(log, Replay(log).value), Run(env, log, request);
    var event := NewFact(|log|, request, value, validity, env.at.decide);
    SupersessionCommits(env, log, request, value, validity);
    FreshNewFact(log, request, value, validity, env.at.decide);
    ValidIffWindowIsOpen(event, |log|, request, value, validity, env.at.decide);
    FloorIff(request.subject, request.pred, request.authority);
    FirstHoldsOut(log, request);
    if ran.result.Ok? {
      RevisionMarks(store, |log|, request, value, validity, env.at.decide, ran.result.value);
      ReplacesAsAsked(store.view, Replay(ran.log).value, event, ran.result.value[0], |log|, request, value, validity, env.at.decide);
    }
  }

  lemma RevisionMarks(store: Store, n: nat, request: Request, value: string, validity: Validity, now: int, signed: Log)
    requires Replay(store.log) == Ok(store.view) && SomethingBelieved(store.view, request)
    requires SameContent(BuildRevision(n, BelievedFactIds(store, request.subject, request.pred), request, value, validity, now), signed)
    ensures 1 < |signed| && signed[0] == NewFact(n, request, value, validity, now).(attestation := signed[0].attestation)
    ensures signed[0].evidence == ["cli:" + request.source]
    ensures MarksEachBelieved(signed[1..], n + 1, store.view, request, _ => SupersededBy(signed[0].factId), now)
  {
    hide Replay, NewFact, BelievedFactIds, SomethingBelieved, MarksEachBelieved, BuildPerIncumbent;
    var ids := BelievedFactIds(store, request.subject, request.pred);
    var event := NewFact(n, request, value, validity, now);
    NewFactIsAnAssertion(n, request, value, validity, now);
    BelievedIffSome(store, request);
    var marks := BuildPerIncumbent(n + 1, ids, _ => SupersededBy(event.factId), request, now);
    assert BuildRevision(n, ids, request, value, validity, now) == [event] + marks;
    MarksFollow(event, marks, signed);
    MarkPerBelieved(n + 1, ids, request, event.factId, now);
    PerIncumbentMarks(store, n + 1, request, _ => SupersededBy(event.factId), now, signed[1..]);
    SameMarks(signed[1..], n + 1, store.view, request, event.factId, signed[0].factId, now);
  }

  lemma MarkPerBelieved(n: nat, ids: seq<string>, request: Request, fact: string, now: int)
    ensures |BuildPerIncumbent(n, ids, _ => SupersededBy(fact), request, now)| == |ids|
  {
  }

  lemma MarksFollow(event: FactEvent, marks: Log, signed: Log)
    requires SameContent([event] + marks, signed)
    ensures |signed| == 1 + |marks| && signed[0] == event.(attestation := signed[0].attestation) && SameContent(marks, signed[1..])
  {
    var all := [event] + marks;
    assert all[0] == event;
    forall i | 0 <= i < |marks| ensures signed[1..][i] == marks[i].(attestation := signed[1..][i].attestation)
    {
      assert all[i + 1] == marks[i] && signed[1..][i] == signed[i + 1];
    }
  }

  lemma SameMarks(events: Log, n: nat, view: Projection, request: Request, fact: string, same: string, now: int)
    requires MarksEachBelieved(events, n, view, request, _ => SupersededBy(fact), now) && fact == same
    ensures MarksEachBelieved(events, n, view, request, _ => SupersededBy(same), now)
  {
    hide Believes, Before, IsMark;
  }

  /** With the gate on, an otherwise acceptable supersession is refused as unearned exactly when some fact holds out. */
  lemma UnearnedExactlyWhenAFactHoldsOut(env: Env, log: Log, request: Request, value: string, validity: Validity)
    requires Lawful(log) && request.op == Op.Supersede(value, validity)
    ensures var view, result := Replay(log).value, Run(env, log, request).result;
            && (result.Err? && result.error.UnearnedSupersession? <==>
                  && Ready(env, log, request) && HasSomethingToReplace(env, view, request)
                  && env.entrenchmentGate && exists id :: HoldsOut(log, request, id))
            && (result.Err? && result.error.UnearnedSupersession? ==>
                  var id := result.error.incumbent;
                  HoldsOut(log, request, id) && forall other :: HoldsOut(log, request, other) ==> other == id || Before(id, other))
  {
    hide Replay, Lawful, Ready, NewFact, HoldsOut, BelievedFactIds, FirstOutEntrenching, ReachesTheFloor, PolicyFor;
    hide Gate, Load, BuildRevision, SomethingBelieved;
    hide Commit, IsBlank, NextSeq;
    LawfulReplays(log);
    ReadyIff(env, log, request);
    FloorIff(request.subject, request.pred, request.authority);
    FirstHoldsOut(log, request);
    GateAnswersForItself(env, request);
    CommitAnswersForItself(env, log, request);
    if Load(log, env.at.load).Some? {
      LoadedStore(log, env.at.load);
      BelievedIffSome(Store(log, Replay(log).value), request);
    }
  }

  lemma GateAnswersForItself(env: Env, request: Request)
    ensures Gate(env, request).Some? ==> Gate(env, request).value.AuthorityRefused? || Gate(env, request).value.IdentityRefused?
  {
    hide EnforceWrite, GateDecision;
  }

  lemma CommitAnswersForItself(env: Env, log: Log, request: Request)
    ensures forall store, events :: Commit(env, log, store, events).result.Err? ==>
              var error := Commit(env, log, store, events).result.error; error.StoreRefused? || error.CommitFailed?
  {
    hide AppendAll, AttestAll, RecordSurvivedChallenge;
  }

  // ---- Contradict ---------------------------------------------------------------------

  /** The fact of `event` stands as asked beside `incumbent`, which is contested and names it. */
  ghost predicate ContestsByTheFact(
    before: Projection, after: Projection, incumbent: string, event: FactEvent, n: nat,
    request: Request, value: string, validity: Validity, now: int)
  {
    && IsAskedFor(event, n, request, value, validity, now)
    && event.factId !in before && event.factId in after && incumbent in before && incumbent in after && incumbent != event.factId
    && after[event.factId].factId == event.factId && after[event.factId].evidenceCount == |event.evidence|
    && StandsAsAsked(after[event.factId], n, request, value, validity, now)
    && IsContestedState(before[incumbent], after[incumbent], event.factId)
    && forall id :: id != event.factId && id != incumbent ==> Lookup(after, id) == Lookup(before, id)
  }

  ghost predicate IsContestedState(a: FactState, b: FactState, rival: string)
  {
    && b == a.(lifecycle := Contested, contradictedBy := b.contradictedBy, updatedAt := b.updatedAt, lastEventId := b.lastEventId)
    && forall id :: id in b.contradictedBy <==> id in a.contradictedBy || id == rival
  }

  lemma ContestsAsAsked(
    before: Projection, after: Projection, incumbent: string, event: FactEvent, signed: FactEvent,
    n: nat, request: Request, value: string, validity: Validity, now: int)
    requires Contests(before, after, incumbent, event.factId, event) && IsAskedFor(event, n, request, value, validity, now)
    requires signed == event.(attestation := signed.attestation)
    ensures ContestsByTheFact(before, after, incumbent, signed, n, request, value, validity, now)
  {
    NewbornStandsAsAsked(after[event.factId], event, n, request, value, validity, now);
    SignedIsAskedFor(event, signed, n, request, value, validity, now);
    hide IsAskedFor, StandsAsAsked;
  }

  /** A contradiction takes no level at all, only a fact that is not canonical; it contests the one that is explained. */
  lemma ContradictionOutcome(env: Env, log: Log, request: Request, value: string, validity: Validity)
    requires Lawful(log) && request.op == Op.Contradict(value, validity)
    ensures var view, ran := Replay(log).value, Run(env, log, request);
            && (ran.result.Ok? <==>
                  && Ready(env, log, request) && env.contentAdmits && IsWindowOpen(validity)
                  && exists id :: IsExplained(view, request.subject, request.pred, env.at.decide, id) && view[id].authority != Canonical)
            && (ran.result.Ok? ==>
                  && Extends(log, ran.log, ran.result.value) && |ran.result.value| == 2
                  && ran.result.value[0].evidence == ["cli:" + request.source]
                  && var incumbent := ran.result.value[1].factId;
                     && IsExplained(view, request.subject, request.pred, env.at.decide, incumbent)
                     && IsMark(ran.result.value[1], |log| + 1, incumbent, ContradictedBy(ran.result.value[0].factId), request, env.at.decide)
                     && ContestsByTheFact(view, Replay(ran.log).value, incumbent, ran.result.value[0], |log|, request, value, validity, env.at.decide))
  {
    hide Replay, Run, Lawful, Ready, NewFact, IsAskedFor, IsValid, Contests, ContestsByTheFact, IsWindowOpen, Believes;
    hide ExplainSubject, IsMark, IsExplained;
    LawfulReplays(log);
    var store, ran := Store(log, Replay(log).value), Run(env, log, request);
    var event := NewFact(|log|, request, value, validity, env.at.decide);
    var incumbent := ExplainSubject(store, request.subject, request.pred, env.at.decide);
    ContradictionCommits(env, log, request, value, validity);
    FreshNewFact(log, request, value, validity, env.at.decide);
    ValidIffWindowIsOpen(event, |log|, request, value, validity, env.at.decide);
    ExplainedOrNothing(store, request, env.at.decide);
    if ran.result.Ok? {
      ContradictionMarks(|log|, incumbent.value, request, value, validity, env.at.decide, ran.result.value);
      ContestsAsAsked(store.view, Replay(ran.log).value, incumbent.value, event, ran.result.value[0], |log|, request, value, validity, env.at.decide);
    }
  }

  lemma ExplainedOrNothing(store: Store, request: Request, now: int)
    requires Replay(store.log) == Ok(store.view)
    ensures var incumbent := ExplainSubject(store, request.subject, request.pred, now);
            && (incumbent.Some? ==>
                  IsExplained(store.view, request.subject, request.pred, now, incumbent.value) && incumbent.value in store.view)
            && forall id :: IsExplained(store.view, request.subject, request.pred, now, id) ==> incumbent == Some(id)
  {
    hide Replay, Before, Preference, ExplainSubject;
    ExplainedFactIsPreferred(store, request.subject, request.pred, now);
    forall id | IsExplained(store.view, request.subject, request.pred, now, id)
      ensures ExplainSubject(store, request.subject, request.pred, now) == Some(id)
    {
      OneIsExplained(store.view, request.subject, request.pred, now, id, ExplainSubject(store, request.subject, request.pred, now).value);
    }
  }

  lemma ContradictionMarks(n: nat, incumbent: string, request: Request, value: string, validity: Validity, now: int, signed: Log)
    requires SameContent(BuildContradiction(n, incumbent, request, value, validity, now), signed)
    ensures |signed| == 2 && signed[0] == NewFact(n, request, value, validity, now).(attestation := signed[0].attestation)
    ensures signed[0].evidence == ["cli:" + request.source] && signed[1].factId == incumbent
    ensures IsMark(signed[1], n + 1, incumbent, ContradictedBy(signed[0].factId), request, now)
  {
    hide NewFact, EventId;
    NewFactIsAnAssertion(n, request, value, validity, now);
    var event := NewFact(n, request, value, validity, now);
    OnFactIsMark(n + 1, incumbent, ContradictedBy(event.factId), request, now, signed[1]);
  }

  // ---- Retract and expire -------------------------------------------------------------

  predicate IsClosedState(a: FactState, b: FactState, lifecycle: FactLifecycle)
  {
    b == a.(lifecycle := lifecycle, updatedAt := b.updatedAt, lastEventId := b.lastEventId)
  }

  /** Every believed fact of the pair is closed as asked; nothing else about it changes, and no other fact does. */
  ghost predicate ClosesThePair(before: Projection, after: Projection, request: Request)
  {
    && !SomethingBelieved(after, request)
    && forall id ::
         if Believes(before, request.subject, request.pred, id) then
           id in after && IsClosedState(before[id], after[id], if request.op.Retract? then Retracted else FactLifecycle.Expired)
         else Lookup(after, id) == Lookup(before, id)
  }

  lemma ClosesAsAskedFor(before: Projection, after: Projection, request: Request)
    requires Closes(before, after, request.subject, request.pred) && ClosesAsAsked(before, after, request)
    requires !SomethingBelieved(after, request)
    ensures ClosesThePair(before, after, request)
  {
    hide Believes, SomethingBelieved;
    forall id | Believes(before, request.subject, request.pred, id) ensures id in before
    {
      BelievedIsThere(before, request.subject, request.pred, id);
    }
    forall id | Believes(before, request.subject, request.pred, id)
      ensures id in after && IsClosedState(before[id], after[id], if request.op.Retract? then Retracted else FactLifecycle.Expired)
    {
    }
  }

  /** A closing goes through exactly when there is something to close and the request reaches the level of all of it. */
  lemma ClosingOutcome(env: Env, log: Log, request: Request)
    requires Lawful(log) && (request.op.Retract? || request.op.Expire?)
    ensures var view, ran := Replay(log).value, Run(env, log, request);
            && (ran.result.Ok? <==>
                  && Ready(env, log, request) && SomethingBelieved(view, request)
                  && forall id :: Believes(view, request.subject, request.pred, id) ==> Rank(view[id].authority) <= Rank(request.authority))
            && (ran.result.Ok? ==>
                  && Extends(log, ran.log, ran.result.value)
                  && MarksEachBelieved(ran.result.value, |log|, view, request,
                                       _ => if request.op.Retract? then RetractedEvent else ExpiredEvent, env.at.decide)
                  && ClosesThePair(view, Replay(ran.log).value, request))
  {
    hide Replay, Run, Lawful, Ready, Closes, ClosesAsAsked, ClosesThePair, Believes, SomethingBelieved;
    hide BelievedFactIds, MarksEachBelieved, BuildPerIncumbent;
    LawfulReplays(log);
    var store, ran := Store(log, Replay(log).value), Run(env, log, request);
    MintedFactIsFresh(log, request);
    ClosingCommits(env, log, request);
    if ran.result.Ok? {
      PerIncumbentMarks(store, |log|, request, incumbent => IncumbentKind(request.op, incumbent), env.at.decide, ran.result.value);
      ClosingMarks(ran.result.value, |log|, store.view, request, env.at.decide);
      ClosesAsAskedFor(store.view, Replay(ran.log).value, request);
    }
  }

  lemma ClosingMarks(events: Log, n: nat, view: Projection, request: Request, now: int)
    requires request.op.Retract? || request.op.Expire?
    requires MarksEachBelieved(events, n, view, request, incumbent => IncumbentKind(request.op, incumbent), now)
    ensures MarksEachBelieved(events, n, view, request, _ => if request.op.Retract? then RetractedEvent else ExpiredEvent, now)
  {
    hide Believes, Before, IsMark;
  }

  // ---- Reinforce and use --------------------------------------------------------------

  /**
   A reinforcement goes through exactly when there is something to reinforce. Each believed fact of the pair then has
   one more piece of evidence and the requester among its backers, at the higher of its former level and this one.
   */
  lemma ReinforcementOutcome(env: Env, log: Log, request: Request)
    requires Lawful(log) && request.op.Reinforce?
    ensures var view, ran := Replay(log).value, Run(env, log, request);
            && (ran.result.Ok? <==> Ready(env, log, request) && SomethingBelieved(view, request))
            && (ran.result.Ok? ==>
                  && Extends(log, ran.log, ran.result.value)
                  && MarksEachBelieved(ran.result.value, |log|, view, request, id => Reinforced(id), env.at.decide)
                  && ReinforcesThePair(view, Replay(ran.log).value, request))
  {
    hide Replay, Run, Lawful, Ready, Supports, Believes, SomethingBelieved, BelievedFactIds, MarksEachBelieved;
    hide BuildPerIncumbent, ReinforcesThePair;
    LawfulReplays(log);
    var store, ran := Store(log, Replay(log).value), Run(env, log, request);
    MintedFactIsFresh(log, request);
    SupportCommits(env, log, request);
    if ran.result.Ok? {
      PerIncumbentMarks(store, |log|, request, incumbent => IncumbentKind(request.op, incumbent), env.at.decide, ran.result.value);
      ReinforcingMarks(ran.result.value, |log|, store.view, request, env.at.decide);
      SupportsReinforces(store.view, Replay(ran.log).value, request);
    }
  }

  ghost predicate ReinforcesThePair(before: Projection, after: Projection, request: Request)
  {
    forall id ::
      if Believes(before, request.subject, request.pred, id) then
        id in after && IsReinforced(before[id], after[id], request.source, request.authority, 1)
      else Lookup(after, id) == Lookup(before, id)
  }

  lemma SupportsReinforces(before: Projection, after: Projection, request: Request)
    requires Supports(before, after, request) && request.op.Reinforce?
    ensures ReinforcesThePair(before, after, request)
  {
    hide IsReinforced, IsAudited;
  }

  lemma ReinforcingMarks(events: Log, n: nat, view: Projection, request: Request, now: int)
    requires request.op.Reinforce?
    requires MarksEachBelieved(events, n, view, request, incumbent => IncumbentKind(request.op, incumbent), now)
    ensures MarksEachBelieved(events, n, view, request, id => Reinforced(id), now)
  {
    hide Believes, Before, IsMark;
  }

  /** Use in a named decision is recorded exactly when there is something to use, and leaves each fact but for that mark. */
  lemma UseOutcome(env: Env, log: Log, request: Request)
    requires Lawful(log) && request.op.MarkUsedInDecision?
    ensures var view, ran := Replay(log).value, Run(env, log, request);
            && (ran.result.Ok? <==>
                  Ready(env, log, request) && SomethingBelieved(view, request) && !IsBlank(request.op.decision))
            && (ran.result.Ok? ==>
                  && Extends(log, ran.log, ran.result.value)
                  && MarksEachBelieved(ran.result.value, |log|, view, request, _ => UsedInDecision(Trim(request.op.decision)), env.at.decide)
                  && AuditsThePair(view, Replay(ran.log).value, request))
  {
    hide Replay, Run, Lawful, Ready, Supports, Believes, SomethingBelieved, BelievedFactIds, MarksEachBelieved;
    hide BuildPerIncumbent, AuditsThePair;
    hide IsBlank, Trim;
    LawfulReplays(log);
    var store, ran := Store(log, Replay(log).value), Run(env, log, request);
    MintedFactIsFresh(log, request);
    SupportCommits(env, log, request);
    if ran.result.Ok? {
      PerIncumbentMarks(store, |log|, request, incumbent => IncumbentKind(request.op, incumbent), env.at.decide, ran.result.value);
      UsingMarks(ran.result.value, |log|, store.view, request, env.at.decide);
      SupportsAudits(store.view, Replay(ran.log).value, request);
    }
  }

  ghost predicate AuditsThePair(before: Projection, after: Projection, request: Request)
  {
    forall id ::
      if Believes(before, request.subject, request.pred, id) then id in after && IsAudited(before[id], after[id])
      else Lookup(after, id) == Lookup(before, id)
  }

  lemma SupportsAudits(before: Projection, after: Projection, request: Request)
    requires Supports(before, after, request) && request.op.MarkUsedInDecision?
    ensures AuditsThePair(before, after, request)
  {
    hide IsReinforced, IsAudited;
  }

  lemma UsingMarks(events: Log, n: nat, view: Projection, request: Request, now: int)
    requires request.op.MarkUsedInDecision?
    requires MarksEachBelieved(events, n, view, request, incumbent => IncumbentKind(request.op, incumbent), now)
    ensures MarksEachBelieved(events, n, view, request, _ => UsedInDecision(Trim(request.op.decision)), now)
  {
    hide Believes, Before, IsMark, Trim;
  }
}
