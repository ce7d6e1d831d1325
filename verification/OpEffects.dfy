/** What each operation does to the facts of its subject and predicate when it is applied, and why it is refused. */
module OpEffects {
  import opened Wrappers
  import opened AuthorityLevels
  import opened Text
  import opened EventIds
  import opened FactLog
  import opened FactIndex
  import opened Ops
  import opened Batches

  // ---- States -------------------------------------------------------------------------

  /** The same assertion, whatever has happened to it since. */
  predicate SameFact(a: FactState, b: FactState)
  {
    b == a.(lifecycle := b.lifecycle, supersededBy := b.supersededBy, contradictedBy := b.contradictedBy,
            updatedAt := b.updatedAt, lastEventId := b.lastEventId, evidenceCount := b.evidenceCount,
            corroborating := b.corroborating, survived := b.survived)
  }

  predicate SameSupport(a: FactState, b: FactState)
  {
    b.evidenceCount == a.evidenceCount && b.corroborating == a.corroborating && b.survived == a.survived
  }

  /** The same fact in the same standing; only its earned support may differ. */
  predicate SameStanding(a: FactState, b: FactState)
  {
    b == a.(updatedAt := b.updatedAt, lastEventId := b.lastEventId, evidenceCount := b.evidenceCount,
            corroborating := b.corroborating, survived := b.survived)
  }

  /** `source` now counts at the higher of its former level and this one; every other source counts as it did. */
  predicate IsRaised(before: map<string, AuthorityLevel>, after: map<string, AuthorityLevel>, source: string, level: AuthorityLevel)
  {
    && source in after
    && (if source in before && Rank(level) < Rank(before[source]) then after[source] == before[source] else after[source] == level)
    && (forall other :: other in before ==> other in after && (other != source ==> after[other] == before[other]))
    && forall other :: other in after && other != source ==> other in before
  }

  /** `source` backs the fact with `pieces` more pieces of evidence; nothing else about it changes. */
  predicate IsReinforced(a: FactState, b: FactState, source: string, level: AuthorityLevel, pieces: nat)
  {
    && b == a.(updatedAt := b.updatedAt, lastEventId := b.lastEventId, evidenceCount := a.evidenceCount + pieces,
               corroborating := b.corroborating)
    && IsRaised(a.corroborating, b.corroborating, source, level)
  }

  /** The fact has survived a challenge of `source`; nothing else about it changes. */
  predicate HasSurvived(a: FactState, b: FactState, source: string, level: AuthorityLevel)
  {
    && b == a.(updatedAt := b.updatedAt, lastEventId := b.lastEventId, survived := b.survived)
    && IsRaised(a.survived, b.survived, source, level)
  }

  /** The fact was looked at; nothing about it changes but when and by which event it was last touched. */
  predicate IsAudited(a: FactState, b: FactState)
  {
    b == a.(updatedAt := b.updatedAt, lastEventId := b.lastEventId)
  }

  /** What a newly asserted fact looks like. */
  predicate IsNewborn(state: FactState, event: FactEvent)
  {
    && state.factId == event.factId && state.subject == event.subject && state.pred == event.pred
    && event.value == Some(state.value) && state.authority == event.authority
    && state.lifecycle == Active && state.supersededBy == None && state.contradictedBy == []
    && state.ttl == event.ttl && state.validFrom == event.validFrom && state.validTo == event.validTo
    && state.freshnessAnchor == (if event.validFrom.Some? then event.validFrom.value
                                 else if event.observedAt.Some? then event.observedAt.value
                                 else event.recordedAt)
    && state.createdAt == state.updatedAt == event.recordedAt && state.lastEventId == event.eventId
    && state.evidenceCount == |event.evidence| && state.corroborating == map[event.source := event.authority] && state.survived == map[]
  }

  lemma ApplyOpensOrRefuses(event: FactEvent)
    requires event.kind.Asserted? && event.value.Some?
    ensures Apply(None, event).Ok? <==> IsValid(event)
    ensures Apply(None, event).Ok? ==> IsNewborn(Apply(None, event).value, event)
    ensures Apply(None, event).Err? ==> Apply(None, event).error == InvalidEvent
  {
  }

  /** A value-less event of this request on one of its believed facts. */
  predicate Targets(state: FactState, event: FactEvent)
  {
    && state.Believed() && event.value == None && event.validFrom == None && event.validTo == None
    && state.factId == event.factId && state.subject == event.subject && state.pred == event.pred
  }

  lemma ClosingApplies(state: FactState, event: FactEvent)
    requires Targets(state, event) && (event.kind.RetractedEvent? || event.kind.ExpiredEvent?)
    ensures match Apply(Some(state), event)
            case Ok(next) =>
              && SameFact(state, next) && SameSupport(state, next)
              && next.lifecycle == (if event.kind.RetractedEvent? then Retracted else Expired) && next.supersededBy == state.supersededBy
              && next.contradictedBy == state.contradictedBy
            case Err(error) => error == InsufficientAuthority
    ensures Apply(Some(state), event).Ok? <==> AtMost(state.authority, event.authority)
  {
  }

  lemma StrengthenedIsRaised(levels: map<string, AuthorityLevel>, source: string, level: AuthorityLevel)
    ensures IsRaised(levels, Strengthened(levels, source, level), source, level)
  {
  }

  predicate IsSupport(kind: EventKind) { kind.Reinforced? || kind.ChallengeRejected? || kind.UsedInDecision? }

  /** What an event that only bears on a fact's support does to it. */
  predicate IsSupported(a: FactState, b: FactState, event: FactEvent)
  {
    match event.kind
    case Reinforced(_) => IsReinforced(a, b, event.source, event.authority, |event.evidence|)
    case ChallengeRejected(_, _, _) => HasSurvived(a, b, event.source, event.authority)
    case UsedInDecision(_) => IsAudited(a, b)
    case _ => false
  }

  lemma SupportApplies(state: FactState, event: FactEvent)
    requires Targets(state, event) && IsSupport(event.kind)
    ensures Apply(Some(state), event).Ok? <==> !(event.kind.UsedInDecision? && IsBlank(event.kind.decision))
    ensures match Apply(Some(state), event)
            case Ok(next) => IsSupported(state, next, event)
            case Err(error) => error == InvalidEvent
  {
    hide IsBlank, Strengthened, IsRaised;
    StrengthenedIsRaised(state.corroborating, event.source, event.authority);
    StrengthenedIsRaised(state.survived, event.source, event.authority);
  }

  lemma SupersessionApplies(state: FactState, event: FactEvent)
    requires Targets(state, event) && event.kind.SupersededBy?
    ensures match Apply(Some(state), event)
            case Ok(next) =>
              && SameFact(state, next) && SameSupport(state, next) && next.lifecycle == Superseded && next.supersededBy == Some(event.kind.successor)
              && next.contradictedBy == state.contradictedBy
            case Err(error) => error == InsufficientAuthority
    ensures Apply(Some(state), event).Ok? <==> AtMost(state.authority, event.authority)
  {
  }

  lemma ContradictionApplies(state: FactState, event: FactEvent)
    requires Targets(state, event) && event.kind.ContradictedBy?
    ensures match Apply(Some(state), event)
            case Ok(next) =>
              && SameFact(state, next) && SameSupport(state, next) && next.lifecycle == Contested && next.supersededBy == state.supersededBy
              && forall id :: id in next.contradictedBy <==> id in state.contradictedBy || id == event.kind.rival
            case Err(error) => error == CanonicalContradiction
    ensures Apply(Some(state), event).Ok? <==> state.authority != Canonical
  {
  }

  // ---- The batches --------------------------------------------------------------------

  /** A rehydrated store, with its view the fold of its log and every state under its own id. */
  ghost predicate Rehydrated(store: Store)
  {
    && Replay(store.log) == Ok(store.view)
    && forall id :: id in store.view ==> store.view[id].factId == id
  }

  function MintedFact(log: Log, request: Request): string
  {
    FactId(request.subject.kind, request.subject.key, request.pred, NextSeq(log))
  }

  lemma MintedIdsAreAllFresh(log: Log)
    ensures forall k: nat :: NextSeq(log) <= k ==> !HasEventId(log, EventId(k))
  {
    hide HasEventId, EventId, NextSeq;
    forall k: nat | NextSeq(log) <= k ensures !HasEventId(log, EventId(k)) { MintedIdsAreFresh(log, k); }
  }

  /** The event an operation puts on one incumbent, its number aside. */
  function Hit(id: string, kindFor: string -> EventKind, request: Request, now: int): FactEvent
  {
    OnFact(0, id, kindFor(id), request, now)
  }

  /** The event under some number takes the fact there. */
  ghost predicate Lands(current: Option<FactState>, event: FactEvent, next: FactState)
  {
    exists eventId :: Apply(current, event.(eventId := eventId)) == Ok(next)
  }

  lemma VerdictIgnoresEventId(view: Projection, event: FactEvent, eventId: string)
    ensures Arbitrate(view, event.(eventId := eventId)) == Arbitrate(view, event)
  {
  }

  /** Believed facts of the pair, each once, none of them named as a successor. */
  ghost predicate AreIncumbents(view: Projection, ids: seq<string>, kindFor: string -> EventKind, request: Request)
  {
    && (forall i, j :: 0 <= i < j < |ids| ==> ids[i] != ids[j])
    && (forall id :: id in ids ==> Believes(view, request.subject, request.pred, id))
    && (forall id :: id in ids && kindFor(id).SupersededBy? ==> kindFor(id).successor !in ids)
  }

  lemma PerIncumbentIsIndependent(view: Projection, n: nat, ids: seq<string>, kindFor: string -> EventKind, request: Request, now: int)
    requires AreIncumbents(view, ids, kindFor, request)
    ensures var events := BuildPerIncumbent(n, ids, kindFor, request, now);
            NumberedFrom(events, n) && Independent(events)
  {
    hide EventId, Believes;
    var events := BuildPerIncumbent(n, ids, kindFor, request, now);
    assert forall i :: 0 <= i < |events| ==> events[i].factId == ids[i] && events[i].kind == kindFor(ids[i]);
  }

  /** A per-incumbent batch is judged incumbent by incumbent against the state before it. */
  lemma PerIncumbentRuns(store: Store, n: nat, ids: seq<string>, kindFor: string -> EventKind, request: Request, now: int)
    requires AreIncumbents(store.view, ids, kindFor, request)
    requires forall k: nat :: n <= k ==> !HasEventId(store.log, EventId(k))
    ensures var applied := AppendAll(store, BuildPerIncumbent(n, ids, kindFor, request, now));
            && (applied.AllApplied? ==>
                  && (forall id :: id in ids ==>
                        && Arbitrate(store.view, Hit(id, kindFor, request, now)) == None
                        && id in applied.store.view
                        && Lands(Lookup(store.view, id), Hit(id, kindFor, request, now), applied.store.view[id]))
                  && (forall id :: id !in ids ==> Lookup(applied.store.view, id) == Lookup(store.view, id)))
            && (applied.Stopped? ==>
                  && applied.event.factId in ids
                  && applied.event.(eventId := EventId(0)) == Hit(applied.event.factId, kindFor, request, now)
                  && Arbitrate(store.view, Hit(applied.event.factId, kindFor, request, now)) == Some(applied.error))
  {
    hide Apply, Arbitrate, AppendAll, HasEventId, EventId, AreIncumbents, Independent;
    PerIncumbentIsIndependent(store.view, n, ids, kindFor, request, now);
    var events := BuildPerIncumbent(n, ids, kindFor, request, now);
    IndependentBatch(store, events, n);
    forall i | 0 <= i < |events|
      ensures events[i].factId == ids[i]
      ensures events[i].(eventId := EventId(0)) == Hit(ids[i], kindFor, request, now)
      ensures Arbitrate(store.view, events[i]) == Arbitrate(store.view, Hit(ids[i], kindFor, request, now))
    {
      VerdictIgnoresEventId(store.view, events[i], EventId(0));
    }
    var applied := AppendAll(store, events);
    if applied.AllApplied? {
      forall id | id in ids
        ensures Arbitrate(store.view, Hit(id, kindFor, request, now)) == None
        ensures id in applied.store.view
        ensures Lands(Lookup(store.view, id), Hit(id, kindFor, request, now), applied.store.view[id])
      {
        var i :| 0 <= i < |ids| && ids[i] == id;
        assert events[i].factId == id && events[i] == Hit(id, kindFor, request, now).(eventId := events[i].eventId);
      }
      forall id | id !in ids ensures Lookup(applied.store.view, id) == Lookup(store.view, id)
      {
        assert forall i :: 0 <= i < |events| ==> events[i].factId != id;
      }
    } else {
      var i :| 0 <= i < |events| && applied.event == events[i] && Arbitrate(store.view, events[i]) == Some(applied.error);
      assert ids[i] in ids;
    }
  }

  predicate IsPerIncumbent(op: Op) { op.Retract? || op.Expire? || op.Reinforce? || op.MarkUsedInDecision? }

  /** The batch of `retract`, `expire`, `reinforce` and `used_in_decision`. */
  function PerIncumbentEvents(store: Store, request: Request, now: int): Log
    requires IsPerIncumbent(request.op)
  {
    BuildPerIncumbent(NextSeq(store.log), BelievedFactIds(store, request.subject, request.pred),
                      incumbent => IncumbentKind(request.op, incumbent), request, now)
  }

  /** The facts of the pair that were believed are closed; every other fact is as it was. */
  ghost predicate Closes(before: Projection, after: Projection, subject: Subject, pred: string)
  {
    forall id ::
      if Believes(before, subject, pred, id) then
        && id in after && SameFact(before[id], after[id]) && SameSupport(before[id], after[id])
        && after[id].lifecycle.IsTerminal() && after[id].supersededBy == before[id].supersededBy
        && after[id].contradictedBy == before[id].contradictedBy
      else Lookup(after, id) == Lookup(before, id)
  }

  /** Each believed fact of the pair is closed in the way that was asked for. */
  ghost predicate ClosesAsAsked(before: Projection, after: Projection, request: Request)
  {
    forall id :: Believes(before, request.subject, request.pred, id) ==>
      id in after && after[id].lifecycle == if request.op.Retract? then Retracted else FactLifecycle.Expired
  }

  ghost predicate KeepsStanding(before: Projection, after: Projection)
  {
    && before.Keys == after.Keys
    && forall id :: id in before ==> SameStanding(before[id], after[id])
  }

  /** Why a batch stopped: on which believed fact, and on what ground. */
  ghost predicate StoppedFor(store: Store, request: Request, event: FactEvent, error: StoreError, ground: TransitionError)
  {
    && Believes(store.view, request.subject, request.pred, event.factId)
    && event.subject == request.subject && event.pred == request.pred
    && event.source == request.source && event.authority == request.authority
    && error == Rejected(ground)
    && (ground.InsufficientAuthority? ==> !AtMost(store.view[event.factId].authority, request.authority))
    && (ground.CanonicalContradiction? ==> store.view[event.factId].authority == Canonical)
  }

  /** The requester out-ranks or ties every believed fact of the pair. */
  ghost predicate OutranksAll(view: Projection, request: Request)
  {
    forall id :: Believes(view, request.subject, request.pred, id) ==> AtMost(view[id].authority, request.authority)
  }

  /** `retract` and `expire` close every believed fact, or are stopped by one that outranks the request. */
  lemma ClosingEffect(store: Store, request: Request, now: int)
    requires Rehydrated(store) && (request.op.Retract? || request.op.Expire?)
    ensures var applied := AppendAll(store, PerIncumbentEvents(store, request, now));
            && (applied.AllApplied? <==> OutranksAll(store.view, request))
            && (applied.AllApplied? ==> Closes(store.view, applied.store.view, request.subject, request.pred))
            && (applied.AllApplied? ==> ClosesAsAsked(store.view, applied.store.view, request))
            && (applied.Stopped? ==> StoppedFor(store, request, applied.event, applied.error, TransitionError.InsufficientAuthority))
  {
    hide BelievedFactIds, Replay, Apply, AppendAll, BuildPerIncumbent, SameFact, SameSupport, HasEventId, EventId, NextSeq;
    var ids := BelievedFactIds(store, request.subject, request.pred);
    var kindFor := incumbent => IncumbentKind(request.op, incumbent);
    BelievedFactIdsAreTheBelieved(store, request.subject, request.pred);
    MintedIdsAreAllFresh(store.log);
    PerIncumbentRuns(store, NextSeq(store.log), ids, kindFor, request, now);
    forall id | id in ids
      ensures Arbitrate(store.view, Hit(id, kindFor, request, now)) ==
                (if AtMost(store.view[id].authority, request.authority) then None
                 else Some(Rejected(TransitionError.InsufficientAuthority)))
    {
      ClosingApplies(store.view[id], Hit(id, kindFor, request, now));
    }
    var applied := AppendAll(store, BuildPerIncumbent(NextSeq(store.log), ids, kindFor, request, now));
    if applied.AllApplied? {
      forall id | id in ids
        ensures SameFact(store.view[id], applied.store.view[id]) && SameSupport(store.view[id], applied.store.view[id])
        ensures applied.store.view[id].lifecycle == if request.op.Retract? then Retracted else FactLifecycle.Expired
        ensures applied.store.view[id].supersededBy == store.view[id].supersededBy
        ensures applied.store.view[id].contradictedBy == store.view[id].contradictedBy
      {
        var hit := Hit(id, kindFor, request, now);
        var eventId :| Apply(Some(store.view[id]), hit.(eventId := eventId)) == Ok(applied.store.view[id]);
        ClosingApplies(store.view[id], hit.(eventId := eventId));
      }
    }
  }

  /** Each fact of the pair that was believed is supported as asked; every other fact is as it was. */
  ghost predicate Supports(before: Projection, after: Projection, request: Request)
  {
    forall id ::
      if Believes(before, request.subject, request.pred, id) then
        && id in after
        && if request.op.Reinforce? then IsReinforced(before[id], after[id], request.source, request.authority, 1)
           else IsAudited(before[id], after[id])
      else Lookup(after, id) == Lookup(before, id)
  }

  lemma TrimmedIsBlankIff(s: string)
    ensures IsBlank(Trim(s)) <==> IsBlank(s)
  {
    hide IsWhitespace;
    StartedIsBlankIff(s);
    EndedIsBlankIff(TrimStart(s));
  }

  lemma {:induction false} StartedIsBlankIff(s: string)
    ensures IsBlank(TrimStart(s)) <==> IsBlank(s)
  {
    if s != "" && IsWhitespace(s[0]) {
      StartedIsBlankIff(s[1..]);
      assert s == [s[0]] + s[1..];
    }
  }

  lemma {:induction false} EndedIsBlankIff(s: string)
    ensures IsBlank(TrimEnd(s)) <==> IsBlank(s)
  {
    if s != "" && IsWhitespace(s[|s| - 1]) {
      EndedIsBlankIff(s[..|s| - 1]);
      assert s == s[..|s| - 1] + [s[|s| - 1]];
    }
  }

  lemma SupportHits(state: FactState, request: Request, id: string, eventId: string, now: int)
    requires request.op.Reinforce? || request.op.MarkUsedInDecision?
    requires state.Believed() && state.factId == id && state.subject == request.subject && state.pred == request.pred
    ensures var event := OnFact(0, id, IncumbentKind(request.op, id), request, now).(eventId := eventId);
            && (Apply(Some(state), event).Ok? <==> (request.op.MarkUsedInDecision? ==> !IsBlank(request.op.decision)))
            && match Apply(Some(state), event)
               case Ok(next) =>
                 if request.op.Reinforce? then IsReinforced(state, next, request.source, request.authority, 1) else IsAudited(state, next)
               case Err(error) => error == InvalidEvent
  {
    hide Apply, IsBlank, Trim, EventId, IsRaised;
    var event := OnFact(0, id, IncumbentKind(request.op, id), request, now).(eventId := eventId);
    if request.op.MarkUsedInDecision? { TrimmedIsBlankIff(request.op.decision); }
    SupportApplies(state, event);
  }

  /** `reinforce` and `used_in_decision` support every believed fact of the pair, and stop only for want of a decision. */
  lemma SupportEffect(store: Store, request: Request, now: int)
    requires Rehydrated(store) && (request.op.Reinforce? || request.op.MarkUsedInDecision?)
    ensures var applied := AppendAll(store, PerIncumbentEvents(store, request, now));
            && ((request.op.MarkUsedInDecision? ==> !IsBlank(request.op.decision)) ==> applied.AllApplied?)
            && (applied.AllApplied? ==>
                  Supports(store.view, applied.store.view, request) && KeepsStanding(store.view, applied.store.view))
  {
    hide BelievedFactIds, Replay, Apply, AppendAll, BuildPerIncumbent, SameStanding, HasEventId, EventId, NextSeq, IsBlank;
    hide IsReinforced, IsAudited, Trim;
    var ids := BelievedFactIds(store, request.subject, request.pred);
    var kindFor := incumbent => IncumbentKind(request.op, incumbent);
    BelievedFactIdsAreTheBelieved(store, request.subject, request.pred);
    MintedIdsAreAllFresh(store.log);
    PerIncumbentRuns(store, NextSeq(store.log), ids, kindFor, request, now);
    forall id | id in ids
      ensures (request.op.MarkUsedInDecision? ==> !IsBlank(request.op.decision)) ==>
                Arbitrate(store.view, Hit(id, kindFor, request, now)) == None
    {
      SupportHits(store.view[id], request, id, EventId(0), now);
    }
    var applied := AppendAll(store, BuildPerIncumbent(NextSeq(store.log), ids, kindFor, request, now));
    if applied.AllApplied? {
      var after := applied.store.view;
      forall id | id in ids
        ensures id in after
        ensures if request.op.Reinforce? then IsReinforced(store.view[id], after[id], request.source, request.authority, 1)
                else IsAudited(store.view[id], after[id])
      {
        var hit := Hit(id, kindFor, request, now);
        var eventId :| Apply(Some(store.view[id]), hit.(eventId := eventId)) == Ok(after[id]);
        SupportHits(store.view[id], request, id, eventId, now);
      }
      SupportsKeepsStanding(store.view, after, request);
    }
  }

  lemma SupportsKeepsStanding(before: Projection, after: Projection, request: Request)
    requires Supports(before, after, request)
    ensures KeepsStanding(before, after)
  {
    hide Believes, IsRaised;
    forall id ensures id in before <==> id in after
              ensures id in before ==> SameStanding(before[id], after[id])
    {
      if !Believes(before, request.subject, request.pred, id) {
        assert Lookup(after, id) == Lookup(before, id);
        if id in before { StandingIsReflexive(before[id]); }
      } else {
        BelievedIsThere(before, request.subject, request.pred, id);
      }
    }
  }

  lemma BelievedIsThere(view: Projection, subject: Subject, pred: string, id: string)
    requires Believes(view, subject, pred, id)
    ensures id in view
  {
  }

  lemma StandingIsReflexive(state: FactState)
    ensures SameStanding(state, state) && SameFact(state, state)
  {
  }

  // ---- Assertions and their companions ------------------------------------------------

  lemma NewFactIsAnAssertion(n: nat, request: Request, value: string, validity: Validity, now: int)
    ensures var event := NewFact(n, request, value, validity, now);
            && event.kind.Asserted? && event.value.Some? && event.attestation == None
            && event.eventId == EventId(n)
            && event.factId == FactId(request.subject.kind, request.subject.key, request.pred, n)
            && event.subject == request.subject && event.pred == request.pred
            && event.authority == request.authority && event.source == request.source && event.evidence == Spoken(request.source)
            && (IsValid(event) <==> validity.start.Some? && validity.end.Some? ==> validity.start.value < validity.end.value)
  {
    hide EventId, FactId;
  }

  lemma AssertedFactIsAnAssertion(store: Store, request: Request, value: string, validity: Validity, now: int)
    ensures var event, n := AssertedFact(store, request, value, validity, now), NextSeq(store.log);
            && event.kind.Asserted? && event.value.Some? && event.attestation == None
            && event.eventId == EventId(n)
            && event.factId == FactId(request.subject.kind, request.subject.key, request.pred, n)
            && event.subject == request.subject && event.pred == request.pred
            && event.authority == request.authority && event.source == request.source
            && event.evidence == Spoken(request.source) + Grounds(store, request)
            && (request.op.Assert? ==> event == NewFact(n, request, value, validity, now))
            && (IsValid(event) <==> IsValid(NewFact(n, request, value, validity, now)))
  {
    hide EventId, FactId, NextSeq, NewFact, BelievedFactIds;
    NewFactIsAnAssertion(NextSeq(store.log), request, value, validity, now);
    var event := NewFact(NextSeq(store.log), request, value, validity, now);
    assert event.evidence + [] == event.evidence;
  }

  /** `fact` is new and as asserted; every other fact is as it was. */
  ghost predicate Adds(before: Projection, after: Projection, fact: string, event: FactEvent)
  {
    && fact !in before && fact in after && IsNewborn(after[fact], event)
    && forall id :: id != fact ==> Lookup(after, id) == Lookup(before, id)
  }

  /** Opening a fact under an id nobody uses succeeds exactly when its validity window is not empty. */
  lemma OpeningEffect(store: Store, event: FactEvent)
    requires event.kind.Asserted? && event.value.Some? && event.factId !in store.view
    requires !HasEventId(store.log, event.eventId)
    ensures var opening := Append(store, event);
            && (opening.Ok? <==> IsValid(event))
            && (opening.Ok? ==>
                  && Adds(store.view, opening.value.view, event.factId, event)
                  && opening.value.log == store.log + [event])
            && (opening.Err? ==> opening.error == Rejected(InvalidEvent))
  {
    hide Apply, HasEventId, IsNewborn, IsValid;
    ApplyOpensOrRefuses(event);
    AdmittedEventApplies(store, event);
  }

  /** Every believed fact of the pair is superseded by `fact`, which is new; every other fact is as it was. */
  ghost predicate Replaces(before: Projection, after: Projection, subject: Subject, pred: string, fact: string, event: FactEvent)
  {
    && fact !in before && fact in after && IsNewborn(after[fact], event)
    && forall id :: id != fact ==>
         if Believes(before, subject, pred, id) then
           && id in after && SameFact(before[id], after[id]) && SameSupport(before[id], after[id])
           && after[id].lifecycle == Superseded && after[id].supersededBy == Some(fact)
           && after[id].contradictedBy == before[id].contradictedBy
         else Lookup(after, id) == Lookup(before, id)
  }

  lemma SupersessionIsArbitrated(view: Projection, id: string, successor: string, request: Request, now: int)
    requires Believes(view, request.subject, request.pred, id) && view[id].factId == id
    requires successor in view && view[successor].authority == request.authority
    ensures Arbitrate(view, Hit(id, _ => SupersededBy(successor), request, now)) ==
              (if AtMost(view[id].authority, request.authority) then None
               else Some(Rejected(TransitionError.InsufficientAuthority)))
  {
    hide Apply;
    SupersessionApplies(view[id], Hit(id, _ => SupersededBy(successor), request, now));
  }

  /**
   A revision goes through exactly when its window is not empty and it outranks or ties every believed
   fact of the pair; the laundering check never has to refuse it, because the replacement it names was
   just admitted at the authority the request states.
   */
  lemma RevisionEffect(store: Store, request: Request, value: string, validity: Validity, now: int)
    requires Rehydrated(store) && MintedFact(store.log, request) !in store.view
    ensures var n, ids := NextSeq(store.log), BelievedFactIds(store, request.subject, request.pred);
            var replacement := NewFact(n, request, value, validity, now);
            var applied := AppendAll(store, BuildRevision(n, ids, request, value, validity, now));
            && (applied.AllApplied? <==> IsValid(replacement) && OutranksAll(store.view, request))
            && (applied.AllApplied? ==>
                  Replaces(store.view, applied.store.view, request.subject, request.pred, replacement.factId, replacement))
            && (applied.Stopped? ==>
                  if IsValid(replacement) then
                    StoppedFor(store, request, applied.event, applied.error, TransitionError.InsufficientAuthority)
                  else applied.event == replacement && applied.error == Rejected(InvalidEvent))
  {
    hide BelievedFactIds, Replay, Apply, Append, BuildPerIncumbent, SameFact, SameSupport, HasEventId, EventId;
    hide NextSeq, NewFact, IsValid, IsNewborn, FactId;
    var n, ids := NextSeq(store.log), BelievedFactIds(store, request.subject, request.pred);
    var replacement := NewFact(n, request, value, validity, now);
    NewFactIsAnAssertion(n, request, value, validity, now);
    BelievedFactIdsAreTheBelieved(store, request.subject, request.pred);
    MintedIdsAreAllFresh(store.log);
    OpeningEffect(store, replacement);
    var opening := Append(store, replacement);
    var kindFor: string -> EventKind := _ => SupersededBy(replacement.factId);
    var rest := BuildPerIncumbent(n + 1, ids, kindFor, request, now);
    RevisionSplits(store, n, ids, request, value, validity, now);
    if opening.Ok? {
      var next := opening.value;
      SupersessionsRun(store, next, n, ids, replacement, request, now);
    }
  }

  lemma RevisionSplits(store: Store, n: nat, ids: seq<string>, request: Request, value: string, validity: Validity, now: int)
    ensures var replacement := NewFact(n, request, value, validity, now);
            AppendAll(store, BuildRevision(n, ids, request, value, validity, now)) ==
            match Append(store, replacement)
            case Err(error) => Stopped(replacement, error)
            case Ok(next) =>
              AppendAll(next, BuildPerIncumbent(n + 1, ids, _ => SupersededBy(replacement.factId), request, now))
  {
    hide Append, BuildPerIncumbent, NewFact;
    var events := BuildRevision(n, ids, request, value, validity, now);
    var replacement := NewFact(n, request, value, validity, now);
    assert events[0] == replacement;
    assert events[1..] == BuildPerIncumbent(n + 1, ids, _ => SupersededBy(replacement.factId), request, now);
  }

  lemma SupersessionsRun(store: Store, next: Store, n: nat, ids: seq<string>, replacement: FactEvent, request: Request, now: int)
    requires Rehydrated(store) && n == NextSeq(store.log) && replacement.eventId == EventId(n)
    requires forall i, j :: 0 <= i < j < |ids| ==> ids[i] != ids[j]
    requires forall id :: id in ids <==> Believes(store.view, request.subject, request.pred, id)
    requires replacement.authority == request.authority && next.log == store.log + [replacement]
    requires Adds(store.view, next.view, replacement.factId, replacement)
    ensures var applied := AppendAll(next, BuildPerIncumbent(n + 1, ids, _ => SupersededBy(replacement.factId), request, now));
            && (applied.AllApplied? <==> OutranksAll(store.view, request))
            && (applied.AllApplied? ==>
                  Replaces(store.view, applied.store.view, request.subject, request.pred, replacement.factId, replacement))
            && (applied.Stopped? ==>
                  StoppedFor(store, request, applied.event, applied.error, TransitionError.InsufficientAuthority))
  {
    hide Replay, Apply, AppendAll, BuildPerIncumbent, SameFact, SameSupport, HasEventId, EventId, NextSeq, IsNewborn, Arbitrate;
    var fact := replacement.factId;
    var kindFor: string -> EventKind := _ => SupersededBy(fact);
    forall id | id in ids
      ensures Believes(next.view, request.subject, request.pred, id) && Lookup(next.view, id) == Some(store.view[id])
    {
      assert id != fact;
      assert Lookup(next.view, id) == Lookup(store.view, id);
    }
    RevisionIdsAreFresh(store.log, replacement, n);
    PerIncumbentRuns(next, n + 1, ids, kindFor, request, now);
    forall id | id in ids
      ensures Arbitrate(next.view, Hit(id, kindFor, request, now)) ==
                (if AtMost(store.view[id].authority, request.authority) then None
                 else Some(Rejected(TransitionError.InsufficientAuthority)))
    {
      NewbornAuthority(next.view[fact], replacement);
      SupersessionIsArbitrated(next.view, id, fact, request, now);
      assert Hit(id, kindFor, request, now) == Hit(id, _ => SupersededBy(fact), request, now);
    }
    var applied := AppendAll(next, BuildPerIncumbent(n + 1, ids, kindFor, request, now));
    if applied.AllApplied? {
      var after := applied.store.view;
      forall id | id in ids
        ensures id in after && SameFact(store.view[id], after[id]) && SameSupport(store.view[id], after[id])
        ensures after[id].lifecycle == Superseded && after[id].supersededBy == Some(fact)
        ensures after[id].contradictedBy == store.view[id].contradictedBy
      {
        var hit := Hit(id, kindFor, request, now);
        var eventId :| Apply(Some(store.view[id]), hit.(eventId := eventId)) == Ok(after[id]);
        SupersessionApplies(store.view[id], hit.(eventId := eventId));
      }
      assert Lookup(after, fact) == Lookup(next.view, fact);
      forall id | id != fact && id !in ids ensures Lookup(after, id) == Lookup(store.view, id)
      {
        assert Lookup(after, id) == Lookup(next.view, id);
      }
    }
  }

  lemma NewbornAuthority(state: FactState, event: FactEvent)
    requires IsNewborn(state, event)
    ensures state.authority == event.authority
  {
  }

  lemma RevisionIdsAreFresh(log: Log, replacement: FactEvent, n: nat)
    requires n == NextSeq(log) && replacement.eventId == EventId(n)
    ensures forall k: nat :: n + 1 <= k ==> !HasEventId(log + [replacement], EventId(k))
  {
    hide EventId, NextSeq;
    MintedIdsAreAllFresh(log);
    assert NumberedFrom([replacement], n);
    FreshTail(log, [replacement], n);
  }

  /** The new fact is believed beside the incumbent, which is now contested and names it. */
  ghost predicate Contests(before: Projection, after: Projection, incumbent: string, fact: string, event: FactEvent)
  {
    && fact !in before && fact in after && IsNewborn(after[fact], event)
    && incumbent in before && incumbent in after && incumbent != fact && SameFact(before[incumbent], after[incumbent])
    && SameSupport(before[incumbent], after[incumbent])
    && after[incumbent].lifecycle == Contested && after[incumbent].supersededBy == before[incumbent].supersededBy
    && (forall id :: id in after[incumbent].contradictedBy <==> id in before[incumbent].contradictedBy || id == fact)
    && forall id :: id != fact && id != incumbent ==> Lookup(after, id) == Lookup(before, id)
  }

  lemma TwoAppends(store: Store, first: FactEvent, second: FactEvent)
    ensures AppendAll(store, [first, second]) ==
            match Append(store, first)
            case Err(error) => Stopped(first, error)
            case Ok(next) =>
              match Append(next, second)
              case Err(error) => Stopped(second, error)
              case Ok(last) => AllApplied(last)
  {
    hide Append;
    assert [first, second][1..] == [second] && [second][1..] == [];
    var opening := Append(store, first);
    if opening.Ok? {
      var closing := Append(opening.value, second);
      assert closing.Ok? ==> AppendAll(closing.value, []) == AllApplied(closing.value);
      assert AppendAll(opening.value, [second]) == match closing case Err(error) => Stopped(second, error) case Ok(last) => AppendAll(last, []);
    }
  }

  /** Dissent is stopped only by an empty window or a canonical incumbent. */
  lemma ContradictionEffect(store: Store, incumbent: string, request: Request, value: string, validity: Validity, now: int)
    requires Rehydrated(store) && MintedFact(store.log, request) !in store.view
    requires Believes(store.view, request.subject, request.pred, incumbent)
    ensures var n := NextSeq(store.log);
            var opposing := NewFact(n, request, value, validity, now);
            var applied := AppendAll(store, BuildContradiction(n, incumbent, request, value, validity, now));
            && (applied.AllApplied? <==> IsValid(opposing) && store.view[incumbent].authority != Canonical)
            && (applied.AllApplied? ==> Contests(store.view, applied.store.view, incumbent, opposing.factId, opposing))
            && (applied.Stopped? ==>
                  if IsValid(opposing) then
                    StoppedFor(store, request, applied.event, applied.error, CanonicalContradiction)
                  else applied.event == opposing && applied.error == Rejected(InvalidEvent))
  {
    hide Replay, Apply, Append, SameFact, SameSupport, HasEventId, EventId, NextSeq, NewFact, IsValid, IsNewborn, FactId;
    var n := NextSeq(store.log);
    var opposing := NewFact(n, request, value, validity, now);
    NewFactIsAnAssertion(n, request, value, validity, now);
    MintedIdsAreAllFresh(store.log);
    OpeningEffect(store, opposing);
    var opening := Append(store, opposing);
    var contradiction := OnFact(n + 1, incumbent, ContradictedBy(opposing.factId), request, now);
    var events := BuildContradiction(n, incumbent, request, value, validity, now);
    TwoAppends(store, opposing, contradiction);
    if opening.Ok? {
      var next := opening.value;
      assert Lookup(next.view, incumbent) == Lookup(store.view, incumbent);
      RevisionIdsAreFresh(store.log, opposing, n);
      AdmittedEventApplies(next, contradiction);
      ContradictionApplies(store.view[incumbent], contradiction);
      assert Arbitrate(next.view, contradiction) ==
        (if store.view[incumbent].authority != Canonical then None else Some(Rejected(CanonicalContradiction)));
    }
  }
}
