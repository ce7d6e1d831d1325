/** What a request asks to be stored, and when the policy of its predicate lets it: said of the request alone. */
module OpRequests {
  import opened Wrappers
  import opened EventIds
  import opened FactLog
  import opened FactIndex
  import opened FoldMeaning
  import opened Policies
  import opened PolicyMeaning
  import opened Identity
  import opened Ops
  import opened OpEffects

  // ---- What is asked for --------------------------------------------------------------

  /** How long the fact holds from its anchor on: as asked, else an hour for a branch status, else for good. */
  function AskedLifetime(request: Request, validity: Validity): Option<nat>
  {
    if validity.ttl.Some? then validity.ttl
    else if IsBranchStatus(request.subject, request.pred) then Some(3_600_000)
    else None
  }

  function AskedAnchor(validity: Validity, now: int): int { if validity.start.Some? then validity.start.value else now }

  /** The event, its signature and grounds aside, is the assertion that the request describes. */
  predicate IsAskedFor(event: FactEvent, n: nat, request: Request, value: string, validity: Validity, now: int)
  {
    && event.eventId == "event:" + Decimal(n) && event.kind == Asserted
    && event.factId == "fact:" + request.subject.kind + ":" + request.subject.key + ":" + request.pred + ":" + Decimal(n)
    && event.subject == request.subject && event.pred == request.pred && event.value == Some(FactValue.Text(value))
    && event.authority == request.authority && event.source == request.source
    && event.ttl == (match AskedLifetime(request, validity) case Some(millis) => DurationMillis(millis) case None => Ttl.Never)
    && event.observedAt == None && event.validFrom == validity.start && event.validTo == validity.end && event.recordedAt == now
    && event.evidence != [] && event.evidence[0] == "cli:" + request.source
  }

  lemma NewFactIsAskedFor(n: nat, request: Request, value: string, validity: Validity, now: int)
    ensures IsAskedFor(NewFact(n, request, value, validity, now), n, request, value, validity, now)
  {
    hide Decimal;
  }

  predicate IsWindowOpen(validity: Validity)
  {
    validity.start.Some? && validity.end.Some? ==> validity.start.value < validity.end.value
  }

  lemma ValidIffWindowIsOpen(event: FactEvent, n: nat, request: Request, value: string, validity: Validity, now: int)
    requires IsAskedFor(event, n, request, value, validity, now)
    ensures IsValid(event) <==> IsWindowOpen(validity)
  {
    hide Decimal;
  }

  /** The fact in the state its request puts it in: as asserted, uncontested, backed by its source alone, and stale when asked. */
  ghost predicate StandsAsAsked(state: FactState, n: nat, request: Request, value: string, validity: Validity, now: int)
  {
    && state.subject == request.subject && state.pred == request.pred && state.value == FactValue.Text(value)
    && state.authority == request.authority && state.validFrom == validity.start && state.validTo == validity.end
    && state.createdAt == now && state.updatedAt == now && state.lastEventId == "event:" + Decimal(n)
    && state.lifecycle == Active && state.supersededBy == None && state.contradictedBy == []
    && state.corroborating == map[request.source := request.authority] && state.survived == map[]
    && forall at :: state.IsExpiredAt(at) <==>
         || (validity.end.Some? && validity.end.value <= at)
         || (AskedLifetime(request, validity).Some?
             && LifetimeIsOver(DurationMillis(AskedLifetime(request, validity).value), AskedAnchor(validity, now), at))
  }

  lemma NewbornStandsAsAsked(state: FactState, event: FactEvent, n: nat, request: Request, value: string, validity: Validity, now: int)
    requires IsNewborn(state, event) && IsAskedFor(event, n, request, value, validity, now)
    ensures StandsAsAsked(state, n, request, value, validity, now)
  {
    hide Decimal, IsBranchStatus;
  }

  // ---- What the policy lets in --------------------------------------------------------

  predicate MeetsTheFloor(request: Request) { ReachesTheFloor(request.subject, request.pred, request.authority) }

  /** Nothing is claimed to last for more than 90 days, and what is short-lived not for more than a week. */
  predicate IsWithinRetention(request: Request, validity: Validity, now: int)
  {
    && (validity.ttl.Some? ==> validity.ttl.value <= if IsShortLived(request.subject, request.pred) then 604_800_000 else 7_776_000_000)
    && (IsShortLived(request.subject, request.pred) && validity.end.Some? ==> validity.end.value - AskedAnchor(validity, now) <= 604_800_000)
  }

  /** Nothing believed about a one-at-a-time pair is still unexpired. */
  ghost predicate HasNoRival(view: Projection, request: Request, now: int)
  {
    IsOneAtATime(request.subject, request.pred) ==> forall id :: Believes(view, request.subject, request.pred, id) ==> view[id].IsExpiredAt(now)
  }

  lemma RetentionAsAsked(event: FactEvent, n: nat, request: Request, value: string, validity: Validity, now: int)
    requires IsAskedFor(event, n, request, value, validity, now)
    ensures StaysInRetention(event) <==> IsWithinRetention(request, validity, now)
  {
    hide Decimal;
  }

  /** The policy admits a new assertion exactly within its floor, its retention and its uniqueness, and says which it misses. */
  lemma PolicyAdmitsAsAsked(view: Projection, event: FactEvent, n: nat, request: Request, value: string, validity: Validity, now: int)
    requires IsAskedFor(event, n, request, value, validity, now) && event.factId !in view
    ensures EnforcePolicy(view, event, now) ==
              if !MeetsTheFloor(request) then Some(BelowAuthorityFloor)
              else if !IsWithinRetention(request, validity, now) then Some(TtlCeilingExceeded)
              else if !HasNoRival(view, request, now) then Some(UniquenessViolation)
              else None
  {
    PolicyAdmitsIff(view, event, now);
    RetentionAsAsked(event, n, request, value, validity, now);
    hide ReachesTheFloor, IsWithinRetention, StaysInRetention, EnforcePolicy, IsOneAtATime, Decimal, FactState.IsExpiredAt;
  }

  // ---- What is put on the facts that are there ----------------------------------------

  /** The event, its signature aside, marks the fact as `kind` in the requester's name and says nothing else. */
  predicate IsMark(event: FactEvent, n: nat, id: string, kind: EventKind, request: Request, now: int)
  {
    event.(attestation := None) ==
      FactEvent("event:" + Decimal(n), id, kind, request.subject, request.pred, None, request.authority, request.source,
                Ttl.Never, None, None, None, now, ["cli:" + request.source], None)
  }

  /** One mark on each believed fact of the pair, in fact-id order, numbered from `n`. */
  ghost predicate MarksEachBelieved(events: Log, n: nat, view: Projection, request: Request, kindFor: string -> EventKind, now: int)
  {
    && (forall i :: 0 <= i < |events| ==> IsMark(events[i], n + i, events[i].factId, kindFor(events[i].factId), request, now))
    && (forall i, j :: 0 <= i < j < |events| ==> Before(events[i].factId, events[j].factId))
    && forall id :: Believes(view, request.subject, request.pred, id) <==> exists i :: 0 <= i < |events| && events[i].factId == id
  }

  lemma OnFactIsMark(n: nat, id: string, kind: EventKind, request: Request, now: int, signed: FactEvent)
    requires signed == OnFact(n, id, kind, request, now).(attestation := signed.attestation)
    ensures IsMark(signed, n, id, kind, request, now)
  {
    hide Decimal;
  }

  lemma PerIncumbentMarks(store: Store, n: nat, request: Request, kindFor: string -> EventKind, now: int, signed: Log)
    requires Replay(store.log) == Ok(store.view)
    requires SameContent(BuildPerIncumbent(n, BelievedFactIds(store, request.subject, request.pred), kindFor, request, now), signed)
    ensures MarksEachBelieved(signed, n, store.view, request, kindFor, now)
  {
    hide Replay, BelievedFactIds, Believes, IsMark, EventId, Before;
    BelievedFactIdsAreTheBelieved(store, request.subject, request.pred);
    var ids := BelievedFactIds(store, request.subject, request.pred);
    forall i | 0 <= i < |signed|
      ensures signed[i].factId == ids[i] && IsMark(signed[i], n + i, ids[i], kindFor(ids[i]), request, now)
    {
      OnFactIsMark(n + i, ids[i], kindFor(ids[i]), request, now, signed[i]);
    }
    forall id ensures id in ids <==> exists i :: 0 <= i < |signed| && signed[i].factId == id {}
  }
}
