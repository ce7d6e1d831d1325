/** What folding a fact's events comes to, said of the events themselves: which streams fold, and what state they leave. */
module FoldMeaning {
  import opened Wrappers
  import opened AuthorityLevels
  import opened Text
  import opened FactLog

  predicate IsSupersession(kind: EventKind) { kind.SupersededBy? }

  predicate IsExpiry(kind: EventKind) { kind.ExpiredEvent? }

  predicate IsRetraction(kind: EventKind) { kind.RetractedEvent? }

  predicate IsClosing(kind: EventKind) { IsSupersession(kind) || IsExpiry(kind) || IsRetraction(kind) }

  predicate IsDissent(kind: EventKind) { kind.ContradictedBy? }

  predicate IsAudit(kind: EventKind) { kind.Retrieved? || kind.UsedInDecision? }

  predicate IsBacking(kind: EventKind) { kind.Asserted? || kind.Reinforced? }

  predicate Any(events: Log, kinds: EventKind -> bool) { exists e :: e in events && kinds(e.kind) }

  predicate Tells(events: Log, kind: EventKind) { exists e :: e in events && e.kind == kind }

  predicate IsWellFormed(event: FactEvent)
  {
    && !(event.validFrom.Some? && event.validTo.Some? && event.validTo.value <= event.validFrom.value)
    && !(event.kind.Asserted? && (event.value.None? || |event.evidence| == 0))
    && !(event.kind.Retrieved? && IsBlank(event.kind.purpose))
    && !(event.kind.UsedInDecision? && IsBlank(event.kind.decision))
  }

  // ---- Which streams fold -------------------------------------------------------------

  /** The event may follow these: the assertion comes first and once, and only audits come after a close. */
  predicate FitsAfter(before: Log, event: FactEvent)
  {
    IsWellFormed(event) &&
    if before == [] then event.kind.Asserted?
    else
      var first := before[0];
      && !event.kind.Asserted?
      && event.factId == first.factId && event.subject == first.subject && event.pred == first.pred
      && (Any(before, IsClosing) ==> IsAudit(event.kind))
      && (IsClosing(event.kind) ==> Rank(first.authority) <= Rank(event.authority))
      && (event.kind.ContradictedBy? ==> first.authority != Canonical)
      && (event.kind.Reinforced? && event.value.Some? ==> event.value == first.value)
  }

  predicate IsSoundStream(events: Log)
  {
    forall i :: 0 <= i < |events| ==> FitsAfter(events[..i], events[i])
  }

  /** The fold's answer to an event that does not fit: what is wrong with it, as the first check that fails says. */
  predicate IsWrongWith(before: Log, event: FactEvent, error: TransitionError)
  {
    match error
    case InvalidEvent => !IsWellFormed(event)
    case MissingInitialAssertion => before == [] && !event.kind.Asserted?
    case DuplicateAssertion => before != [] && event.kind.Asserted?
    case FactIdMismatch => before != [] && event.factId != before[0].factId
    case FactShapeMismatch => before != [] && (event.subject != before[0].subject || event.pred != before[0].pred)
    case ReinforcementValueMismatch =>
      before != [] && event.kind.Reinforced? && event.value.Some? && event.value != before[0].value
    case TerminalStateMutation => Any(before, IsClosing) && !IsAudit(event.kind)
    case InsufficientAuthority => before != [] && IsClosing(event.kind) && Rank(event.authority) < Rank(before[0].authority)
    case CanonicalContradiction => before != [] && event.kind.ContradictedBy? && before[0].authority == Canonical
  }

  // ---- What state they leave ----------------------------------------------------------

  /** What the assertion said stays as it was said. */
  predicate KeepsTheAssertion(state: FactState, first: FactEvent)
  {
    && state.factId == first.factId && state.subject == first.subject && state.pred == first.pred
    && Some(state.value) == first.value && state.authority == first.authority
    && state.ttl == first.ttl && state.validFrom == first.validFrom && state.validTo == first.validTo
    && state.createdAt == first.recordedAt
    && state.freshnessAnchor == (if first.validFrom.Some? then first.validFrom.value
                                 else if first.observedAt.Some? then first.observedAt.value
                                 else first.recordedAt)
  }

  predicate IsClosedAsTold(state: FactState, events: Log)
  {
    && (state.lifecycle.Superseded? <==> Any(events, IsSupersession))
    && (state.lifecycle.Expired? <==> Any(events, IsExpiry))
    && (state.lifecycle.Retracted? <==> Any(events, IsRetraction))
    && (state.lifecycle.Contested? <==> Any(events, IsDissent) && !Any(events, IsClosing))
  }

  ghost predicate IsNamedAsTold(state: FactState, events: Log)
  {
    && (forall id :: state.supersededBy == Some(id) <==> Tells(events, SupersededBy(id)))
    && (forall id :: id in state.contradictedBy <==> Tells(events, ContradictedBy(id)))
    && forall i, j :: 0 <= i < j < |state.contradictedBy| ==> state.contradictedBy[i] != state.contradictedBy[j]
  }

  /** `source` backed the fact, in asserting or reinforcing it, at `level` or above. */
  predicate Backed(events: Log, source: string, level: AuthorityLevel)
  {
    exists e :: e in events && IsBacking(e.kind) && e.source == source && Rank(level) <= Rank(e.authority)
  }

  /** A challenge of `source` at `level` or above was recorded as survived. */
  predicate SurvivedChallenge(events: Log, source: string, level: AuthorityLevel)
  {
    exists e :: e in events && e.kind.ChallengeRejected? && e.source == source && Rank(level) <= Rank(e.authority)
  }

  function EvidenceIn(events: Log): nat
  {
    if events == [] then 0
    else
      EvidenceIn(events[..|events| - 1]) +
      if IsBacking(events[|events| - 1].kind) then |events[|events| - 1].evidence| else 0
  }

  ghost predicate HasSupport(state: FactState, events: Log)
  {
    && state.evidenceCount == EvidenceIn(events)
    && (forall source, level :: source in state.corroborating && Rank(level) <= Rank(state.corroborating[source]) <==>
          Backed(events, source, level))
    && (forall source, level :: source in state.survived && Rank(level) <= Rank(state.survived[source]) <==>
          SurvivedChallenge(events, source, level))
  }

  /** The state is what these events say. */
  ghost predicate Means(state: FactState, events: Log)
  {
    && events != []
    && KeepsTheAssertion(state, events[0]) && IsClosedAsTold(state, events) && IsNamedAsTold(state, events) && HasSupport(state, events)
    && state.updatedAt == events[|events| - 1].recordedAt && state.lastEventId == events[|events| - 1].eventId
  }

  // ---- One event more -----------------------------------------------------------------

  lemma AnyGoesOn(before: Log, event: FactEvent, kinds: EventKind -> bool)
    ensures Any(before + [event], kinds) <==> Any(before, kinds) || kinds(event.kind)
  {
    assert forall e :: e in before + [event] <==> e in before || e == event;
  }

  lemma ClosingIsOneOfThree(events: Log)
    ensures Any(events, IsClosing) <==> Any(events, IsSupersession) || Any(events, IsExpiry) || Any(events, IsRetraction)
  {
  }

  lemma TellsGoesOn(before: Log, event: FactEvent, kind: EventKind)
    ensures Tells(before + [event], kind) <==> Tells(before, kind) || event.kind == kind
  {
    assert forall e :: e in before + [event] <==> e in before || e == event;
  }

  lemma BackedGoesOn(before: Log, event: FactEvent, source: string, level: AuthorityLevel)
    ensures Backed(before + [event], source, level) <==>
            Backed(before, source, level) || (IsBacking(event.kind) && event.source == source && Rank(level) <= Rank(event.authority))
  {
    assert forall e :: e in before + [event] <==> e in before || e == event;
  }

  lemma SurvivedGoesOn(before: Log, event: FactEvent, source: string, level: AuthorityLevel)
    ensures SurvivedChallenge(before + [event], source, level) <==>
            || SurvivedChallenge(before, source, level)
            || (event.kind.ChallengeRejected? && event.source == source && Rank(level) <= Rank(event.authority))
  {
    assert forall e :: e in before + [event] <==> e in before || e == event;
  }

  lemma StrengthenedHolds(levels: map<string, AuthorityLevel>, source: string, level: AuthorityLevel, other: string, floor: AuthorityLevel)
    ensures var after := Strengthened(levels, source, level);
            other in after && Rank(floor) <= Rank(after[other]) <==>
            (other in levels && Rank(floor) <= Rank(levels[other])) || (other == source && Rank(floor) <= Rank(level))
  {
  }

  lemma OpensWith(event: FactEvent)
    ensures Apply(None, event).Ok? <==> FitsAfter([], event)
    ensures Apply(None, event).Ok? ==> Means(Apply(None, event).value, [event])
    ensures Apply(None, event).Err? ==> IsWrongWith([], event, Apply(None, event).error)
  {
    hide IsBlank;
    var events := [event];
    assert events[..0] == [] && EvidenceIn(events[..0]) == 0;
    if Apply(None, event).Ok? {
      assert event in events && forall e :: e in events ==> e == event;
    }
  }

  lemma GoesOnIff(state: FactState, before: Log, event: FactEvent)
    requires Means(state, before)
    ensures Apply(Some(state), event).Ok? <==> FitsAfter(before, event)
    ensures Apply(Some(state), event).Err? ==> IsWrongWith(before, event, Apply(Some(state), event).error)
  {
    hide IsBlank, HasSupport, IsNamedAsTold, Any;
    ClosingIsOneOfThree(before);
  }

  lemma ClosingGoesOn(state: FactState, before: Log, event: FactEvent)
    requires IsClosedAsTold(state, before) && Apply(Some(state), event).Ok?
    ensures IsClosedAsTold(Apply(Some(state), event).value, before + [event])
  {
    hide IsBlank, Any, Strengthened, AtMost;
    ClosingIsOneOfThree(before);
    AnyGoesOn(before, event, IsSupersession);
    AnyGoesOn(before, event, IsExpiry);
    AnyGoesOn(before, event, IsRetraction);
    AnyGoesOn(before, event, IsClosing);
    AnyGoesOn(before, event, IsDissent);
  }

  /** What an event makes of the names a fact carries. */
  lemma NamingStep(state: FactState, event: FactEvent)
    requires Apply(Some(state), event).Ok?
    ensures var next := Apply(Some(state), event).value;
            && (event.kind.SupersededBy? ==> !state.lifecycle.IsTerminal())
            && next.supersededBy == (if event.kind.SupersededBy? then Some(event.kind.successor) else state.supersededBy)
            && next.contradictedBy ==
                 (if event.kind.ContradictedBy? && event.kind.rival !in state.contradictedBy
                  then state.contradictedBy + [event.kind.rival] else state.contradictedBy)
  {
    hide IsValid, Strengthened, AtMost;
  }

  /** A fact that names its successor is closed, so that it gets no second one. */
  lemma NamingGoesOn(state: FactState, before: Log, event: FactEvent)
    requires IsNamedAsTold(state, before) && (state.supersededBy.Some? ==> state.lifecycle.IsTerminal())
    requires Apply(Some(state), event).Ok?
    ensures IsNamedAsTold(Apply(Some(state), event).value, before + [event])
  {
    hide Apply, Tells;
    NamingStep(state, event);
    forall kind ensures Tells(before + [event], kind) <==> Tells(before, kind) || event.kind == kind
    {
      TellsGoesOn(before, event, kind);
    }
  }

  /** What an event adds to the counted evidence, the backers and the survived challenges. */
  lemma SupportStep(state: FactState, event: FactEvent)
    requires Apply(Some(state), event).Ok?
    ensures var next := Apply(Some(state), event).value;
            && !event.kind.Asserted?
            && next.evidenceCount == state.evidenceCount + (if event.kind.Reinforced? then |event.evidence| else 0)
            && next.corroborating ==
                 (if event.kind.Reinforced? then Strengthened(state.corroborating, event.source, event.authority) else state.corroborating)
            && next.survived ==
                 (if event.kind.ChallengeRejected? then Strengthened(state.survived, event.source, event.authority) else state.survived)
  {
    hide IsBlank, Strengthened, AtMost;
  }

  lemma SupportGoesOn(state: FactState, before: Log, event: FactEvent)
    requires HasSupport(state, before) && Apply(Some(state), event).Ok?
    ensures HasSupport(Apply(Some(state), event).value, before + [event])
  {
    hide Apply, Strengthened, Backed, SurvivedChallenge, Rank;
    SupportStep(state, event);
    var next, events := Apply(Some(state), event).value, before + [event];
    assert events[..|events| - 1] == before;
    forall source, level
      ensures source in next.corroborating && Rank(level) <= Rank(next.corroborating[source]) <==> Backed(events, source, level)
      ensures source in next.survived && Rank(level) <= Rank(next.survived[source]) <==> SurvivedChallenge(events, source, level)
    {
      StrengthenedHolds(state.corroborating, event.source, event.authority, source, level);
      StrengthenedHolds(state.survived, event.source, event.authority, source, level);
      BackedGoesOn(before, event, source, level);
      SurvivedGoesOn(before, event, source, level);
    }
  }

  lemma AssertionStep(state: FactState, first: FactEvent, event: FactEvent)
    requires Apply(Some(state), event).Ok? && KeepsTheAssertion(state, first)
    ensures var next := Apply(Some(state), event).value;
            KeepsTheAssertion(next, first) && next.updatedAt == event.recordedAt && next.lastEventId == event.eventId
  {
    hide IsValid, Strengthened, AtMost, FactLifecycle.IsTerminal;
  }

  lemma MeaningGoesOn(state: FactState, before: Log, event: FactEvent)
    requires Means(state, before) && Apply(Some(state), event).Ok?
    ensures Means(Apply(Some(state), event).value, before + [event])
  {
    hide Apply, KeepsTheAssertion, HasSupport;
    ClosingGoesOn(state, before, event);
    NamedIsClosed(state, before);
    NamingGoesOn(state, before, event);
    SupportGoesOn(state, before, event);
    AssertionStep(state, before[0], event);
    hide IsClosedAsTold, IsNamedAsTold;
    assert (before + [event])[0] == before[0];
  }

  lemma NamedIsClosed(state: FactState, events: Log)
    requires IsClosedAsTold(state, events) && IsNamedAsTold(state, events)
    ensures state.supersededBy.Some? ==> state.lifecycle.IsTerminal()
  {
    if state.supersededBy.Some? {
      assert Tells(events, SupersededBy(state.supersededBy.value));
      var e :| e in events && e.kind == SupersededBy(state.supersededBy.value);
      assert IsSupersession(e.kind);
    }
  }

  // ---- Whole streams ------------------------------------------------------------------

  lemma SoundUpTo(events: Log)
    requires events != []
    ensures IsSoundStream(events) <==>
            IsSoundStream(events[..|events| - 1]) && FitsAfter(events[..|events| - 1], events[|events| - 1])
  {
    hide FitsAfter;
    var n := |events| - 1;
    assert forall i :: 0 <= i < n ==> events[..n][..i] == events[..i] && events[..n][i] == events[i];
  }

  /** A stream folds exactly when each event fits what came before it, and the state it leaves is what its events say. */
  lemma {:induction false} StreamFoldsIff(events: Log)
    ensures ReplayFact(events).Ok? <==> IsSoundStream(events)
    ensures ReplayFact(events).Ok? ==>
              match ReplayFact(events).value
              case None => events == []
              case Some(state) => Means(state, events)
  {
    hide Apply, Means, FitsAfter, IsSoundStream;
    if events == [] {
      assert IsSoundStream(events) by { NothingIsSound(); }
    } else {
      var n := |events| - 1;
      StreamFoldsIff(events[..n]);
      SoundUpTo(events);
      assert events == events[..n] + [events[n]];
      var before := ReplayFact(events[..n]);
      if before.Ok? {
        if before.value.None? {
          OpensWith(events[n]);
          assert events == [events[n]];
        } else {
          GoesOnIff(before.value.value, events[..n], events[n]);
          if Apply(before.value, events[n]).Ok? { MeaningGoesOn(before.value.value, events[..n], events[n]); }
        }
      }
    }
  }

  lemma NothingIsSound()
    ensures IsSoundStream([]) && AllStreamsSound([])
  {
  }

  /** The lifetime that the TTL gives the fact is over; one that ends past what 64 bits can name never is. */
  predicate LifetimeIsOver(ttl: Ttl, anchor: int, at: int)
  {
    match ttl
    case Never => false
    case ExpiresAt(end) => end <= at
    case DurationMillis(millis) =>
      millis <= 0x7FFF_FFFF_FFFF_FFFF && anchor + millis <= 0x7FFF_FFFF_FFFF_FFFF && anchor + millis <= at
  }

  /** Whatever has happened to it since, a fact is stale from the earlier of its end of validity and the end of its lifetime on. */
  lemma GoesStaleAsAsserted(state: FactState, events: Log, at: int)
    requires Means(state, events)
    ensures var first := events[0];
            var anchor := if first.validFrom.Some? then first.validFrom.value
                          else if first.observedAt.Some? then first.observedAt.value
                          else first.recordedAt;
            state.IsExpiredAt(at) <==>
              (first.validTo.Some? && first.validTo.value <= at) || LifetimeIsOver(first.ttl, anchor, at)
  {
    hide IsClosedAsTold, IsNamedAsTold, HasSupport;
  }

  // ---- Whole logs ---------------------------------------------------------------------

  /** In a replayed log, the state of each fact is what the events on that fact say. */
  lemma ReplayMeansTheEvents(log: Log, id: string)
    requires Replay(log).Ok? && id in Replay(log).value
    ensures Means(Replay(log).value[id], StreamOf(log, id))
  {
    hide Replay, ReplayFact, Means;
    ReplayIsPerFact(log, id);
    StreamFoldsIff(StreamOf(log, id));
  }

  lemma {:induction false} StreamHoldsItsEvents(log: Log, id: string)
    ensures forall e :: e in StreamOf(log, id) <==> e in log && e.factId == id
  {
    if log != [] {
      var n := |log| - 1;
      StreamHoldsItsEvents(log[..n], id);
      assert log == log[..n] + [log[n]];
    }
  }

  ghost predicate AllStreamsSound(log: Log) { forall id :: IsSoundStream(StreamOf(log, id)) }

  /** A log replays exactly when the stream of every fact is sound. */
  lemma {:induction false} LogReplaysIff(log: Log)
    ensures Replay(log).Ok? <==> AllStreamsSound(log)
  {
    hide Apply, FitsAfter, IsSoundStream, AllStreamsSound;
    if log == [] {
      NothingIsSound();
    } else {
      var n := |log| - 1;
      var front, last := log[..n], log[n];
      LogReplaysIff(front);
      SoundnessGrows(log, front, last);
      if Replay(front).Ok? {
        ReplayIsPerFact(front, last.factId);
        StreamFoldsIff(StreamOf(log, last.factId));
        StreamGrows(log);
      }
    }
  }

  /** All streams of a log are sound when those before its last event were and the one it joins still is. */
  lemma SoundnessGrows(log: Log, front: Log, last: FactEvent)
    requires log == front + [last]
    ensures AllStreamsSound(log) <==> AllStreamsSound(front) && IsSoundStream(StreamOf(log, last.factId))
  {
    hide FitsAfter, IsSoundStream;
    StreamGrows(log);
    assert log[..|log| - 1] == front;
    forall id ensures IsSoundStream(StreamOf(log, id)) ==> IsSoundStream(StreamOf(front, id))
              ensures id != last.factId ==> StreamOf(log, id) == StreamOf(front, id)
    {
    }
  }

  lemma StreamGrows(log: Log)
    requires log != []
    ensures var front, last := log[..|log| - 1], log[|log| - 1];
            && StreamOf(log, last.factId) == StreamOf(front, last.factId) + [last]
            && (IsSoundStream(StreamOf(log, last.factId)) ==> IsSoundStream(StreamOf(front, last.factId)))
            && (ReplayFact(StreamOf(front, last.factId)).Ok? ==>
                  (ReplayFact(StreamOf(log, last.factId)).Ok? <==>
                   Apply(ReplayFact(StreamOf(front, last.factId)).value, last).Ok?))
  {
    hide Apply, FitsAfter, IsSoundStream;
    var front, last := log[..|log| - 1], log[|log| - 1];
    var stream := StreamOf(front, last.factId);
    SoundUpTo(stream + [last]);
    assert (stream + [last])[..|stream|] == stream;
  }
}
