/**
 Whole runs: from the empty log, through any operations at non-decreasing times, admitted or refused,
 the log stays lawful and balanced; and exactly when such a log fails to reload.
 */
module Runs {
  import opened Wrappers
  import opened EventIds
  import opened FactLog
  import opened FactIndex
  import opened Policies
  import opened Reload
  import opened Identity
  import opened Ops
  import opened Batches
  import opened OpEffects
  import opened LogInvariants

  /** What is kept: the log is lawful, its beliefs are balanced at the clock, and contests name no fact twice. */
  ghost predicate WellKept(log: Log, clock: int)
  {
    Lawful(log) && NamedOnce(Replay(log).value) && Balanced(Replay(log).value, clock)
  }

  lemma WellKeptIsLawful(log: Log, clock: int)
    requires WellKept(log, clock)
    ensures Lawful(log)
  {
  }

  // ---- One commit ---------------------------------------------------------------------

  /** A batch that went through, once signed and persisted, leaves the view the store computed. */
  lemma PersistedBatch(log: Log, store: Store, events: Log, signed: Log)
    requires Replay(log) == Ok(store.view) && store.log == log
    requires AppendAll(store, events).AllApplied? && SameContent(events, signed)
    ensures Replay(log + signed) == Ok(AppendAll(store, events).store.view)
    ensures NumberedFrom(events, |log|) ==> NumberedFrom(signed, |log|)
    ensures events != [] ==> signed != [] && signed[0].factId == events[0].factId
  {
    hide Replay, AppendAll, EventId;
    AppendedStoreIsTheFold(store, events);
    SignedSuffixReplays(log, events, signed);
  }

  /** A persisted batch whose view evolves and stays balanced keeps the log well kept. */
  lemma CommitKeeps(log: Log, store: Store, events: Log, signed: Log, newborn: Option<string>, clock: int)
    requires Lawful(log) && store == Store(log, Replay(log).value)
    requires AppendAll(store, events).AllApplied? && SameContent(events, signed) && NumberedFrom(events, |log|)
    requires Balanced(AppendAll(store, events).store.view, clock) && NamedOnce(AppendAll(store, events).store.view)
    requires Evolves(store.view, AppendAll(store, events).store.view, newborn)
    requires newborn.Some? ==>
               var state := AppendAll(store, events).store.view[newborn.value];
               && events != [] && events[0].factId == newborn.value
               && newborn.value == FactId(state.subject.kind, state.subject.key, state.pred, |log|)
    ensures WellKept(log + signed, clock)
  {
    hide Replay, AppendAll, NumberedFrom, Numbered, Evolves, Balanced, NamedOnce, FactId, WellBorn;
    PersistedBatch(log, store, events, signed);
    LawfulStep(log, signed, newborn);
  }

  // ---- The records of survived challenges ---------------------------------------------

  lemma RecordKeepsStanding(store: Store, record: FactEvent)
    requires record.kind.ChallengeRejected? && Append(store, record).Ok?
    ensures KeepsStanding(store.view, Append(store, record).value.view)
    ensures record.factId in store.view
    ensures HasSurvived(store.view[record.factId], Append(store, record).value.view[record.factId], record.source, record.authority)
    ensures forall id :: id in store.view && id != record.factId ==> Append(store, record).value.view[id] == store.view[id]
  {
    StrengthenedIsRaised(store.view[record.factId].survived, record.source, record.authority);
    hide Strengthened, IsRaised;
    forall id | id in store.view ensures SameStanding(store.view[id], Append(store, record).value.view[id])
    {
      StandingIsReflexive(store.view[id]);
    }
  }

  lemma OneAppend(store: Store, event: FactEvent)
    requires Append(store, event).Ok?
    ensures AppendAll(store, [event]) == AllApplied(Append(store, event).value)
  {
    hide Append;
    assert [event][1..] == [];
    assert AppendAll(Append(store, event).value, []) == AllApplied(Append(store, event).value);
  }

  /**
   A log is extended by at most one event, a challenge record; the fact it is on has survived that challenge, and
   no other fact changes at all.
   */
  ghost predicate OnlyRecords(log: Log, after: Log)
  {
    || after == log
    || (&& |after| == |log| + 1 && after[..|log|] == log && after[|log|].kind.ChallengeRejected?
        && Replay(log).Ok? && Replay(after).Ok? && after[|log|].factId in Replay(log).value
        && KeepsStanding(Replay(log).value, Replay(after).value)
        && HasSurvived(Replay(log).value[after[|log|].factId], Replay(after).value[after[|log|].factId],
                       after[|log|].source, after[|log|].authority)
        && forall id :: id in Replay(log).value && id != after[|log|].factId ==> Replay(after).value[id] == Replay(log).value[id])
  }

  lemma RecordingOnlyRecords(env: Env, log: Log, challenge: Challenge)
    requires Replay(log).Ok?
    ensures OnlyRecords(log, PersistChallengeRecord(env, log, challenge))
    ensures var after := PersistChallengeRecord(env, log, challenge);
            after != log ==> after[|log|].factId == challenge.incumbent && after[|log|].authority == challenge.effective
                             && after[|log|].source == challenge.source && after[|log|].eventId == EventId(NextSeq(log))
  {
    hide Replay, Append, AttestAll, KeepsStanding, IsSound, NextSeq, EventId, DistinctIds;
    var store := Load(log, env.at.reload);
    if store.Some? {
      var record := ChallengeRecord(NextSeq(log), challenge, env.at.record);
      var admitted, attested := Append(store.value, record), AttestAll(env.keys, env.ctx, [record]);
      if admitted.Ok? && attested.Ok? {
        var signed := attested.value.events;
        RecordKeepsStanding(store.value, record);
        OneAppend(store.value, record);
        PersistedBatch(log, store.value, [record], signed);
        assert signed == [signed[0]] && (log + signed)[|log|] == signed[0] && (log + signed)[..|log|] == log;
      }
    }
  }

  lemma RecordingKeepsWell(env: Env, log: Log, challenge: Challenge, clock: int)
    requires WellKept(log, clock)
    ensures WellKept(PersistChallengeRecord(env, log, challenge), clock)
  {
    hide Replay, KeepsStanding, Evolves, Balanced, NamedOnce, NumberedFrom, NextSeq, EventId, PersistChallengeRecord, WellBorn;
    var after := PersistChallengeRecord(env, log, challenge);
    RecordingOnlyRecords(env, log, challenge);
    if after != log {
      NextSeqOfNumbered(log);
      StandingKeepsBalance(Replay(log).value, Replay(after).value, clock);
      StandingKeepsNames(Replay(log).value, Replay(after).value);
      var record := after[|log|..];
      assert log + record == after;
      OneIsNumbered(record, |log|);
      LawfulStep(log, record, None);
    }
  }

  lemma OneIsNumbered(events: Log, n: nat)
    requires |events| == 1 && events[0].eventId == EventId(n)
    ensures NumberedFrom(events, n)
  {
    hide EventId;
  }

  // ---- One operation ------------------------------------------------------------------

  lemma AssertionCommitKeeps(env: Env, log: Log, store: Store, request: Request, value: string, validity: Validity, clock: int)
    requires WellKept(log, clock) && store == Store(log, Replay(log).value) && clock <= env.at.decide
    requires DecideAssertion(env, store, request, value, validity).Attempt?
    requires Commit(env, log, store, DecideAssertion(env, store, request, value, validity).events).result.Ok?
    ensures WellKept(Commit(env, log, store, DecideAssertion(env, store, request, value, validity).events).log, env.at.decide)
  {
    hide Replay, Append, AttestAll, EnforcePolicy, Balanced, NamedOnce, NumberedFrom, NextSeq, EventId, FactId, AssertedFact, Evolves, WellBorn, HasEventId, IsValid;
    hide Adds;
    MintedFactIsFresh(log, request);
    var minted := AssertedFact(store, request, value, validity, env.at.decide);
    AssertedFactIsAnAssertion(store, request, value, validity, env.at.decide);
    var events := DecideAssertion(env, store, request, value, validity).events;
    var event := events[0];
    assert event == minted.(attestation := event.attestation) && events == [event];
    MintedIdsAreFresh(log, NextSeq(log));
    OpeningEffect(store, event);
    SingleCommit(store, event);
    OneIsNumbered(events, |log|);
    var after := AppendAll(store, events).store.view;
    BalanceSurvivesTime(store.view, clock, env.at.decide);
    AssertionKeepsBalance(store.view, after, event, env.at.decide);
    AssertionKeepsNames(store.view, after, event.factId, event);
    NewbornOf(store.view, after, event.factId, event);
    CommitKeeps(log, store, events, AttestAll(env.keys, env.ctx, events).value.events, Some(event.factId), env.at.decide);
  }

  lemma SingleCommit(store: Store, event: FactEvent)
    requires AppendAll(store, [event]).AllApplied?
    ensures Append(store, event).Ok? && AppendAll(store, [event]).store == Append(store, event).value
  {
    hide Append;
    if Append(store, event).Ok? { OneAppend(store, event); }
  }

  lemma NewbornOf(before: Projection, after: Projection, fact: string, event: FactEvent)
    requires Adds(before, after, fact, event)
    ensures fact in after && after[fact].subject == event.subject && after[fact].pred == event.pred
  {
  }

  lemma SupersessionCommitKeeps(env: Env, log: Log, store: Store, request: Request, value: string, validity: Validity, clock: int)
    requires WellKept(log, clock) && store == Store(log, Replay(log).value)
    requires DecideSupersession(env, store, request, value, validity).Attempt?
    requires Commit(env, log, store, DecideSupersession(env, store, request, value, validity).events).result.Ok?
    ensures WellKept(Commit(env, log, store, DecideSupersession(env, store, request, value, validity).events).log, clock)
  {
    hide Replay, AppendAll, AttestAll, Balanced, NamedOnce, NumberedFrom, NextSeq, EventId, FactId, NewFact, Evolves, WellBorn, IsValid;
    hide Replaces, BuildRevision, BelievedFactIds, FirstOutEntrenching;
    MintedFactIsFresh(log, request);
    var ids := BelievedFactIds(store, request.subject, request.pred);
    var replacement := NewFact(|log|, request, value, validity, env.at.decide);
    NewFactIsAnAssertion(|log|, request, value, validity, env.at.decide);
    RevisionEffect(store, request, value, validity, env.at.decide);
    RevisionIsNumbered(|log|, ids, request, value, validity, env.at.decide);
    var events := BuildRevision(|log|, ids, request, value, validity, env.at.decide);
    var after := AppendAll(store, events).store.view;
    RevisionKeepsBalance(store.view, after, request.subject, request.pred, replacement.factId, replacement, clock);
    RevisionKeepsNames(store.view, after, request.subject, request.pred, replacement.factId, replacement);
    ReplacementOf(store.view, after, request.subject, request.pred, replacement.factId, replacement);
    CommitKeeps(log, store, events, AttestAll(env.keys, env.ctx, events).value.events, Some(replacement.factId), clock);
  }

  lemma RevisionIsNumbered(n: nat, ids: seq<string>, request: Request, value: string, validity: Validity, now: int)
    ensures var events := BuildRevision(n, ids, request, value, validity, now);
            && NumberedFrom(events, n) && events != [] && events[0] == NewFact(n, request, value, validity, now)
            && |events| == |ids| + 1
  {
    hide EventId, NewFact;
    NewFactIsAnAssertion(n, request, value, validity, now);
    var events := BuildRevision(n, ids, request, value, validity, now);
    forall i | 0 <= i < |events| ensures events[i].eventId == EventId(n + i)
    {
      if 0 < i {
        PerIncumbentIsNumbered(n + 1, ids, _ => SupersededBy(events[0].factId), request, now);
        assert events[i].eventId == EventId(n + 1 + (i - 1));
        assert n + 1 + (i - 1) == n + i;
      }
    }
  }

  lemma ReplacementOf(before: Projection, after: Projection, subject: Subject, pred: string, fact: string, event: FactEvent)
    requires Replaces(before, after, subject, pred, fact, event)
    ensures fact in after && after[fact].subject == event.subject && after[fact].pred == event.pred
  {
  }

  lemma ContradictionCommitKeeps(env: Env, log: Log, store: Store, request: Request, value: string, validity: Validity, clock: int)
    requires WellKept(log, clock) && store == Store(log, Replay(log).value) && clock <= env.at.decide
    requires DecideContradiction(env, store, request, value, validity).Attempt?
    requires Commit(env, log, store, DecideContradiction(env, store, request, value, validity).events).result.Ok?
    ensures WellKept(Commit(env, log, store, DecideContradiction(env, store, request, value, validity).events).log, env.at.decide)
  {
    hide Replay, AppendAll, AttestAll, Balanced, NamedOnce, NumberedFrom, NextSeq, EventId, FactId, NewFact, Evolves, WellBorn, IsValid;
    hide Contests, BuildContradiction, ExplainSubject, Fresh;
    MintedFactIsFresh(log, request);
    ExplainedFactIsPreferred(store, request.subject, request.pred, env.at.decide);
    var incumbent := ExplainSubject(store, request.subject, request.pred, env.at.decide).value;
    ExplainedIsFreshWhereAnyIs(store.view, request.subject, request.pred, env.at.decide, incumbent);
    var opposing := NewFact(|log|, request, value, validity, env.at.decide);
    NewFactIsAnAssertion(|log|, request, value, validity, env.at.decide);
    ContradictionEffect(store, incumbent, request, value, validity, env.at.decide);
    ContradictionIsNumbered(|log|, incumbent, request, value, validity, env.at.decide);
    var events := BuildContradiction(|log|, incumbent, request, value, validity, env.at.decide);
    var after := AppendAll(store, events).store.view;
    BalanceSurvivesTime(store.view, clock, env.at.decide);
    ContradictionKeepsBalance(store.view, after, incumbent, opposing.factId, opposing, env.at.decide);
    ContradictionKeepsNames(store.view, after, incumbent, opposing.factId, opposing);
    RivalOf(store.view, after, incumbent, opposing.factId, opposing);
    CommitKeeps(log, store, events, AttestAll(env.keys, env.ctx, events).value.events, Some(opposing.factId), env.at.decide);
  }

  lemma ContradictionIsNumbered(n: nat, incumbent: string, request: Request, value: string, validity: Validity, now: int)
    ensures var events := BuildContradiction(n, incumbent, request, value, validity, now);
            NumberedFrom(events, n) && events != [] && events[0] == NewFact(n, request, value, validity, now)
  {
    hide EventId, NewFact;
    NewFactIsAnAssertion(n, request, value, validity, now);
  }

  lemma RivalOf(before: Projection, after: Projection, incumbent: string, fact: string, event: FactEvent)
    requires Contests(before, after, incumbent, fact, event)
    ensures fact in after && after[fact].subject == event.subject && after[fact].pred == event.pred
  {
  }

  lemma PerIncumbentCommitKeeps(env: Env, log: Log, store: Store, request: Request, clock: int)
    requires WellKept(log, clock) && store == Store(log, Replay(log).value)
    requires IsPerIncumbent(request.op) && DecidePerIncumbent(env, store, request).Attempt?
    requires Commit(env, log, store, DecidePerIncumbent(env, store, request).events).result.Ok?
    ensures WellKept(Commit(env, log, store, DecidePerIncumbent(env, store, request).events).log, clock)
  {
    hide Replay, AppendAll, AttestAll, Balanced, NamedOnce, NumberedFrom, NextSeq, EventId, Evolves, WellBorn, Closes, KeepsStanding, BuildPerIncumbent, BelievedFactIds;
    MintedFactIsFresh(log, request);
    var events := PerIncumbentEvents(store, request, env.at.decide);
    PerIncumbentIsNumbered(|log|, BelievedFactIds(store, request.subject, request.pred),
                           incumbent => IncumbentKind(request.op, incumbent), request, env.at.decide);
    var after := AppendAll(store, events).store.view;
    if request.op.Retract? || request.op.Expire? {
      ClosingEffect(store, request, env.at.decide);
      ClosingKeepsBalance(store.view, after, request.subject, request.pred, clock);
      ClosingKeepsNames(store.view, after, request.subject, request.pred);
    } else {
      SupportEffect(store, request, env.at.decide);
      StandingKeepsBalance(store.view, after, clock);
      StandingKeepsNames(store.view, after);
    }
    CommitKeeps(log, store, events, AttestAll(env.keys, env.ctx, events).value.events, None, clock);
  }

  lemma PerIncumbentIsNumbered(n: nat, ids: seq<string>, kindFor: string -> EventKind, request: Request, now: int)
    ensures NumberedFrom(BuildPerIncumbent(n, ids, kindFor, request, now), n)
  {
    hide EventId;
  }

  lemma CommittedAttemptKeeps(env: Env, log: Log, store: Store, request: Request, clock: int)
    requires WellKept(log, clock) && store == Store(log, Replay(log).value) && clock <= env.at.decide
    requires Decide(env, store, request).Attempt? && Commit(env, log, store, Decide(env, store, request).events).result.Ok?
    ensures WellKept(Commit(env, log, store, Decide(env, store, request).events).log, env.at.decide)
  {
    hide Commit, DecideAssertion, DecideSupersession, DecideContradiction, DecidePerIncumbent, Lawful, Replay, BelievedFactIds;
    match request.op
    case Assert(value, validity) => AssertionCommitKeeps(env, log, store, request, value, validity, clock);
    case Derive(value, validity, _, _) => AssertionCommitKeeps(env, log, store, request, value, validity, clock);
    case Supersede(value, validity) =>
      SupersessionCommitKeeps(env, log, store, request, value, validity, clock);
      WellKeptSurvivesTime(Commit(env, log, store, Decide(env, store, request).events).log, clock, env.at.decide);
    case Contradict(value, validity) => ContradictionCommitKeeps(env, log, store, request, value, validity, clock);
    case _ =>
      PerIncumbentCommitKeeps(env, log, store, request, clock);
      WellKeptSurvivesTime(Commit(env, log, store, Decide(env, store, request).events).log, clock, env.at.decide);
  }

  lemma WellKeptSurvivesTime(log: Log, clock: int, later: int)
    requires WellKept(log, clock) && clock <= later
    ensures WellKept(log, later)
  {
    hide Replay, WellBorn, Numbered, NamedOnce, Balanced;
    BalanceSurvivesTime(Replay(log).value, clock, later);
  }

  lemma RefusedCommitKeeps(env: Env, log: Log, store: Store, events: Log, clock: int)
    requires WellKept(log, clock) && Commit(env, log, store, events).result.Err?
    ensures WellKept(Commit(env, log, store, events).log, clock)
  {
    hide WellKept, AppendAll, AttestAll, PersistChallengeRecord, ClassifyChallenge;
    var applied := AppendAll(store, events);
    if applied.Stopped? {
      var challenge := ClassifyChallenge(applied.event, applied.error);
      if challenge.Some? { RecordingKeepsWell(env, log, challenge.value, clock); }
    }
  }

  /** Every operation, admitted or refused, keeps the log well kept. */
  lemma RunKeepsLogWellKept(env: Env, log: Log, request: Request, clock: int)
    requires WellKept(log, clock) && clock <= env.at.gate && env.at.InOrder()
    ensures WellKept(Run(env, log, request).log, env.at.decide)
  {
    hide Lawful, Balanced, NamedOnce, Replay, Gate, Decide, Commit, PersistChallengeRecord, IsSound, WellKept;
    WellKeptSurvivesTime(log, clock, env.at.decide);
    var store := Load(log, env.at.load);
    if store.Some? {
      match Decide(env, store.value, request)
      case Refuse(_) =>
      case RefuseUnearned(incumbent, challenger) =>
        RecordingKeepsWell(env, log, Challenge(incumbent, request.subject, request.pred, Supersession, Some(challenger),
                                               WeakerEntrenchment, request.source, request.authority), env.at.decide);
      case Attempt(events) =>
        if Commit(env, log, store.value, events).result.Ok? {
          CommittedAttemptKeeps(env, log, store.value, request, clock);
        } else {
          RefusedCommitKeeps(env, log, store.value, events, env.at.decide);
        }
    }
  }

  // ---- Runs ---------------------------------------------------------------------------

  datatype Turn = Turn(env: Env, request: Request)

  /** The clocks never run backwards. */
  predicate Timely(turns: seq<Turn>, clock: int)
  {
    turns == [] || (clock <= turns[0].env.at.gate && turns[0].env.at.InOrder() && Timely(turns[1..], turns[0].env.at.record))
  }

  ghost function RunAll(log: Log, turns: seq<Turn>): Log
    decreases |turns|
  {
    if turns == [] then log else RunAll(Run(turns[0].env, log, turns[0].request).log, turns[1..])
  }

  function LastClock(turns: seq<Turn>, clock: int): int
  {
    if turns == [] then clock else turns[|turns| - 1].env.at.record
  }

  lemma {:induction false} RunsKeepLogsWellKept(log: Log, turns: seq<Turn>, clock: int)
    requires WellKept(log, clock) && Timely(turns, clock)
    ensures WellKept(RunAll(log, turns), LastClock(turns, clock))
    decreases |turns|
  {
    hide WellKept, Run;
    if turns != [] {
      var turn := turns[0];
      RunKeepsLogWellKept(turn.env, log, turn.request, clock);
      WellKeptSurvivesTime(Run(turn.env, log, turn.request).log, turn.env.at.decide, turn.env.at.record);
      RunsKeepLogsWellKept(Run(turn.env, log, turn.request).log, turns[1..], turn.env.at.record);
    }
  }

  lemma EmptyLogIsWellKept(clock: int)
    ensures WellKept([], clock)
  {
    assert Replay([]) == Ok(map[]);
  }

  /** Any run of the operations from the empty log keeps it lawful and balanced. */
  lemma EveryReachableLogIsWellKept(turns: seq<Turn>, clock: int)
    requires Timely(turns, clock)
    ensures WellKept(RunAll([], turns), LastClock(turns, clock))
  {
    hide WellKept, RunAll;
    EmptyLogIsWellKept(clock);
    RunsKeepLogsWellKept([], turns, clock);
  }

  // ---- Reloading ----------------------------------------------------------------------

  lemma {:induction false} SuccessorsAreBornLater(log: Log, view: Projection, id: string, k: nat)
    requires forall x :: x in view ==> WellBorn(log, view, x)
    requires id in view && 0 < k && Follow(view, id, k).Some?
    ensures Follow(view, id, k).value in view && Born(log, id) < Born(log, Follow(view, id, k).value)
    decreases k
  {
    hide Born, FactId;
    assert WellBorn(log, view, id);
    if 1 < k { SuccessorsAreBornLater(log, view, Successor(view, id).value, k - 1); }
    else { assert Follow(view, Successor(view, id).value, 0) == Successor(view, id); }
  }

  /** No supersession of a lawful log dangles or runs in a circle. */
  lemma LawfulLineageIsSound(log: Log, id: string)
    requires Lawful(log) && id in Replay(log).value
    ensures !OnCycle(Replay(log).value, id) && !Dangles(Replay(log).value, id)
  {
    hide Replay, Numbered, Born, FactId, Follow;
    var view := Replay(log).value;
    assert WellBorn(log, view, id);
    if OnCycle(view, id) {
      var k: nat :| 0 < k && Follow(view, id, k) == Some(id);
      SuccessorsAreBornLater(log, view, id, k);
    }
  }

  /** `h`, contested by `a`, has gone stale, while `a` is a fresh uncontested belief with a fresh rival `b`. */
  ghost predicate ContestWentStale(view: Projection, h: string, a: string, b: string, now: int)
  {
    && NamedByContest(view, h, a) && view[h].IsExpiredAt(now)
    && Rivals(view, a, b, now) && !view[a].lifecycle.Contested?
  }

  /** A well-kept log reloads unless a contest has gone stale under two beliefs still fresh. */
  lemma ReloadFailsIffAContestWentStale(log: Log, clock: int, now: int)
    requires WellKept(log, clock) && clock <= now
    ensures Load(log, now) == None <==> exists h, a, b :: ContestWentStale(Replay(log).value, h, a, b, now)
    ensures Load(log, now).Some? ==> Load(log, now) == Some(Store(log, Replay(log).value))
  {
    hide Replay, Load, WellBorn, Numbered, OnCycle, Dangles, IsSound, ContestWentStale, Balanced, NamedOnce;
    NumberedIdsAreDistinct(log);
    LoadChecksSoundness(log, now);
    forall id | id in Replay(log).value ensures !OnCycle(Replay(log).value, id) && !Dangles(Replay(log).value, id) {
      LawfulLineageIsSound(log, id);
    }
    UnsoundIffAContestWentStale(Replay(log).value, clock, now);
  }

  lemma LoadChecksSoundness(log: Log, now: int)
    requires DistinctIds(log) && Replay(log).Ok?
    ensures Load(log, now) == if IsSound(Replay(log).value, now) then Some(Store(log, Replay(log).value)) else None
  {
    hide Replay, DistinctIds, IsSound;
  }

  lemma UnsoundIffAContestWentStale(view: Projection, clock: int, now: int)
    requires Balanced(view, clock) && NamedOnce(view) && clock <= now
    requires forall id :: id in view ==> !OnCycle(view, id) && !Dangles(view, id)
    ensures !IsSound(view, now) <==> exists h, a, b :: ContestWentStale(view, h, a, b, now)
  {
    hide OnCycle, Dangles, IsSilentDuplicate, ContestWentStale, Balanced, NamedOnce;
    if !IsSound(view, now) {
      var a :| a in view && IsSilentDuplicate(view, a, now);
      var h, b := SilentDuplicateHasAStaleContest(view, clock, now, a);
    }
    if h, a, b :| ContestWentStale(view, h, a, b, now) {
      StaleContestLeavesASilentDuplicate(view, h, a, b, now);
    }
  }

  lemma StaleContestLeavesASilentDuplicate(view: Projection, h: string, a: string, b: string, now: int)
    requires ContestWentStale(view, h, a, b, now) && NamedOnce(view)
    ensures a in view && IsSilentDuplicate(view, a, now)
  {
    hide Believes, FactState.IsExpiredAt;
    assert HasFreshOther(view, view[a].subject, view[a].pred, a, now);
  }

  lemma SilentDuplicateHasAStaleContest(view: Projection, clock: int, now: int, a: string) returns (h: string, b: string)
    requires Balanced(view, clock) && clock <= now && IsSilentDuplicate(view, a, now)
    ensures ContestWentStale(view, h, a, b, now)
  {
    hide FactState.IsExpiredAt;
    b :| b in view && b != a && FreshBelief(view, view[a].subject, view[a].pred, b, now);
    BalanceSurvivesTime(view, clock, now);
    assert Rivals(view, a, b, now);
    h :| NamedByContest(view, h, a);
    assert !NamedByFreshContest(view, view[a].subject, view[a].pred, a, now);
    assert !FreshBelief(view, view[a].subject, view[a].pred, h, now);
  }

  /** Put plainly: if no contested belief about a unique predicate has expired, the log reloads. */
  lemma ReloadSucceedsWithoutStaleContests(log: Log, clock: int, now: int)
    requires WellKept(log, clock) && clock <= now
    requires forall h :: h in Replay(log).value && Replay(log).value[h].lifecycle.Contested?
                         && IsUnique(Replay(log).value[h].subject, Replay(log).value[h].pred)
                         ==> !Replay(log).value[h].IsExpiredAt(now)
    ensures Load(log, now) == Some(Store(log, Replay(log).value))
  {
    hide Replay, WellKept, FactState.IsExpiredAt, NamedByFreshContest, FreshBelief;
    ReloadFailsIffAContestWentStale(log, clock, now);
  }
}
