/**
 The reload check can fail on a log the operations built themselves: a disputed branch status whose
 first report expires while two later reports, both disputing it, are still fresh.
 */
module StaleContest {
  import opened Wrappers
  import opened AuthorityLevels
  import opened Text
  import opened EventIds
  import opened FactLog
  import opened FactIndex
  import opened Policies
  import opened Reload
  import opened Identity
  import opened Ops
  import opened OpEffects
  import opened LogInvariants
  import opened Runs
  import opened OpTheorems

  const BRANCH: Subject := Subject("branch", "main")

  function Report(op: Op): Request
  {
    Request(BRANCH, "status", Low, "source:agent", op)
  }

  /** Development mode: no registry, no identity, no scanner. */
  function OpenEnv(keys: Keyring, now: int): Env
  {
    Env(None, Context(Missing, false, None, None, None, false), keys, true, true, false, Times(now, now, now, now, now))
  }

  const OPEN_ENDED: Validity := Validity(None, None, None)

  lemma ReportsAreNamed(op: Op)
    ensures !HasEmptyTarget(Report(op)) && !IsBlank(Report(op).source)
  {
    assert "branch"[0] == 'b' && "main"[0] == 'm' && "status"[0] == 's' && "source:agent"[0] == 's';
  }

  lemma ReportIsReady(keys: Keyring, log: Log, op: Op, now: int)
    requires Load(log, now).Some?
    ensures Ready(OpenEnv(keys, now), log, Report(op))
  {
    hide Load, IsBlank;
    ReportsAreNamed(op);
    ReadyIff(OpenEnv(keys, now), log, Report(op));
  }

  /** A branch status takes the one-hour default and is valid. */
  lemma ReportEvent(n: nat, op: Op, value: string, now: int)
    ensures var event := NewFact(n, Report(op), value, OPEN_ENDED, now);
            && event.ttl == DurationMillis(ONE_HOUR_MS) && event.validFrom == None && event.observedAt == None && event.validTo == None
            && event.recordedAt == now && event.kind.Asserted? && IsValid(event)
            && event.subject == BRANCH && event.pred == "status" && event.authority == Low
  {
    hide EventId, FactId;
  }

  lemma NewbornExpiresInAnHour(state: FactState, event: FactEvent, now: int, at: int)
    requires IsNewborn(state, event) && event.ttl == DurationMillis(ONE_HOUR_MS)
    requires event.validFrom == None && event.observedAt == None && event.validTo == None && event.recordedAt == now && now < 1_000_000
    ensures state.IsExpiredAt(at) <==> now + ONE_HOUR_MS <= at
    ensures state.subject == event.subject && state.pred == event.pred && state.authority == event.authority
    ensures state.lifecycle == Active && state.Believed() && state.contradictedBy == []
  {
  }

  lemma FirstReportIsAdmitted(event: FactEvent, now: int)
    requires event.ttl == DurationMillis(ONE_HOUR_MS) && event.validTo == None && event.authority == Low
    requires event.subject == BRANCH && event.pred == "status"
    ensures EnforcePolicy(map[], event, now) == None
  {
  }

  /** Assert, dispute, dispute again; when the first report expires the log no longer loads. */
  lemma DisputedStatusStopsLoading(keys: Keyring) returns (turns: seq<Turn>, now: int)
    ensures Timely(turns, 0) && LastClock(turns, 0) <= now
    ensures Load(RunAll([], turns), now) == None
  {
    hide Run, Replay, Load, NewFact, IsNewborn, WellKept, FactState.IsExpiredAt, ExplainSubject, Ready, EnforcePolicy, IsValid, Adds, Contests;
    hide EventId, FactId;
    var assert1, dispute1, dispute2 := Report(Op.Assert("green", OPEN_ENDED)), Report(Op.Contradict("red", OPEN_ENDED)), Report(Op.Contradict("blue", OPEN_ENDED));
    var env1, env2, env3 := OpenEnv(keys, 0), OpenEnv(keys, 10), OpenEnv(keys, 20);
    turns, now := [Turn(env1, assert1), Turn(env2, dispute1), Turn(env3, dispute2)], ONE_HOUR_MS + 5;
    ThreeAreTimely(turns);
    var log1 := AfterFirstReport(keys);
    var a := FirstReport().factId;
    var log2, b := AfterFirstDispute(keys, log1, a);
    var log3, c := AfterSecondDispute(keys, log2, a, b);
    WellKeptIsLawful(log3, 20);
    SecondDisputeGoesStale(log3, a, b, c);
    RunOfThree(turns, log1, log2, log3);
  }

  function FirstReport(): FactEvent
  {
    NewFact(0, Report(Op.Assert("green", OPEN_ENDED)), "green", OPEN_ENDED, 0)
  }

  /** The first report stands alone. */
  ghost predicate StandsAlone(view: Projection, a: string)
  {
    && a in view && (forall id :: id in view ==> id == a)
    && view[a].subject == BRANCH && view[a].pred == "status" && view[a].authority == Low
    && view[a].lifecycle == Active && (forall at :: view[a].IsExpiredAt(at) <==> ONE_HOUR_MS <= at)
  }

  lemma AfterFirstReport(keys: Keyring) returns (log: Log)
    ensures log == Run(OpenEnv(keys, 0), [], Report(Op.Assert("green", OPEN_ENDED))).log
    ensures WellKept(log, 0) && StandsAlone(Replay(log).value, FirstReport().factId)
  {
    hide Run, Replay, Load, NewFact, IsNewborn, FactState.IsExpiredAt, EnforcePolicy, IsValid, EventId, FactId, Ready, WellKept;
    var env, request := OpenEnv(keys, 0), Report(Op.Assert("green", OPEN_ENDED));
    EmptyReplays();
    EmptyLogIsWellKept(0);
    EmptyLogLoads();
    ReportIsReady(keys, [], request.op, 0);
    ReportEvent(0, request.op, "green", 0);
    FirstReportIsAdmitted(FirstReport(), 0);
    WellKeptIsLawful([], 0);
    AssertionCommits(env, [], request, "green", OPEN_ENDED);
    RunKeepsLogWellKept(env, [], request, 0);
    log := Run(env, [], request).log;
    var a, view := FirstReport().factId, Replay(log).value;
    forall at ensures view[a].IsExpiredAt(at) <==> ONE_HOUR_MS <= at
    {
      NewbornExpiresInAnHour(view[a], FirstReport(), 0, at);
    }
    NewbornExpiresInAnHour(view[a], FirstReport(), 0, 0);
    assert Adds(map[], view, a, FirstReport());
    OnlyTheAdded(view, a, FirstReport());
  }

  lemma OnlyTheAdded(view: Projection, a: string, event: FactEvent)
    requires Adds(map[], view, a, event)
    ensures a in view && forall id :: id in view ==> id == a
  {
    forall id ensures id in view ==> id == a
    {
      assert id != a ==> Lookup(view, id) == Lookup(map[], id);
    }
  }

  lemma EmptyReplays()
    ensures Replay([]) == Ok(map[])
  {
  }

  lemma EmptyLogLoads()
    ensures Load([], 0) == Some(Store([], map[]))
  {
    EmptyReplays();
  }

  /** `a` is contested and names `b`; both are believed, nothing else is there. */
  ghost predicate Disputed(view: Projection, a: string, b: string)
  {
    && a in view && b in view && a != b && (forall id :: id in view ==> id == a || id == b)
    && view[a].subject == view[b].subject == BRANCH && view[a].pred == view[b].pred == "status"
    && view[a].lifecycle == Contested && view[a].authority == Low && b in view[a].contradictedBy
    && (forall at :: view[a].IsExpiredAt(at) <==> ONE_HOUR_MS <= at)
    && view[b].lifecycle == Active && (forall at :: view[b].IsExpiredAt(at) <==> 10 + ONE_HOUR_MS <= at)
  }

  lemma AfterFirstDispute(keys: Keyring, log: Log, a: string) returns (after: Log, b: string)
    requires WellKept(log, 0) && StandsAlone(Replay(log).value, a)
    ensures after == Run(OpenEnv(keys, 10), log, Report(Op.Contradict("red", OPEN_ENDED))).log
    ensures WellKept(after, 10) && Disputed(Replay(after).value, a, b)
  {
    hide Run, Replay, Load, NewFact, IsNewborn, FactState.IsExpiredAt, IsValid, EventId, FactId, Ready, WellKept, ExplainSubject, SameFact;
    var env, request := OpenEnv(keys, 10), Report(Op.Contradict("red", OPEN_ENDED));
    WellKeptIsLawful(log, 0);
    var view := Replay(log).value;
    ReloadSucceedsWithoutStaleContests(log, 0, 10);
    ReportIsReady(keys, log, request.op, 10);
    ReportEvent(|log|, request.op, "red", 10);
    ExplainedFactIsPreferred(Store(log, view), BRANCH, "status", 10);
    assert Believes(view, BRANCH, "status", a);
    assert ExplainSubject(Store(log, view), BRANCH, "status", 10) == Some(a);
    ContradictionCommits(env, log, request, "red", OPEN_ENDED);
    RunKeepsLogWellKept(env, log, request, 0);
    after := Run(env, log, request).log;
    var event := NewFact(|log|, request, "red", OPEN_ENDED, 10);
    b := event.factId;
    var next := Replay(after).value;
    SameFactKeepsIdentity(view[a], next[a]);
    SameFactKeepsAuthority(view[a], next[a]);
    forall at ensures next[b].IsExpiredAt(at) <==> 10 + ONE_HOUR_MS <= at { NewbornExpiresInAnHour(next[b], event, 10, at); }
    NewbornExpiresInAnHour(next[b], event, 10, 0);
    forall id ensures id in next ==> id == a || id == b
    {
      assert id != a && id != b ==> Lookup(next, id) == Lookup(view, id);
    }
  }

  lemma SameFactKeepsAuthority(before: FactState, after: FactState)
    requires SameFact(before, after)
    ensures after.authority == before.authority
  {
  }

  /** `a` is contested and names `b` and `c`, which outlive it. */
  ghost predicate DisputedTwice(view: Projection, a: string, b: string, c: string)
  {
    && a in view && b in view && c in view && a != b && a != c && b != c
    && (forall id :: id in view ==> id == a || id == b || id == c)
    && view[a].subject == view[b].subject == view[c].subject == BRANCH
    && view[a].pred == view[b].pred == view[c].pred == "status"
    && view[a].lifecycle == Contested && (forall at :: view[a].IsExpiredAt(at) <==> ONE_HOUR_MS <= at)
    && view[b].lifecycle == Active && (forall at :: view[b].IsExpiredAt(at) <==> 10 + ONE_HOUR_MS <= at)
    && view[c].lifecycle == Active && (forall at :: view[c].IsExpiredAt(at) <==> 20 + ONE_HOUR_MS <= at)
  }

  lemma AfterSecondDispute(keys: Keyring, log: Log, a: string, b: string) returns (after: Log, c: string)
    requires WellKept(log, 10) && Disputed(Replay(log).value, a, b)
    ensures after == Run(OpenEnv(keys, 20), log, Report(Op.Contradict("blue", OPEN_ENDED))).log
    ensures WellKept(after, 20) && DisputedTwice(Replay(after).value, a, b, c)
  {
    hide Run, Replay, Load, NewFact, IsNewborn, FactState.IsExpiredAt, IsValid, EventId, FactId, Ready, WellKept, ExplainSubject, SameFact;
    var env, request := OpenEnv(keys, 20), Report(Op.Contradict("blue", OPEN_ENDED));
    WellKeptIsLawful(log, 10);
    var view := Replay(log).value;
    ReloadSucceedsWithoutStaleContests(log, 10, 20);
    ReportIsReady(keys, log, request.op, 20);
    ReportEvent(|log|, request.op, "blue", 20);
    ExplainedFactIsPreferred(Store(log, view), BRANCH, "status", 20);
    assert Believes(view, BRANCH, "status", a) && ContestedAndFresh(view, a, 20);
    assert ExplainSubject(Store(log, view), BRANCH, "status", 20) == Some(a);
    ContradictionCommits(env, log, request, "blue", OPEN_ENDED);
    RunKeepsLogWellKept(env, log, request, 10);
    after := Run(env, log, request).log;
    var event := NewFact(|log|, request, "blue", OPEN_ENDED, 20);
    c := event.factId;
    var next := Replay(after).value;
    SameFactKeepsIdentity(view[a], next[a]);
    assert Lookup(next, b) == Lookup(view, b);
    forall at ensures next[c].IsExpiredAt(at) <==> 20 + ONE_HOUR_MS <= at { NewbornExpiresInAnHour(next[c], event, 20, at); }
    NewbornExpiresInAnHour(next[c], event, 20, 0);
    forall id ensures id in next ==> id == a || id == b || id == c
    {
      assert id != a && id != c ==> Lookup(next, id) == Lookup(view, id);
    }
  }

  lemma SecondDisputeGoesStale(log: Log, a: string, b: string, c: string)
    requires Replay(log).Ok? && DisputedTwice(Replay(log).value, a, b, c)
    ensures Load(log, ONE_HOUR_MS + 5) == None
  {
    hide Replay, FactState.IsExpiredAt;
    var view, now := Replay(log).value, ONE_HOUR_MS + 5;
    assert FreshBelief(view, BRANCH, "status", c, now);
    assert IsSilentDuplicate(view, b, now);
  }

  lemma ThreeAreTimely(turns: seq<Turn>)
    requires |turns| == 3 && turns[0].env.at.gate == 0 && turns[2].env.at.record <= ONE_HOUR_MS
    requires forall i :: 0 <= i < 3 ==> turns[i].env.at.InOrder()
    requires turns[0].env.at.record <= turns[1].env.at.gate && turns[1].env.at.record <= turns[2].env.at.gate
    ensures Timely(turns, 0) && LastClock(turns, 0) <= ONE_HOUR_MS
  {
    var rest, last := turns[1..], turns[1..][1..];
    assert rest[0] == turns[1] && last[0] == turns[2] && last[1..] == [];
    assert Timely(last, turns[1].env.at.record);
  }

  lemma RunOfThree(turns: seq<Turn>, log1: Log, log2: Log, log3: Log)
    requires |turns| == 3
    requires log1 == Run(turns[0].env, [], turns[0].request).log
    requires log2 == Run(turns[1].env, log1, turns[1].request).log
    requires log3 == Run(turns[2].env, log2, turns[2].request).log
    ensures RunAll([], turns) == log3
  {
    hide Run;
    var rest, last := turns[1..], turns[1..][1..];
    assert rest[0] == turns[1] && last[0] == turns[2] && last[1..] == [];
    assert RunAll(log2, last) == RunAll(log3, last[1..]);
    assert RunAll(log1, rest) == RunAll(log2, last);
  }
}
