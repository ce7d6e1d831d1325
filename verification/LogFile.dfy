/** The operations as they run against the durable log: each is one pass of gate, load, decide, apply, persist. */
module LogFiles {
  import opened Wrappers
  import opened AuthorityLevels
  import opened Text
  import opened EventIds
  import opened Registry
  import opened FactLog
  import opened FactIndex
  import opened Policies
  import opened Reload
  import opened ReloadCheck
  import opened Identity
  import opened Ops

  // ---- Loading ------------------------------------------------------------------------

  lemma {:induction false} ReplayErrorStays(log: Log, n: nat)
    requires n <= |log| && Replay(log[..n]).Err?
    ensures Replay(log).Err?
    decreases |log|
  {
    hide Step;
    if n < |log| {
      assert log[..|log| - 1][..n] == log[..n];
      ReplayErrorStays(log[..|log| - 1], n);
    } else {
      assert log[..n] == log;
    }
  }

  /** No event id twice, and every stream folds: no arbitration. The program folds in the check that follows. */
  method Rehydrate(log: Log) returns (store: Option<Store>)
    ensures store == if DistinctIds(log) && Replay(log).Ok? then Some(Store(log, Replay(log).value)) else None
  {
    var seen: set<string>, view: Projection := {}, map[];
    for i := 0 to |log|
      invariant forall x :: x in seen <==> exists j :: 0 <= j < i && log[j].eventId == x
      invariant forall j, k :: 0 <= j < k < i ==> log[j].eventId != log[k].eventId
      invariant Replay(log[..i]) == Ok(view)
    {
      hide Apply;
      if log[i].eventId in seen { return None; }
      seen := seen + {log[i].eventId};
      assert log[..i + 1][..i] == log[..i];
      var next := Step(view, log[i]);
      if next.Err? {
        ReplayErrorStays(log, i + 1);
        return None;
      }
      view := next.value;
    }
    assert log[..|log|] == log;
    return Some(Store(log, view));
  }

  // ---- Building batches ---------------------------------------------------------------

  method BuildIncumbentEvents(n: nat, incumbents: seq<string>, kindFor: string -> EventKind, request: Request, now: int)
    returns (events: Log)
    ensures events == BuildPerIncumbent(n, incumbents, kindFor, request, now)
  {
    events := [];
    for i := 0 to |incumbents|
      invariant events == BuildPerIncumbent(n, incumbents, kindFor, request, now)[..i]
    {
      hide EventId;
      events := events + [OnFact(n + i, incumbents[i], kindFor(incumbents[i]), request, now)];
    }
  }

  /** One more piece of evidence for each fact a derivation rests on. */
  method RestOn(event: FactEvent, grounds: seq<string>) returns (resting: FactEvent)
    ensures resting == event.(evidence := event.evidence + grounds)
  {
    resting := event;
    for i := 0 to |grounds|
      invariant resting == event.(evidence := event.evidence + grounds[..i])
    {
      resting := resting.(evidence := resting.evidence + [grounds[i]]);
    }
    assert grounds[..|grounds|] == grounds;
  }

  method BuildRevisionEvents(n: nat, incumbents: seq<string>, request: Request, value: string, validity: Validity, now: int)
    returns (events: Log)
    ensures events == BuildRevision(n, incumbents, request, value, validity, now)
  {
    hide EventId, NewFact;
    var replacement := NewFact(n, request, value, validity, now);
    events := [replacement];
    for i := 0 to |incumbents|
      invariant events == [replacement] + BuildPerIncumbent(n + 1, incumbents, _ => SupersededBy(replacement.factId), request, now)[..i]
    {
      events := events + [OnFact(n + 1 + i, incumbents[i], SupersededBy(replacement.factId), request, now)];
    }
  }

  method FindOutEntrenching(incumbents: seq<string>, view: Projection, authority: AuthorityLevel) returns (found: Option<string>)
    ensures found == FirstOutEntrenching(incumbents, view, authority)
  {
    hide OutEntrenches;
    for i := 0 to |incumbents|
      invariant FirstOutEntrenching(incumbents, view, authority) == FirstOutEntrenching(incumbents[i..], view, authority)
    {
      assert incumbents[i..][1..] == incumbents[i + 1..];
      if OutEntrenches(view, incumbents[i], authority) { return Some(incumbents[i]); }
    }
    return None;
  }

  method WriteGate(env: Env, request: Request) returns (refused: Option<OpError>)
    ensures refused == Gate(env, request)
  {
    hide EnforceWrite, GateDecision;
    var outcome := RegistryGrantCheck(env.sources, request.Auth());
    if outcome != Accepted { return Some(AuthorityRefused(outcome)); }
    var mismatch := EnforceWrite(env.keys, env.ctx, request.Auth(), env.at.gate);
    if mismatch.Some? { return Some(IdentityRefused(mismatch.value)); }
    return None;
  }

  // ---- The durable log ----------------------------------------------------------------

  class LogFile {
    var log: Log

    constructor ()
      ensures log == []
    {
      log := [];
    }

    method LoadStore(now: int) returns (store: Option<Store>)
      ensures store == Load(log, now)
    {
      hide Replay, IsSound, DistinctIds;
      store := Rehydrate(log);
      if store.Some? {
        var sound := ValidateUniqueLog(store.value, now);
        if !sound { store := None; }
      }
    }

    /** `append_events`: sign in place, then one write. */
    method AppendEvents(env: Env, events: array<FactEvent>) returns (error: Option<IdentityError>)
      modifies this, events
      ensures match AttestAll(env.keys, env.ctx, old(events[..]))
              case Ok(batch) => error == None && events[..] == batch.events && log == old(log) + batch.events
              case Err(e) => error == Some(e) && log == old(log)
    {
      var keys;
      error, keys := AttestEvents(env.keys, env.ctx, events);
      if error == None { log := log + events[..]; }
    }

    method PersistChallengeRecord(env: Env, challenge: Challenge) returns (recorded: bool)
      modifies this
      ensures log == Ops.PersistChallengeRecord(env, old(log), challenge)
    {
      hide Load, NextSeq, AttestAll, FactLog.Append;
      var store := LoadStore(env.at.reload);
      if store.None? { return false; }
      var record := ChallengeRecord(NextSeq(log), challenge, env.at.record);
      LoadedLog(log, env.at.reload);
      var admitted := FactLog.Append(store.value, record);
      if admitted.Err? { return false; }
      var batch := new FactEvent[1][record];
      assert batch[..] == [record];
      var error := AppendEvents(env, batch);
      recorded := error == None;
    }

    method RecordSurvivedChallenge(env: Env, event: FactEvent, error: StoreError)
      modifies this
      ensures log == Ops.RecordSurvivedChallenge(env, old(log), event, error)
    {
      hide Ops.PersistChallengeRecord, ClassifyChallenge;
      if env.recordsChallenges {
        var challenge := ClassifyChallenge(event, error);
        if challenge.Some? { var _ := PersistChallengeRecord(env, challenge.value); }
      }
    }

    /** Apply the whole batch in memory first; persist only if every event is admitted. */
    method Commit(env: Env, store: Store, events: Log) returns (result: Result<Log, OpError>)
      modifies this
      ensures Ran(log, result) == Ops.Commit(env, old(log), store, events)
    {
      hide AppendAll, AttestAll, Ops.RecordSurvivedChallenge;
      var applied := ApplyEach(store, events);
      if applied.Stopped? {
        RecordSurvivedChallenge(env, applied.event, applied.error);
        return Err(StoreRefused(applied.error));
      }
      var batch := new FactEvent[|events|](i requires 0 <= i < |events| => events[i]);
      assert batch[..] == events;
      var error := AppendEvents(env, batch);
      if error.Some? { return Err(CommitFailed(error.value)); }
      return Ok(batch[..]);
    }

    /** The gate and the load every operation starts with. */
    method Begin(env: Env, request: Request) returns (start: Result<Store, OpError>)
      ensures match start
              case Ok(store) => Gate(env, request) == None && Load(log, env.at.load) == Some(store) && store.log == log
              case Err(error) =>
                Some(error) == if Gate(env, request).Some? then Gate(env, request)
                               else if Load(log, env.at.load).None? then Some(Unloadable) else None
    {
      hide Gate, Load;
      var refused := WriteGate(env, request);
      if refused.Some? { return Err(refused.value); }
      var store := LoadStore(env.at.load);
      if store.None? { return Err(Unloadable); }
      LoadedLog(log, env.at.load);
      return Ok(store.value);
    }

    method Assertion(env: Env, store: Store, request: Request, value: string, validity: Validity, grounds: seq<string>)
      returns (result: Result<Log, OpError>)
      requires store.log == log && grounds == Grounds(store, request)
      modifies this
      ensures Ran(log, result) ==
              match DecideAssertion(env, store, request, value, validity)
              case Attempt(events) => Ops.Commit(env, old(log), store, events)
              case Refuse(error) => Ran(old(log), Err(error))
              case RefuseUnearned(_, _) => Ran(log, result)
      ensures !DecideAssertion(env, store, request, value, validity).RefuseUnearned?
    {
      hide NextSeq, NewFact, Grounds, IsBlank, AttestAll, EnforcePolicy, Ops.Commit;
      if HasEmptyTarget(request) || IsBlank(request.source) { return Err(EmptyName); }
      if !env.contentAdmits { return Err(ContentRefused); }
      var event := RestOn(NewFact(NextSeq(log), request, value, validity, env.at.decide), grounds);
      var one := new FactEvent[1][event];
      assert one[..] == [event];
      var error, keys := AttestEvents(env.keys, env.ctx, one);
      if error.Some? { return Err(IdentityRefused(error.value)); }
      var refused := EnforcePolicy(store.view, one[0], env.at.decide);
      if refused.Some? { return Err(StoreRefused(refused.value)); }
      result := Commit(env, store, one[..]);
    }

    method OpAssert(env: Env, request: Request, value: string, validity: Validity) returns (result: Result<Log, OpError>)
      requires request.op == Op.Assert(value, validity)
      modifies this
      ensures Ran(log, result) == Run(env, old(log), request)
    {
      hide Gate, Load, DecideAssertion, Ops.Commit;
      var start := Begin(env, request);
      if start.Err? { return Err(start.error); }
      result := Assertion(env, start.value, request, value, validity, []);
    }

    method OpDerive(env: Env, request: Request, value: string, validity: Validity, fromSubject: Subject, fromPred: string)
      returns (result: Result<Log, OpError>)
      requires request.op == Op.Derive(value, validity, fromSubject, fromPred)
      modifies this
      ensures Ran(log, result) == Run(env, old(log), request)
    {
      hide Gate, Load, DecideAssertion, Ops.Commit, IsBlank, BelievedFactIds;
      var start := Begin(env, request);
      if start.Err? { return Err(start.error); }
      if IsBlank(fromSubject.kind) || IsBlank(fromSubject.key) || IsBlank(fromPred) { return Err(EmptyName); }
      var sources := BelievedFactIds(start.value, fromSubject, fromPred);
      if sources == [] { return Err(NothingBelieved); }
      result := Assertion(env, start.value, request, value, validity, sources);
    }

    method OpSupersede(env: Env, request: Request, value: string, validity: Validity) returns (result: Result<Log, OpError>)
      requires request.op == Op.Supersede(value, validity)
      modifies this
      ensures Ran(log, result) == Run(env, old(log), request)
    {
      hide Gate, Load, Ops.Commit, IsBlank, BelievedFactIds, PolicyFor, NextSeq, FirstOutEntrenching, Ops.PersistChallengeRecord, NewFact;
      var start := Begin(env, request);
      if start.Err? { return Err(start.error); }
      var store := start.value;
      if HasEmptyTarget(request) { return Err(EmptyName); }
      var incumbents := BelievedFactIds(store, request.subject, request.pred);
      if incumbents == [] { return Err(NothingBelieved); }
      var policy := PolicyFor(request.subject, request.pred);
      if policy.Some? && !AtMost(policy.value.authorityFloor, request.authority) { return Err(BelowFloor); }
      if IsBlank(request.source) { return Err(EmptyName); }
      if !env.contentAdmits { return Err(ContentRefused); }
      var events := BuildRevisionEvents(NextSeq(log), incumbents, request, value, validity, env.at.decide);
      hide BuildRevision;
      if env.entrenchmentGate {
        var holding := FindOutEntrenching(incumbents, store.view, request.authority);
        if holding.Some? {
          if env.recordsChallenges {
            var _ := PersistChallengeRecord(env, Challenge(
              holding.value, request.subject, request.pred, Supersession, Some(events[0].factId), WeakerEntrenchment,
              request.source, request.authority));
          }
          return Err(UnearnedSupersession(holding.value));
        }
      }
      result := Commit(env, store, events);
    }

    method OpContradict(env: Env, request: Request, value: string, validity: Validity) returns (result: Result<Log, OpError>)
      requires request.op == Op.Contradict(value, validity)
      modifies this
      ensures Ran(log, result) == Run(env, old(log), request)
    {
      hide Gate, Load, Ops.Commit, IsBlank, ExplainSubject, NextSeq, BuildContradiction;
      var start := Begin(env, request);
      if start.Err? { return Err(start.error); }
      var store := start.value;
      if HasEmptyTarget(request) { return Err(EmptyName); }
      var incumbent := ExplainSubject(store, request.subject, request.pred, env.at.decide);
      if incumbent.None? { return Err(NothingBelieved); }
      if IsBlank(request.source) { return Err(EmptyName); }
      if !env.contentAdmits { return Err(ContentRefused); }
      result := Commit(env, store, BuildContradiction(NextSeq(log), incumbent.value, request, value, validity, env.at.decide));
    }

    /** `retract`, `expire`, `reinforce` and `used_in_decision`: one event per believed fact. */
    method OpPerIncumbent(env: Env, request: Request) returns (result: Result<Log, OpError>)
      requires request.op.Retract? || request.op.Expire? || request.op.Reinforce? || request.op.MarkUsedInDecision?
      modifies this
      ensures Ran(log, result) == Run(env, old(log), request)
    {
      hide Gate, Load, Ops.Commit, IsBlank, BelievedFactIds, NextSeq, BuildPerIncumbent;
      if request.op.MarkUsedInDecision? && IsBlank(request.op.decision) { return Err(EmptyDecision); }
      var start := Begin(env, request);
      if start.Err? { return Err(start.error); }
      var store := start.value;
      if HasEmptyTarget(request) { return Err(EmptyName); }
      var incumbents := BelievedFactIds(store, request.subject, request.pred);
      if incumbents == [] { return Err(NothingBelieved); }
      if IsBlank(request.source) { return Err(EmptyName); }
      var kindFor := incumbent => IncumbentKind(request.op, incumbent);
      var events := BuildIncumbentEvents(NextSeq(log), incumbents, kindFor, request, env.at.decide);
      result := Commit(env, store, events);
    }
  }

  lemma LoadedLog(log: Log, now: int)
    requires Load(log, now).Some?
    ensures Load(log, now).value.log == log
  {
  }
}
