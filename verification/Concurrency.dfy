/**
 Any number of writers on one file-backed log. Each operation runs its steps under an exclusive lease;
 a writer may die between any two steps, and the operating system then drops its lease.
 */
module Concurrency {
  import opened Wrappers
  import opened Registry
  import opened FactLog
  import opened Reload
  import opened Identity
  import opened Ops
  import opened Runs
  import opened OpTheorems
  import opened Text

  type WriterId = nat

  /** What a decided operation still has to do. */
  datatype Pending = Append(events: Log) | Record(challenge: Challenge)

  /** Where a writer is; `env.at` is filled in as the steps read the clock. */
  datatype Phase =
    | Idle
    | Holding(env: Env, request: Request)
    | Gated(env: Env, request: Request)
    | Loaded(env: Env, request: Request, store: Option<Store>)
    | Decided(env: Env, request: Request, pending: Pending)
    | Reloaded(env: Env, request: Request, challenge: Challenge, store: Option<Store>)
    | Done

  datatype State = State(log: Log, lease: Option<WriterId>, phases: map<WriterId, Phase>, clock: int)
  {
    function PhaseOf(writer: WriterId): Phase
    {
      if writer in phases then phases[writer] else Idle
    }

    function With(writer: WriterId, phase: Phase): State { this.(phases := phases[writer := phase]) }
  }

  datatype Step =
    | Acquire(env: Env, request: Request)
    | PassGate
    | LoadLog
    | DecideOn
    | PersistBatch
    | ReloadLog
    | PersistRecord
    | Release
    | Crash

  /** What the writer will do, judged on the store it loaded; nothing when the operation is already refused. */
  function PlanOn(env: Env, store: Option<Store>, request: Request): Option<Pending>
  {
    if store.None? then None
    else
      match Decide(env, store.value, request)
      case Refuse(_) => None
      case RefuseUnearned(incumbent, challenger) =>
        if env.recordsChallenges then
          Some(Record(Challenge(incumbent, request.subject, request.pred, Supersession, Some(challenger),
                                WeakerEntrenchment, request.source, request.authority)))
        else None
      case Attempt(events) =>
        match AppendAll(store.value, events)
        case Stopped(event, error) =>
          var challenge := ClassifyChallenge(event, error);
          if env.recordsChallenges && challenge.Some? then Some(Record(challenge.value)) else None
        case AllApplied(_) =>
          match AttestAll(env.keys, env.ctx, events)
          case Err(_) => None
          case Ok(batch) => Some(Pending.Append(batch.events))
  }

  /** The record the writer appends, made from the store it reloaded. */
  function RecordFrom(env: Env, store: Option<Store>, challenge: Challenge): Log
  {
    if store.None? then []
    else
      var record := ChallengeRecord(NextSeq(store.value.log), challenge, env.at.record);
      if FactLog.Append(store.value, record).Err? then []
      else
        match AttestAll(env.keys, env.ctx, [record])
        case Err(_) => []
        case Ok(batch) => batch.events
  }

  predicate IsRefusedAtTheGate(env: Env, request: Request)
  {
    (request.op.MarkUsedInDecision? && IsBlank(request.op.decision)) || Gate(env, request).Some?
  }

  /** One step of one writer at time `now`; `None` when the writer cannot take it. */
  ghost function Take(s: State, writer: WriterId, step: Step, now: int): Option<State>
  {
    var t, phase := s.(clock := now), s.PhaseOf(writer);
    if now < s.clock then None
    else
      match step
      case Acquire(env, request) =>
        if phase.Idle? && s.lease == None then Some(t.(lease := Some(writer)).With(writer, Holding(env, request))) else None
      case PassGate =>
        if !phase.Holding? then None
        else
          var env := phase.env.(at := Times(now, now, now, now, now));
          Some(t.With(writer, if IsRefusedAtTheGate(env, phase.request) then Done else Gated(env, phase.request)))
      case LoadLog =>
        if !phase.Gated? then None
        else
          var env := phase.env.(at := Times(phase.env.at.gate, now, now, now, now));
          Some(t.With(writer, Loaded(env, phase.request, Load(s.log, now))))
      case DecideOn =>
        if !phase.Loaded? then None
        else
          var env := phase.env.(at := Times(phase.env.at.gate, phase.env.at.load, now, now, now));
          var plan := PlanOn(env, phase.store, phase.request);
          Some(t.With(writer, if plan.None? then Done else Decided(env, phase.request, plan.value)))
      case PersistBatch =>
        if !phase.Decided? || !phase.pending.Append? then None
        else Some(t.(log := s.log + phase.pending.events).With(writer, Done))
      case ReloadLog =>
        if !phase.Decided? || !phase.pending.Record? then None
        else
          var at := phase.env.at;
          var env := phase.env.(at := Times(at.gate, at.load, at.decide, now, now));
          Some(t.With(writer, Reloaded(env, phase.request, phase.pending.challenge, Load(s.log, now))))
      case PersistRecord =>
        if !phase.Reloaded? then None
        else
          var at := phase.env.at;
          var env := phase.env.(at := Times(at.gate, at.load, at.decide, at.reload, now));
          Some(t.(log := s.log + RecordFrom(env, phase.store, phase.challenge)).With(writer, Done))
      case Release =>
        if phase.Done? && s.lease == Some(writer) then Some(t.(lease := None).With(writer, Idle)) else None
      case Crash =>
        Some(t.(lease := if s.lease == Some(writer) then None else s.lease).With(writer, Idle))
  }

  datatype Move = Move(writer: WriterId, step: Step, now: int)

  ghost function Play(s: State, moves: seq<Move>): Option<State>
    decreases |moves|
  {
    if moves == [] then Some(s)
    else
      var next := Take(s, moves[0].writer, moves[0].step, moves[0].now);
      if next.None? then None else Play(next.value, moves[1..])
  }

  /** With this step the writer is done with what it was at. */
  ghost predicate Finishes(s: State, writer: WriterId, step: Step, now: int)
  {
    var next := Take(s, writer, step, now);
    next.Some? && next.value.PhaseOf(writer).Done? && !s.PhaseOf(writer).Done? && !s.PhaseOf(writer).Idle?
  }

  /** The operations that are finished, in the order in which they are. */
  ghost function Finished(s: State, moves: seq<Move>): seq<Turn>
    decreases |moves|
  {
    if moves == [] then []
    else
      var next := Take(s, moves[0].writer, moves[0].step, moves[0].now);
      if next.None? then []
      else if Finishes(s, moves[0].writer, moves[0].step, moves[0].now) then
        [Turn(s.PhaseOf(moves[0].writer).env, s.PhaseOf(moves[0].writer).request)] + Finished(next.value, moves[1..])
      else Finished(next.value, moves[1..])
  }

  /** The same operations under the same settings, whatever times they read off the clock. */
  ghost predicate SameOperations(a: seq<Turn>, b: seq<Turn>)
  {
    && |a| == |b|
    && forall i :: 0 <= i < |a| ==> a[i].request == b[i].request && a[i].env == b[i].env.(at := a[i].env.at)
  }

  /** No one holds the lease and no one is at work. */
  function Quiet(log: Log, clock: int): State { State(log, None, map[], clock) }

  // ---- What every reachable state satisfies -------------------------------------------

  /** The steps a writer has taken agree with the durable log as it is now. */
  ghost predicate IsCurrent(log: Log, phase: Phase)
  {
    match phase
    case Idle => true
    case Holding(_, _) => true
    case Gated(env, request) => !IsRefusedAtTheGate(env, request)
    case Loaded(env, request, store) => !IsRefusedAtTheGate(env, request) && store == Load(log, env.at.load)
    case Decided(env, request, pending) =>
      !IsRefusedAtTheGate(env, request) && PlanOn(env, Load(log, env.at.load), request) == Some(pending)
    case Reloaded(env, request, challenge, store) =>
      && !IsRefusedAtTheGate(env, request) && PlanOn(env, Load(log, env.at.load), request) == Some(Record(challenge))
      && store == Load(log, env.at.reload)
    case Done => true
  }

  /** The clock readings of a phase are in order, none before `start` nor after `clock`. */
  predicate IsTimely(phase: Phase, start: int, clock: int)
  {
    (phase.Gated? || phase.Loaded? || phase.Decided? || phase.Reloaded?) ==>
      start <= phase.env.at.gate && phase.env.at.InOrder() && phase.env.at.record <= clock
  }

  /** The log is what these turns leave, run one after the other. */
  ghost predicate IsSequential(log: Log, from: Log, turns: seq<Turn>, start: int, clock: int)
  {
    log == RunAll(from, turns) && Timely(turns, start) && LastClock(turns, start) <= clock
  }

  ghost predicate Coherent(s: State, from: Log, turns: seq<Turn>, start: int)
  {
    && start <= s.clock && IsSequential(s.log, from, turns, start, s.clock)
    && (forall writer: WriterId :: !s.PhaseOf(writer).Idle? ==> s.lease == Some(writer))
    && (forall writer: WriterId :: IsCurrent(s.log, s.PhaseOf(writer)) && IsTimely(s.PhaseOf(writer), LastClock(turns, start), s.clock))
  }

  // ---- Steps --------------------------------------------------------------------------

  lemma {:induction false} RunAllAppend(log: Log, turns: seq<Turn>, turn: Turn)
    ensures RunAll(log, turns + [turn]) == Run(turn.env, RunAll(log, turns), turn.request).log
    decreases |turns|
  {
    hide Run;
    if turns == [] {
      assert [turn][1..] == [] && turns + [turn] == [turn];
      assert RunAll(Run(turn.env, log, turn.request).log, []) == Run(turn.env, log, turn.request).log;
    } else {
      assert (turns + [turn])[1..] == turns[1..] + [turn];
      RunAllAppend(Run(turns[0].env, log, turns[0].request).log, turns[1..], turn);
    }
  }

  lemma {:induction false} TimelyAppend(turns: seq<Turn>, turn: Turn, start: int)
    requires Timely(turns, start) && LastClock(turns, start) <= turn.env.at.gate && turn.env.at.InOrder()
    ensures Timely(turns + [turn], start) && LastClock(turns + [turn], start) == turn.env.at.record
    decreases |turns|
  {
    if turns == [] {
      assert turns + [turn] == [turn] && [turn][1..] == [];
    } else {
      assert (turns + [turn])[1..] == turns[1..] + [turn];
      TimelyAppend(turns[1..], turn, turns[0].env.at.record);
    }
  }

  lemma SequentialAppend(log: Log, from: Log, turns: seq<Turn>, start: int, turn: Turn, clock: int)
    requires IsSequential(log, from, turns, start, turn.env.at.gate) && turn.env.at.InOrder() && turn.env.at.record <= clock
    ensures IsSequential(Run(turn.env, log, turn.request).log, from, turns + [turn], start, clock)
  {
    hide Run, RunAll, Timely;
    RunAllAppend(from, turns, turn);
    TimelyAppend(turns, turn, start);
  }

  /** The plan, carried out on the log it was made from, is the whole operation. */
  lemma PlannedBatchIsTheRun(env: Env, log: Log, request: Request, events: Log)
    requires !IsRefusedAtTheGate(env, request) && PlanOn(env, Load(log, env.at.load), request) == Some(Pending.Append(events))
    ensures Run(env, log, request).log == log + events
  {
    hide Gate, Load, Decide, AppendAll, AttestAll, ClassifyChallenge;
  }

  lemma PlannedRecordIsTheRun(env: Env, log: Log, request: Request, challenge: Challenge)
    requires !IsRefusedAtTheGate(env, request) && PlanOn(env, Load(log, env.at.load), request) == Some(Record(challenge))
    ensures Run(env, log, request).log == PersistChallengeRecord(env, log, challenge)
    ensures PersistChallengeRecord(env, log, challenge) == log + RecordFrom(env, Load(log, env.at.reload), challenge)
  {
    hide Gate, Decide, AppendAll, AttestAll, ClassifyChallenge, FactLog.Append, NextSeq, IsSound, Replay, DistinctIds;
    var store := Load(log, env.at.reload);
    assert store.Some? ==> store.value.log == log;
  }

  /** An operation refused at the gate, or with nothing left to do, leaves the log when run as a whole too. */
  lemma NoPlanIsNoRun(env: Env, log: Log, request: Request)
    requires IsRefusedAtTheGate(env, request) || PlanOn(env, Load(log, env.at.load), request) == None
    ensures Run(env, log, request).log == log
  {
    hide Gate, Decide, AppendAll, AttestAll, ClassifyChallenge, FactLog.Append, NextSeq, IsSound, Replay, DistinctIds;
    hide PersistChallengeRecord, IsBlank;
  }

  lemma GateIgnoresLaterTimes(env: Env, request: Request, at: Times)
    requires at.gate == env.at.gate
    ensures Gate(env.(at := at), request) == Gate(env, request)
    ensures IsRefusedAtTheGate(env.(at := at), request) == IsRefusedAtTheGate(env, request)
  {
    hide EnforceWrite, GateDecision;
  }

  lemma PlanIgnoresLaterTimes(env: Env, store: Option<Store>, request: Request, at: Times)
    requires at.decide == env.at.decide
    ensures PlanOn(env.(at := at), store, request) == PlanOn(env, store, request)
  {
    hide AttestAll, AppendAll, ClassifyChallenge;
    if store.Some? { DecisionIgnoresLaterTimes(env, store.value, request, at); }
    hide Decide;
  }

  lemma DecisionIgnoresLaterTimes(env: Env, store: Store, request: Request, at: Times)
    requires at.decide == env.at.decide
    ensures Decide(env.(at := at), store, request) == Decide(env, store, request)
  {
  }

  /** One writer moved and it holds the lease (or has just let go): the others are idle. */
  lemma OneWriterMoved(s: State, next: State, from: Log, turns: seq<Turn>, later: seq<Turn>, start: int, writer: WriterId)
    requires Coherent(s, from, turns, start) && s.clock <= next.clock
    requires IsSequential(next.log, from, later, start, next.clock)
    requires s.lease == None || s.lease == Some(writer)
    requires forall other: WriterId :: other != writer ==> next.PhaseOf(other) == s.PhaseOf(other)
    requires !next.PhaseOf(writer).Idle? ==> next.lease == Some(writer)
    requires IsCurrent(next.log, next.PhaseOf(writer)) && IsTimely(next.PhaseOf(writer), LastClock(later, start), next.clock)
    ensures Coherent(next, from, later, start)
  {
    hide IsSequential, IsCurrent, IsTimely, LastClock;
    forall other: WriterId ensures IsCurrent(next.log, next.PhaseOf(other)) && IsTimely(next.PhaseOf(other), LastClock(later, start), next.clock)
    {
      if other != writer { IdleIsFine(next.log, LastClock(later, start), next.clock); }
    }
  }

  lemma IdleIsFine(log: Log, start: int, clock: int)
    ensures IsCurrent(log, Idle) && IsTimely(Idle, start, clock)
    ensures IsCurrent(log, Done) && IsTimely(Done, start, clock)
  {
  }

  lemma SequentialLater(log: Log, from: Log, turns: seq<Turn>, start: int, clock: int, later: int)
    requires IsSequential(log, from, turns, start, clock) && clock <= later
    ensures IsSequential(log, from, turns, start, later)
  {
    hide RunAll, Timely;
  }

  predicate OnlyReads(step: Step)
  {
    step.Acquire? || step.PassGate? || step.LoadLog? || step.DecideOn? || step.ReloadLog?
  }

  /** A step that only reads leaves the log, and what the writer now knows is about that log. */
  lemma ReadingStepIsCurrent(s: State, writer: WriterId, step: Step, now: int, start: int)
    requires Take(s, writer, step, now).Some? && OnlyReads(step) && start <= s.clock
    requires IsCurrent(s.log, s.PhaseOf(writer)) && IsTimely(s.PhaseOf(writer), start, s.clock)
    requires !s.PhaseOf(writer).Idle? ==> s.lease == Some(writer)
    ensures var next := Take(s, writer, step, now).value;
            && next.log == s.log && next.clock == now && s.clock <= now && next.lease == Some(writer)
            && (s.lease == None || s.lease == Some(writer))
            && (forall other: WriterId :: other != writer ==> next.PhaseOf(other) == s.PhaseOf(other))
            && IsCurrent(next.log, next.PhaseOf(writer)) && IsTimely(next.PhaseOf(writer), start, next.clock)
  {
    hide Load, PlanOn, Gate, IsRefusedAtTheGate;
    var phase := s.PhaseOf(writer);
    if step.LoadLog? {
      GateIgnoresLaterTimes(phase.env, phase.request, Times(phase.env.at.gate, now, now, now, now));
    } else if step.DecideOn? {
      GateIgnoresLaterTimes(phase.env, phase.request, Times(phase.env.at.gate, phase.env.at.load, now, now, now));
    } else if step.ReloadLog? {
      var at := Times(phase.env.at.gate, phase.env.at.load, phase.env.at.decide, now, now);
      GateIgnoresLaterTimes(phase.env, phase.request, at);
      PlanIgnoresLaterTimes(phase.env, Load(s.log, phase.env.at.load), phase.request, at);
    }
  }

  lemma ReadingStepKeepsCoherent(s: State, from: Log, turns: seq<Turn>, start: int, writer: WriterId, step: Step, now: int)
    requires Coherent(s, from, turns, start) && Take(s, writer, step, now).Some? && OnlyReads(step)
    ensures Coherent(Take(s, writer, step, now).value, from, turns, start)
  {
    hide Take, IsCurrent, IsTimely, RunAll, Timely, LastClock;
    var next := Take(s, writer, step, now).value;
    assert LastClock(turns, start) <= s.clock;
    ReadingStepIsCurrent(s, writer, step, now, LastClock(turns, start));
    SequentialLater(s.log, from, turns, start, s.clock, now);
    OneWriterMoved(s, next, from, turns, turns, start, writer);
  }

  /** The steps that end a writer's turn without writing. */
  lemma LeavingStepKeepsCoherent(s: State, from: Log, turns: seq<Turn>, start: int, writer: WriterId, step: Step, now: int)
    requires Coherent(s, from, turns, start) && Take(s, writer, step, now).Some?
    requires step.Release? || step.Crash?
    ensures Coherent(Take(s, writer, step, now).value, from, turns, start)
  {
    hide IsSequential, IsCurrent, LastClock, RunAll, Timely, IsTimely;
    var next := Take(s, writer, step, now).value;
    SequentialLater(s.log, from, turns, start, s.clock, now);
    forall other: WriterId
      ensures !next.PhaseOf(other).Idle? ==> next.lease == Some(other)
      ensures IsCurrent(next.log, next.PhaseOf(other)) && IsTimely(next.PhaseOf(other), LastClock(turns, start), next.clock)
    {
      if other == writer {
        IdleIsFine(next.log, LastClock(turns, start), next.clock);
      } else {
        StaysTimely(s.PhaseOf(other), LastClock(turns, start), s.clock, now);
      }
    }
  }

  lemma StaysTimely(phase: Phase, start: int, clock: int, later: int)
    requires IsTimely(phase, start, clock) && clock <= later
    ensures IsTimely(phase, start, later)
  {
  }

  /** The two steps that write commit exactly one operation, as if it had run alone on the log it extends. */
  lemma WritingStepIsOneRun(s: State, from: Log, turns: seq<Turn>, start: int, writer: WriterId, step: Step, now: int)
    returns (turn: Turn)
    requires Coherent(s, from, turns, start) && Take(s, writer, step, now).Some?
    requires step.PersistBatch? || step.PersistRecord?
    ensures Take(s, writer, step, now).value.log == Run(turn.env, s.log, turn.request).log
    ensures turn.request == s.PhaseOf(writer).request && turn.env == s.PhaseOf(writer).env.(at := turn.env.at)
    ensures Coherent(Take(s, writer, step, now).value, from, turns + [turn], start)
  {
    hide Run, Load, PlanOn, Gate, RunAll, Timely, IsRefusedAtTheGate, IsSequential, PersistChallengeRecord, RecordFrom;
    var next, phase := Take(s, writer, step, now).value, s.PhaseOf(writer);
    turn := Turn(phase.env, phase.request);
    if step.PersistRecord? {
      var at := Times(phase.env.at.gate, phase.env.at.load, phase.env.at.decide, phase.env.at.reload, now);
      turn := Turn(phase.env.(at := at), phase.request);
      GateIgnoresLaterTimes(phase.env, phase.request, at);
      PlanIgnoresLaterTimes(phase.env, Load(s.log, phase.env.at.load), phase.request, at);
      PlannedRecordIsTheRun(turn.env, s.log, turn.request, phase.challenge);
    } else {
      PlannedBatchIsTheRun(phase.env, s.log, phase.request, phase.pending.events);
    }
    SequentialEarlier(s.log, from, turns, start, s.clock, turn.env.at.gate);
    SequentialAppend(s.log, from, turns, start, turn, now);
    IdleIsFine(next.log, LastClock(turns + [turn], start), now);
    OneWriterMoved(s, next, from, turns, turns + [turn], start, writer);
  }

  /** An operation that ends without writing is a whole one too, run alone where it leaves the log as it is. */
  lemma EmptyStepIsOneRun(s: State, from: Log, turns: seq<Turn>, start: int, writer: WriterId, step: Step, now: int)
    returns (turn: Turn)
    requires Coherent(s, from, turns, start) && Finishes(s, writer, step, now) && (step.PassGate? || step.DecideOn?)
    ensures Take(s, writer, step, now).value.log == s.log == Run(turn.env, s.log, turn.request).log
    ensures turn.request == s.PhaseOf(writer).request && turn.env == s.PhaseOf(writer).env.(at := turn.env.at)
    ensures Coherent(Take(s, writer, step, now).value, from, turns + [turn], start)
  {
    hide Run, Load, PlanOn, Gate, RunAll, Timely, IsRefusedAtTheGate, IsSequential, PersistChallengeRecord, RecordFrom;
    var next, phase := Take(s, writer, step, now).value, s.PhaseOf(writer);
    var at := if step.PassGate? then Times(now, now, now, now, now) else Times(phase.env.at.gate, phase.env.at.load, now, now, now);
    turn := Turn(phase.env.(at := at), phase.request);
    if step.DecideOn? { GateIgnoresLaterTimes(phase.env, phase.request, at); }
    NoPlanIsNoRun(turn.env, s.log, turn.request);
    if step.PassGate? { SequentialLater(s.log, from, turns, start, s.clock, now); } else { SequentialEarlier(s.log, from, turns, start, s.clock, at.gate); }
    SequentialAppend(s.log, from, turns, start, turn, now);
    IdleIsFine(next.log, LastClock(turns + [turn], start), now);
    OneWriterMoved(s, next, from, turns, turns + [turn], start, writer);
  }

  /** Whatever step an operation ends with, it is one whole run of that operation. */
  lemma FinishingStepIsOneRun(s: State, from: Log, turns: seq<Turn>, start: int, writer: WriterId, step: Step, now: int)
    returns (turn: Turn)
    requires Coherent(s, from, turns, start) && Finishes(s, writer, step, now)
    ensures Take(s, writer, step, now).value.log == Run(turn.env, s.log, turn.request).log
    ensures turn.request == s.PhaseOf(writer).request && turn.env == s.PhaseOf(writer).env.(at := turn.env.at)
    ensures Coherent(Take(s, writer, step, now).value, from, turns + [turn], start)
  {
    hide Coherent, Run, Load, PlanOn, IsRefusedAtTheGate, RecordFrom;
    if step.PersistBatch? || step.PersistRecord? {
      turn := WritingStepIsOneRun(s, from, turns, start, writer, step, now);
    } else {
      turn := EmptyStepIsOneRun(s, from, turns, start, writer, step, now);
    }
  }

  lemma WritingFinishes(s: State, writer: WriterId, step: Step, now: int)
    requires Take(s, writer, step, now).Some?
    ensures step.PersistBatch? || step.PersistRecord? ==> Finishes(s, writer, step, now)
    ensures step.Release? || step.Crash? ==> !Finishes(s, writer, step, now)
  {
    hide Load, PlanOn, IsRefusedAtTheGate, RecordFrom;
  }

  lemma SequentialEarlier(log: Log, from: Log, turns: seq<Turn>, start: int, clock: int, at: int)
    requires IsSequential(log, from, turns, start, clock) && LastClock(turns, start) <= at
    ensures IsSequential(log, from, turns, start, at)
  {
    hide RunAll, Timely;
  }

  // ---- Runs ---------------------------------------------------------------------------

  /** Every interleaving leaves the log that the operations it finishes, run one at a time in that order, would have left. */
  lemma {:induction false} EveryReachableStateIsCoherent(s: State, from: Log, turns: seq<Turn>, start: int, moves: seq<Move>)
    returns (more: seq<Turn>)
    requires Coherent(s, from, turns, start) && Play(s, moves).Some?
    ensures Coherent(Play(s, moves).value, from, turns + more, start)
    ensures SameOperations(more, Finished(s, moves))
    decreases |moves|
  {
    hide Take, Coherent, Finishes, Run;
    more := [];
    if moves == [] {
      assert turns + more == turns;
    } else {
      var move := moves[0];
      var next := Take(s, move.writer, move.step, move.now).value;
      WritingFinishes(s, move.writer, move.step, move.now);
      if Finishes(s, move.writer, move.step, move.now) {
        var turn := FinishingStepIsOneRun(s, from, turns, start, move.writer, move.step, move.now);
        FinishedStep(s, moves);
        var rest := EveryReachableStateIsCoherent(next, from, turns + [turn], start, moves[1..]);
        more := [turn] + rest;
        assert turns + more == turns + [turn] + rest;
      } else {
        if move.step.Release? || move.step.Crash? {
          LeavingStepKeepsCoherent(s, from, turns, start, move.writer, move.step, move.now);
        } else {
          ReadingStepKeepsCoherent(s, from, turns, start, move.writer, move.step, move.now);
        }
        more := EveryReachableStateIsCoherent(next, from, turns, start, moves[1..]);
      }
    }
  }

  lemma FinishedStep(s: State, moves: seq<Move>)
    requires moves != [] && Finishes(s, moves[0].writer, moves[0].step, moves[0].now)
    ensures !s.PhaseOf(moves[0].writer).Done? && !s.PhaseOf(moves[0].writer).Idle?
    ensures Take(s, moves[0].writer, moves[0].step, moves[0].now).Some?
  {
    hide Take;
  }

  lemma QuietIsCoherent(log: Log, clock: int)
    ensures Coherent(Quiet(log, clock), log, [], clock)
  {
    assert RunAll(log, []) == log;
  }

  /**
   Concurrent writers are serialized: the log is that of running the operations that are finished one at a time, each
   once and in the order in which they finished, whatever they came to; an operation that a crash cut short is as if it
   had never begun. At most one writer is past its lease, and what it loaded is the durable log as it stands until its
   own append.
   */
  lemma ConcurrentWritersAreSerialized(log: Log, clock: int, moves: seq<Move>) returns (turns: seq<Turn>)
    requires Play(Quiet(log, clock), moves).Some?
    ensures var s := Play(Quiet(log, clock), moves).value;
            && s.log == RunAll(log, turns) && Timely(turns, clock) && LastClock(turns, clock) <= s.clock
            && SameOperations(turns, Finished(Quiet(log, clock), moves))
            && (forall a: WriterId, b: WriterId :: !s.PhaseOf(a).Idle? && !s.PhaseOf(b).Idle? ==> a == b)
            && (forall writer: WriterId :: s.PhaseOf(writer).Loaded? ==>
                  s.lease == Some(writer) && s.PhaseOf(writer).store == Load(s.log, s.PhaseOf(writer).env.at.load))
            && (forall writer: WriterId :: s.PhaseOf(writer).Decided? ==>
                  && s.lease == Some(writer)
                  && PlanOn(s.PhaseOf(writer).env, Load(s.log, s.PhaseOf(writer).env.at.load), s.PhaseOf(writer).request)
                     == Some(s.PhaseOf(writer).pending))
            && (forall writer: WriterId :: s.PhaseOf(writer).Reloaded? ==>
                  s.lease == Some(writer) && s.PhaseOf(writer).store == Load(s.log, s.PhaseOf(writer).env.at.reload))
  {
    hide Play, RunAll, Timely, Load, PlanOn, Quiet, Finished;
    QuietIsCoherent(log, clock);
    QuietIsAt(log, clock);
    turns := EveryReachableStateIsCoherent(Quiet(log, clock), log, [], clock, moves);
    assert [] + turns == turns;
  }

  lemma QuietIsAt(log: Log, clock: int)
    ensures Quiet(log, clock).log == log && Quiet(log, clock).clock == clock
  {
  }

  // ---- A writer left alone ------------------------------------------------------------

  /** How many steps at most are left to a writer. */
  function StepsLeft(phase: Phase): nat
  {
    match phase
    case Idle => 0
    case Done => 1
    case Reloaded(_, _, _, _) => 2
    case Decided(_, _, _) => 3
    case Loaded(_, _, _) => 4
    case Gated(_, _) => 5
    case Holding(_, _) => 6
  }

  function NextStep(phase: Phase): Step
  {
    match phase
    case Holding(_, _) => PassGate
    case Gated(_, _) => LoadLog
    case Loaded(_, _, _) => DecideOn
    case Decided(_, _, pending) => if pending.Append? then PersistBatch else ReloadLog
    case Reloaded(_, _, _, _) => PersistRecord
    case _ => Release
  }

  ghost predicate IsAtRest(s: State) { s.lease == None && forall writer: WriterId :: s.PhaseOf(writer).Idle? }

  /** The writer holds the lease and is at work; no other is. */
  ghost predicate IsAlone(s: State, writer: WriterId)
  {
    s.lease == Some(writer) && forall other: WriterId :: s.PhaseOf(other).Idle? <==> other != writer
  }

  lemma NextStepLeadsOn(s: State, writer: WriterId)
    requires IsAlone(s, writer)
    ensures var phase, next := s.PhaseOf(writer), Take(s, writer, NextStep(s.PhaseOf(writer)), s.clock);
            && next.Some?
            && (phase.Done? ==> IsAtRest(next.value) && !Finishes(s, writer, NextStep(phase), s.clock))
            && (!phase.Done? ==>
                  && IsAlone(next.value, writer) && StepsLeft(next.value.PhaseOf(writer)) < StepsLeft(phase)
                  && (Finishes(s, writer, NextStep(phase), s.clock) <==> next.value.PhaseOf(writer).Done?)
                  && (!next.value.PhaseOf(writer).Done? ==>
                        && next.value.PhaseOf(writer).request == phase.request
                        && next.value.PhaseOf(writer).env == phase.env.(at := next.value.PhaseOf(writer).env.at)))
  {
    hide Load, PlanOn, IsRefusedAtTheGate, RecordFrom;
    var next := Take(s, writer, NextStep(s.PhaseOf(writer)), s.clock).value;
    forall other: WriterId ensures other != writer ==> next.PhaseOf(other) == s.PhaseOf(other) && s.PhaseOf(other).Idle? {}
  }

  ghost predicate IsJustThis(turns: seq<Turn>, env: Env, request: Request)
  {
    |turns| == 1 && turns[0].request == request && turns[0].env == env.(at := turns[0].env.at)
  }

  lemma PlayOn(s: State, move: Move, rest: seq<Move>)
    requires Take(s, move.writer, move.step, move.now).Some?
    ensures var next := Take(s, move.writer, move.step, move.now).value;
            && Play(s, [move] + rest) == Play(next, rest)
            && Finished(s, [move] + rest) ==
                 (if Finishes(s, move.writer, move.step, move.now) then
                    [Turn(s.PhaseOf(move.writer).env, s.PhaseOf(move.writer).request)] + Finished(next, rest)
                  else Finished(next, rest))
  {
    hide Take;
    assert ([move] + rest)[1..] == rest;
  }

  /** A writer left alone comes to its end, with its operation finished, and lets the lease go. */
  lemma {:induction false} LoneWriterFinishes(s: State, writer: WriterId) returns (moves: seq<Move>)
    requires IsAlone(s, writer)
    ensures Play(s, moves).Some? && IsAtRest(Play(s, moves).value)
    ensures if s.PhaseOf(writer).Done? then Finished(s, moves) == []
            else IsJustThis(Finished(s, moves), s.PhaseOf(writer).env, s.PhaseOf(writer).request)
    decreases StepsLeft(s.PhaseOf(writer))
  {
    hide Take, Finishes, StepsLeft;
    var phase := s.PhaseOf(writer);
    var move := Move(writer, NextStep(phase), s.clock);
    NextStepLeadsOn(s, writer);
    var next := Take(s, writer, move.step, s.clock).value;
    if phase.Done? {
      moves := [move] + [];
      PlayOn(s, move, []);
    } else {
      var rest := LoneWriterFinishes(next, writer);
      moves := [move] + rest;
      PlayOn(s, move, rest);
    }
  }

  /** So any operation can be carried out on a log nobody is at work on, and what it leaves is what it leaves when run alone. */
  lemma AnyOperationCanRun(log: Log, clock: int, writer: WriterId, env: Env, request: Request) returns (moves: seq<Move>, turn: Turn)
    ensures Play(Quiet(log, clock), moves).Some? && IsAtRest(Play(Quiet(log, clock), moves).value)
    ensures turn.request == request && turn.env == env.(at := turn.env.at) && clock <= turn.env.at.gate && turn.env.at.InOrder()
    ensures Play(Quiet(log, clock), moves).value.log == Run(turn.env, log, request).log
  {
    hide Run, Load, PlanOn, IsRefusedAtTheGate, RecordFrom, Play, Finished, LastClock;
    var acquire := Move(writer, Acquire(env, request), clock);
    var start := Quiet(log, clock);
    var s := Take(start, writer, acquire.step, clock).value;
    var rest := LoneWriterFinishes(s, writer);
    PlayOn(start, acquire, rest);
    moves := [acquire] + rest;
    var turns := ConcurrentWritersAreSerialized(log, clock, moves);
    turn := turns[0];
    OneTurnRuns(log, clock, turns);
  }

  lemma OneTurnRuns(log: Log, clock: int, turns: seq<Turn>)
    requires |turns| == 1 && Timely(turns, clock)
    ensures RunAll(log, turns) == Run(turns[0].env, log, turns[0].request).log
    ensures clock <= turns[0].env.at.gate && turns[0].env.at.InOrder()
  {
    hide Run;
    assert turns[1..] == [];
    assert RunAll(Run(turns[0].env, log, turns[0].request).log, turns[1..]) == Run(turns[0].env, log, turns[0].request).log;
  }

  lemma {:induction false} RunsKeepIdsDistinct(log: Log, turns: seq<Turn>)
    requires DistinctIds(log)
    ensures DistinctIds(RunAll(log, turns))
    decreases |turns|
  {
    hide Run, DistinctIds;
    if turns != [] {
      RunKeepsIdsDistinct(turns[0].env, log, turns[0].request);
      RunsKeepIdsDistinct(Run(turns[0].env, log, turns[0].request).log, turns[1..]);
    }
  }

  /** No interleaving ever writes an event id twice, whatever ids the log carried to begin with. */
  lemma ConcurrentIdsStayDistinct(log: Log, clock: int, moves: seq<Move>)
    requires DistinctIds(log) && Play(Quiet(log, clock), moves).Some?
    ensures DistinctIds(Play(Quiet(log, clock), moves).value.log)
  {
    hide Play, RunAll, Timely, Load, PlanOn, DistinctIds, Quiet;
    var turns := ConcurrentWritersAreSerialized(log, clock, moves);
    RunsKeepIdsDistinct(log, turns);
  }

  /** What single-writer runs keep, concurrent writers keep. */
  lemma ConcurrentLogIsWellKept(clock: int, moves: seq<Move>)
    requires Play(Quiet([], clock), moves).Some?
    ensures WellKept(Play(Quiet([], clock), moves).value.log, Play(Quiet([], clock), moves).value.clock)
  {
    hide Play, RunAll, Timely, Load, PlanOn, WellKept, Quiet;
    var turns := ConcurrentWritersAreSerialized([], clock, moves);
    EveryReachableLogIsWellKept(turns, clock);
    WellKeptSurvivesTime(RunAll([], turns), LastClock(turns, clock), Play(Quiet([], clock), moves).value.clock);
  }
}
