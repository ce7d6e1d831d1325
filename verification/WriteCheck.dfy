/** The doctor's write check against a live log: assert at the ceiling, be refused one level below, retract. */
module WriteCheck {
  import opened Wrappers
  import opened EventIds
  import opened FactLog
  import opened FactIndex
  import opened Ops
  import opened OpEffects
  import opened LogInvariants
  import opened Runs
  import opened OpTheorems
  import DoctorProbe

  /** The three writes of the check name one subject and predicate, and the middle one comes from just below. */
  predicate IsProbe(asking: Request, tampering: Request, closing: Request)
  {
    && asking.op.Assert? && tampering.op.Supersede? && closing.op.Retract?
    && asking.subject == tampering.subject == closing.subject && asking.pred == tampering.pred == closing.pred
    && closing.authority == asking.authority
    && DoctorProbe.AuthorityBelow(asking.authority) == Some(tampering.authority)
  }

  /** In this log the fact is believed, at the request's level and with the value it asserted. */
  ghost predicate ProbeStands(log: Log, request: Request, id: string)
  {
    && request.op.Assert? && Replay(log).Ok? && Believes(Replay(log).value, request.subject, request.pred, id)
    && Replay(log).value[id].value == FactValue.Text(request.op.value)
  }

  ghost predicate NothingStands(log: Log, request: Request)
  {
    Replay(log).Ok? && !SomethingBelieved(Replay(log).value, request)
  }

  /** The probe fact is all that is believed about its pair, at the level it was asserted at, and is what gets explained. */
  ghost predicate ProbeIsAlone(log: Log, request: Request, id: string)
  {
    && ProbeStands(log, request, id) && Replay(log).value[id].authority == request.authority
    && (forall other :: Believes(Replay(log).value, request.subject, request.pred, other) ==> other == id)
    && forall now :: ExplainSubject(Store(log, Replay(log).value), request.subject, request.pred, now) == Some(id)
  }

  /**
   Once the probe fact is asserted, the tampering is refused, whatever else the log holds, and the probe fact
   stays believed with its value. Once the retraction is accepted, nothing of the pair is. If nothing was believed
   of the pair to begin with, the probe fact is what is explained, and the retraction is accepted exactly when the
   gates open for it and the log loads.
   */
  lemma WriteCheckRuns(log: Log, clock: int, turns: seq<Turn>)
    requires WellKept(log, clock) && |turns| == 3 && Timely(turns, clock)
    requires IsProbe(turns[0].request, turns[1].request, turns[2].request)
    requires Run(turns[0].env, log, turns[0].request).result.Ok?
    ensures var asked, closing := turns[0].request, turns[2].request;
            var probe := FactId(asked.subject.kind, asked.subject.key, asked.pred, |log|);
            var probed := Run(turns[0].env, log, asked).log;
            var tampered := Run(turns[1].env, probed, turns[1].request);
            var closed := Run(turns[2].env, tampered.log, closing);
            && tampered.result.Err?
            && ProbeStands(tampered.log, asked, probe)
            && (closed.result.Ok? ==> NothingStands(closed.log, closing))
            && (NothingStands(log, asked) ==>
                  ProbeIsAlone(tampered.log, asked, probe)
                  && (closed.result.Ok? <==> Ready(turns[2].env, tampered.log, closing)))
  {
    hide Run, Replay, WellKept, Lawful, FactId, Ready, OutranksAll, Closes, SomethingBelieved, ExplainSubject;
    var asked, tampering := turns[0].request, turns[1].request;
    var probed := Run(turns[0].env, log, asked).log;
    ThreeClocks(turns, clock);
    RunKeepsLogWellKept(turns[0].env, log, asked, clock);
    RunKeepsLogWellKept(turns[1].env, probed, tampering, turns[0].env.at.decide);
    WellKeptIsLawful(log, clock);
    WellKeptIsLawful(probed, turns[0].env.at.decide);
    var tampered := Run(turns[1].env, probed, tampering).log;
    WellKeptIsLawful(tampered, turns[1].env.at.decide);
    var probe := ProbeIsBelieved(turns[0].env, log, asked);
    SupersessionFromBelowIsRefused(turns[1].env, probed, tampering, tampering.op.value, tampering.op.validity, probe);
    ClosingCommits(turns[2].env, tampered, turns[2].request);
    if NothingStands(log, asked) {
      SoleBeliefIsExplained(tampered, asked, probe);
      SoleBeliefIsOutranked(tampered, asked, turns[2].request, probe);
    }
  }

  lemma SoleBeliefIsExplained(log: Log, request: Request, id: string)
    requires Replay(log).Ok? && Believes(Replay(log).value, request.subject, request.pred, id)
    requires forall other :: Believes(Replay(log).value, request.subject, request.pred, other) ==> other == id
    ensures forall now :: ExplainSubject(Store(log, Replay(log).value), request.subject, request.pred, now) == Some(id)
  {
    hide Replay, ExplainSubject, Believes, FactState.IsExpiredAt;
    forall now ensures ExplainSubject(Store(log, Replay(log).value), request.subject, request.pred, now) == Some(id)
    {
      ExplainedFactIsPreferred(Store(log, Replay(log).value), request.subject, request.pred, now);
    }
  }

  lemma SoleBeliefIsOutranked(log: Log, asked: Request, closing: Request, id: string)
    requires Replay(log).Ok? && Believes(Replay(log).value, asked.subject, asked.pred, id)
    requires forall other :: Believes(Replay(log).value, asked.subject, asked.pred, other) ==> other == id
    requires asked.subject == closing.subject && asked.pred == closing.pred
    requires Replay(log).value[id].authority == closing.authority
    ensures SomethingBelieved(Replay(log).value, closing) && OutranksAll(Replay(log).value, closing)
  {
    hide Replay;
  }

  lemma ProbeIsBelieved(env: Env, log: Log, request: Request) returns (probe: string)
    requires Lawful(log) && request.op.Assert? && Run(env, log, request).result.Ok?
    ensures probe == FactId(request.subject.kind, request.subject.key, request.pred, |log|)
    ensures ProbeStands(Run(env, log, request).log, request, probe)
    ensures Replay(Run(env, log, request).log).value[probe].authority == request.authority
    ensures NothingStands(log, request) ==>
              forall other :: Believes(Replay(Run(env, log, request).log).value, request.subject, request.pred, other) ==> other == probe
  {
    hide Run, Replay, Lawful, FactId, Ready, IsValid;
    AssertionCommits(env, log, request, request.op.value, request.op.validity);
    NewFactIsAnAssertion(|log|, request, request.op.value, request.op.validity, env.at.decide);
    ProbeEvent(|log|, request, request.op.value, request.op.validity, env.at.decide);
    probe := FactId(request.subject.kind, request.subject.key, request.pred, |log|);
    if NothingStands(log, request) {
      var before, after := Replay(log).value, Replay(Run(env, log, request).log).value;
      forall other | Believes(after, request.subject, request.pred, other) ensures other == probe
      {
        assert other != probe ==> Lookup(after, other) == Lookup(before, other) && !Believes(before, request.subject, request.pred, other);
      }
    }
  }

  lemma ProbeEvent(n: nat, request: Request, value: string, validity: Validity, now: int)
    ensures var event := NewFact(n, request, value, validity, now);
            && event.factId == FactId(request.subject.kind, request.subject.key, request.pred, n)
            && event.subject == request.subject && event.pred == request.pred
            && event.value == Some(FactValue.Text(value)) && event.authority == request.authority
  {
    hide FactId;
  }

  lemma ThreeClocks(turns: seq<Turn>, clock: int)
    requires |turns| == 3 && Timely(turns, clock)
    ensures clock <= turns[0].env.at.gate && turns[0].env.at.InOrder()
    ensures turns[0].env.at.decide <= turns[1].env.at.gate && turns[1].env.at.InOrder()
  {
    assert turns[1..][0] == turns[1] && turns[1..][1..] == [turns[2]];
  }
}
