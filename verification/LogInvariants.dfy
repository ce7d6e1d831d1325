/**
 What every log the operations build satisfies, and when such a log passes the reload check.

 `Lawful` is structural: ids count the log, every fact id carries the number of its assertion, and
 supersessions point to facts born later. `Balanced` is about belief at a clock: of two unexpired
 beliefs about one unique predicate, each is contested or named by a contested one.
 */
module LogInvariants {
  import opened Wrappers
  import opened EventIds
  import opened FactLog
  import opened FactIndex
  import opened Policies
  import opened Reload
  import opened Ops
  import opened Batches
  import opened OpEffects

  // ---- Birth --------------------------------------------------------------------------

  /** The index of a fact's first event; the length of the log if it has none. */
  function Born(log: Log, id: string): nat
  {
    if log == [] || log[0].factId == id then 0 else 1 + Born(log[1..], id)
  }

  lemma {:induction false} BirthStays(log: Log, events: Log, id: string)
    ensures Born(log, id) <= |log|
    ensures Born(log, id) < |log| ==> Born(log + events, id) == Born(log, id)
    ensures Born(log, id) == |log| ==> Born(log + events, id) == |log| + Born(events, id)
  {
    if log == [] {
      assert log + events == events;
    } else {
      assert (log + events)[1..] == log[1..] + events;
      BirthStays(log[1..], events, id);
    }
  }

  lemma {:induction false} UnbornIsUnmentioned(log: Log, id: string)
    requires forall i :: 0 <= i < |log| ==> log[i].factId != id
    ensures Born(log, id) == |log|
  {
    if log != [] {
      assert forall i :: 0 <= i < |log[1..]| ==> log[1..][i] == log[i + 1];
      UnbornIsUnmentioned(log[1..], id);
    }
  }

  ghost predicate WellBorn(log: Log, view: Projection, id: string)
  {
    && id in view && Born(log, id) < |log| && view[id].factId == id
    && id == FactId(view[id].subject.kind, view[id].subject.key, view[id].pred, Born(log, id))
    && (view[id].supersededBy.Some? ==>
          var successor := view[id].supersededBy.value;
          successor in view && view[successor].subject == view[id].subject && Born(log, id) < Born(log, successor))
  }

  ghost predicate Lawful(log: Log)
  {
    && Numbered(log) && Replay(log).Ok?
    && forall id :: id in Replay(log).value ==> WellBorn(log, Replay(log).value, id)
  }

  /** A minted fact id names no fact of the log. */
  lemma MintedFactIsFresh(log: Log, request: Request)
    requires Lawful(log)
    ensures NextSeq(log) == |log| && MintedFact(log, request) !in Replay(log).value
    ensures Rehydrated(Store(log, Replay(log).value))
  {
    hide Replay, Numbered, FactId, NextSeq;
    NextSeqOfNumbered(log);
    var id, view := MintedFact(log, request), Replay(log).value;
    if id in view {
      FactIdNumber(request.subject.kind, request.subject.key, request.pred, |log|,
                   view[id].subject.kind, view[id].subject.key, view[id].pred, Born(log, id));
    }
  }

  // ---- How a projection evolves -------------------------------------------------------

  ghost predicate Evolves(before: Projection, after: Projection, newborn: Option<string>)
  {
    && (forall id :: id in before ==>
          && id in after && SameFact(before[id], after[id])
          && (after[id].supersededBy == before[id].supersededBy ||
              (newborn.Some? && after[id].supersededBy == newborn && newborn.value in after
               && after[newborn.value].subject == before[id].subject)))
    && (forall id :: id in after ==> id in before || newborn == Some(id))
    && (newborn.Some? ==>
          && newborn.value !in before && newborn.value in after
          && after[newborn.value].supersededBy == None && after[newborn.value].factId == newborn.value)
  }

  lemma SameFactKeepsIdentity(a: FactState, b: FactState)
    requires SameFact(a, b)
    ensures b.factId == a.factId && b.subject == a.subject && b.pred == a.pred
    ensures forall now :: b.IsExpiredAt(now) == a.IsExpiredAt(now)
  {
  }

  lemma StandingKeepsFact(a: FactState, b: FactState)
    requires SameStanding(a, b)
    ensures SameFact(a, b) && b.supersededBy == a.supersededBy && b.lifecycle == a.lifecycle
    ensures b.contradictedBy == a.contradictedBy
  {
  }

  /** An older fact keeps its birth, and points at most to a fact born later. */
  lemma OldFactStaysWellBorn(log: Log, events: Log, before: Projection, after: Projection, newborn: Option<string>, id: string)
    requires forall x :: x in before ==> WellBorn(log, before, x)
    requires Evolves(before, after, newborn) && id in before
    requires newborn.Some? ==> Born(log + events, newborn.value) == |log|
    ensures WellBorn(log + events, after, id)
  {
    hide FactId, Born, SameFact;
    BirthStays(log, events, id);
    SameFactKeepsIdentity(before[id], after[id]);
    assert WellBorn(log, before, id);
    var next := before[id].supersededBy;
    if next.Some? {
      BirthStays(log, events, next.value);
      assert WellBorn(log, before, next.value);
      SameFactKeepsIdentity(before[next.value], after[next.value]);
    }
  }

  /** A numbered batch whose projection evolves keeps the log lawful. */
  lemma LawfulStep(log: Log, events: Log, newborn: Option<string>)
    requires Lawful(log) && NumberedFrom(events, |log|) && Replay(log + events).Ok?
    requires Evolves(Replay(log).value, Replay(log + events).value, newborn)
    requires newborn.Some? ==>
               var state := Replay(log + events).value[newborn.value];
               && events != [] && events[0].factId == newborn.value
               && newborn.value == FactId(state.subject.kind, state.subject.key, state.pred, |log|)
    ensures Lawful(log + events)
  {
    NumberedAppend(log, events);
    var before, after := Replay(log).value, Replay(log + events).value;
    hide Replay, Numbered, FactId, Born, SameFact, WellBorn, NumberedFrom;
    if newborn.Some? {
      NotInView(log, newborn.value);
      BirthStays(log, events, newborn.value);
      BornAtTheHead(events, newborn.value);
    }
    forall id | id in after ensures WellBorn(log + events, after, id)
    {
      if id in before {
        OldFactStaysWellBorn(log, events, before, after, newborn, id);
      } else {
        NewFactIsWellBorn(log + events, after, id, |log|);
      }
    }
  }

  lemma NewFactIsWellBorn(log: Log, view: Projection, id: string, n: nat)
    requires id in view && view[id].factId == id && view[id].supersededBy == None
    requires Born(log, id) == n < |log| && id == FactId(view[id].subject.kind, view[id].subject.key, view[id].pred, n)
    ensures WellBorn(log, view, id)
  {
  }

  lemma NotInView(log: Log, id: string)
    requires Replay(log).Ok? && id !in Replay(log).value
    ensures Born(log, id) == |log|
  {
    hide Replay;
    ViewHoldsTheLoggedFacts(log);
    UnbornIsUnmentioned(log, id);
  }

  lemma BornAtTheHead(events: Log, id: string)
    requires events != [] && events[0].factId == id
    ensures Born(events, id) == 0
  {
  }

  // ---- Balance ------------------------------------------------------------------------

  /** Two unexpired beliefs about one unique predicate of one subject. */
  ghost predicate Rivals(view: Projection, a: string, b: string, clock: int)
  {
    && a in view && b in view && a != b && IsUnique(view[a].subject, view[a].pred)
    && FreshBelief(view, view[a].subject, view[a].pred, a, clock)
    && FreshBelief(view, view[a].subject, view[a].pred, b, clock)
  }

  ghost predicate NamedByContest(view: Projection, h: string, a: string)
  {
    a in view && h in view && Believes(view, view[a].subject, view[a].pred, h)
    && view[h].lifecycle.Contested? && a in view[h].contradictedBy
  }

  ghost predicate Accounted(view: Projection, a: string)
  {
    a in view && (view[a].lifecycle.Contested? || exists h :: NamedByContest(view, h, a))
  }

  ghost predicate Balanced(view: Projection, clock: int)
  {
    forall a, b :: Rivals(view, a, b, clock) ==> Accounted(view, a)
  }

  /** Balance survives the passage of time: fewer beliefs are unexpired later. */
  lemma BalanceSurvivesTime(view: Projection, clock: int, later: int)
    requires Balanced(view, clock) && clock <= later
    ensures Balanced(view, later)
  {
    forall a, b | Rivals(view, a, b, later) ensures Accounted(view, a)
    {
      assert Rivals(view, a, b, clock);
    }
  }

  /** What one fact of a projection contributes to balance is the same in another. */
  ghost predicate SameWeight(before: Projection, after: Projection, id: string)
  {
    id in before && id in after && SameFact(before[id], after[id])
    && after[id].lifecycle == before[id].lifecycle && after[id].contradictedBy == before[id].contradictedBy
  }

  lemma EqualLookupIsSameWeight(before: Projection, after: Projection, id: string)
    requires Lookup(after, id) == Lookup(before, id) && (id in before || id in after)
    ensures SameWeight(before, after, id)
  {
    StandingIsReflexive(before[id]);
  }

  lemma SameWeightCounts(before: Projection, after: Projection, id: string)
    requires SameWeight(before, after, id)
    ensures after[id].subject == before[id].subject && after[id].pred == before[id].pred
    ensures forall subject, pred :: Believes(after, subject, pred, id) <==> Believes(before, subject, pred, id)
    ensures forall now :: Fresh(after, id, now) <==> Fresh(before, id, now)
  {
    hide SameFact, FactState.IsExpiredAt;
    SameFactKeepsIdentity(before[id], after[id]);
  }

  lemma AccountStays(before: Projection, after: Projection, a: string)
    requires Accounted(before, a) && SameWeight(before, after, a)
    requires forall h :: NamedByContest(before, h, a) ==> SameWeight(before, after, h)
    ensures Accounted(after, a)
  {
    hide SameFact, Believes;
    SameWeightCounts(before, after, a);
    if !after[a].lifecycle.Contested? {
      var h :| NamedByContest(before, h, a);
      SameWeightCounts(before, after, h);
      assert NamedByContest(after, h, a);
    }
  }

  /** Closing every belief of one pair leaves nothing there to balance, and the rest as it was. */
  lemma ClosingKeepsBalance(before: Projection, after: Projection, subject: Subject, pred: string, clock: int)
    requires Closes(before, after, subject, pred) && Balanced(before, clock)
    ensures Balanced(after, clock) && Evolves(before, after, None)
  {
    hide SameFact, FactState.IsExpiredAt;
    forall id ensures id in before ==> id in after && SameFact(before[id], after[id]) && after[id].supersededBy == before[id].supersededBy
              ensures id in after ==> id in before
    {
      if !Believes(before, subject, pred, id) {
        assert Lookup(after, id) == Lookup(before, id);
        if id in before { StandingIsReflexive(before[id]); }
      }
    }
    OutsidePairKeepsBalance(before, after, subject, pred, clock);
  }

  /** Facts outside the pair are untouched and nothing of the pair is believed: balance carries over. */
  lemma OutsidePairKeepsBalance(before: Projection, after: Projection, subject: Subject, pred: string, clock: int)
    requires Balanced(before, clock)
    requires forall id :: id in after ==> id in before && SameFact(before[id], after[id])
    requires forall id :: !Believes(before, subject, pred, id) ==> Lookup(after, id) == Lookup(before, id)
    requires forall id :: !Believes(after, subject, pred, id)
    ensures Balanced(after, clock)
  {
    hide SameFact, FactState.IsExpiredAt, Accounted;
    forall a, b | Rivals(after, a, b, clock) ensures Accounted(after, a)
    {
      ElsewhereIsSame(before, after, subject, pred, a);
      ElsewhereIsSame(before, after, subject, pred, b);
      assert Rivals(before, a, b, clock);
      forall h | NamedByContest(before, h, a) ensures SameWeight(before, after, h)
      {
        EqualLookupIsSameWeight(before, after, h);
      }
      AccountStays(before, after, a);
    }
  }

  lemma ElsewhereIsSame(before: Projection, after: Projection, subject: Subject, pred: string, id: string)
    requires id in after && id in before && SameFact(before[id], after[id])
    requires !Believes(before, subject, pred, id) ==> Lookup(after, id) == Lookup(before, id)
    requires after[id].Believed() && !Believes(after, subject, pred, id)
    ensures SameWeight(before, after, id)
    ensures after[id].subject == before[id].subject && after[id].pred == before[id].pred
    ensures !Believes(before, subject, pred, id)
    ensures forall s, p :: Believes(after, s, p, id) <==> Believes(before, s, p, id)
    ensures forall now :: Fresh(after, id, now) <==> Fresh(before, id, now)
  {
    hide SameFact, FactState.IsExpiredAt;
    SameFactKeepsIdentity(before[id], after[id]);
    EqualLookupIsSameWeight(before, after, id);
    SameWeightCounts(before, after, id);
  }

  lemma StandingKeepsBalance(before: Projection, after: Projection, clock: int)
    requires KeepsStanding(before, after) && Balanced(before, clock)
    ensures Balanced(after, clock) && Evolves(before, after, None)
  {
    hide SameFact, SameStanding, FactState.IsExpiredAt, Accounted, Believes;
    forall id | id in before
      ensures SameWeight(before, after, id) && after[id].supersededBy == before[id].supersededBy
      ensures after[id].subject == before[id].subject && after[id].pred == before[id].pred
      ensures forall s, p :: Believes(after, s, p, id) <==> Believes(before, s, p, id)
      ensures forall now :: Fresh(after, id, now) <==> Fresh(before, id, now)
    {
      StandingKeepsFact(before[id], after[id]);
      SameWeightCounts(before, after, id);
    }
    forall a, b | Rivals(after, a, b, clock) ensures Accounted(after, a)
    {
      assert Rivals(before, a, b, clock);
      AccountStays(before, after, a);
    }
  }

  /** A fact that is nobody's concern yet: active, naming no one. */
  lemma NewbornFacts(state: FactState, event: FactEvent)
    requires IsNewborn(state, event)
    ensures state.factId == event.factId && state.subject == event.subject && state.pred == event.pred
    ensures state.lifecycle == Active && state.supersededBy == None && state.Believed()
  {
  }

  /** After a revision the replacement is the pair's only belief, so there is nothing to balance there. */
  lemma RevisionKeepsBalance(before: Projection, after: Projection, subject: Subject, pred: string, fact: string, event: FactEvent, clock: int)
    requires Replaces(before, after, subject, pred, fact, event) && Balanced(before, clock)
    requires event.subject == subject && event.pred == pred && event.factId == fact
    ensures Balanced(after, clock) && Evolves(before, after, Some(fact))
  {
    NewbornFacts(after[fact], event);
    hide SameFact, FactState.IsExpiredAt, IsNewborn, Accounted;
    forall id | id in before
      ensures id in after && SameFact(before[id], after[id]) && after[id].subject == before[id].subject
      ensures after[id].supersededBy == before[id].supersededBy ||
              (after[id].supersededBy == Some(fact) && before[id].subject == subject)
      ensures !Believes(before, subject, pred, id) ==> Lookup(after, id) == Lookup(before, id)
      ensures !Believes(after, subject, pred, id)
    {
      if Believes(before, subject, pred, id) {
        SameFactKeepsIdentity(before[id], after[id]);
      } else {
        assert Lookup(after, id) == Lookup(before, id);
        StandingIsReflexive(before[id]);
      }
    }
    forall id | id in after && id != fact ensures id in before { assert Believes(before, subject, pred, id) || Lookup(after, id) == Lookup(before, id); }
    forall a, b | Rivals(after, a, b, clock) ensures Accounted(after, a)
    {
      assert a != fact && b != fact;
      ElsewhereIsSame(before, after, subject, pred, a);
      ElsewhereIsSame(before, after, subject, pred, b);
      assert Rivals(before, a, b, clock);
      forall h | NamedByContest(before, h, a) ensures SameWeight(before, after, h)
      {
        EqualLookupIsSameWeight(before, after, h);
      }
      AccountStays(before, after, a);
    }
  }

  /** A fresh assertion admitted by policy has no unexpired rival. */
  lemma AssertionKeepsBalance(before: Projection, after: Projection, event: FactEvent, clock: int)
    requires Adds(before, after, event.factId, event) && Balanced(before, clock)
    requires event.kind.Asserted? && EnforcePolicy(before, event, clock) == None
    ensures Balanced(after, clock) && Evolves(before, after, Some(event.factId))
  {
    var fact := event.factId;
    NewbornFacts(after[fact], event);
    hide SameFact, FactState.IsExpiredAt, IsNewborn, ExceedsCeiling, Accounted;
    forall id | id in before ensures id in after && after[id] == before[id] && SameFact(before[id], after[id]) && SameWeight(before, after, id)
    {
      assert Lookup(after, id) == Lookup(before, id);
      EqualLookupIsSameWeight(before, after, id);
    }
    forall id | id in after && id != fact ensures id in before { assert Lookup(after, id) == Lookup(before, id); }
    forall a, b | Rivals(after, a, b, clock) ensures Accounted(after, a)
    {
      assert IsUnique(event.subject, event.pred) ==>
          forall id :: id in before && Believes(before, event.subject, event.pred, id) && Fresh(before, id, clock) ==> id == fact;
      assert Rivals(before, a, b, clock);
      forall h | NamedByContest(before, h, a) ensures SameWeight(before, after, h) {}
      AccountStays(before, after, a);
    }
  }

  /** A contradiction lands on a belief that is unexpired whenever any is, so every rival pair stays accounted for. */
  lemma ContradictionKeepsBalance(before: Projection, after: Projection, incumbent: string, fact: string, event: FactEvent, clock: int)
    requires Contests(before, after, incumbent, fact, event) && Balanced(before, clock)
    requires event.factId == fact && Believes(before, event.subject, event.pred, incumbent)
    requires forall other :: FreshBelief(before, event.subject, event.pred, other, clock) ==> Fresh(before, incumbent, clock)
    ensures Balanced(after, clock) && Evolves(before, after, Some(fact))
  {
    NewbornFacts(after[fact], event);
    SameFactKeepsIdentity(before[incumbent], after[incumbent]);
    hide SameFact, FactState.IsExpiredAt, IsNewborn;
    forall id | id in before
      ensures id in after && SameFact(before[id], after[id]) && after[id].supersededBy == before[id].supersededBy
      ensures after[id].subject == before[id].subject && after[id].pred == before[id].pred
      ensures after[id].Believed() == before[id].Believed() && Fresh(after, id, clock) == Fresh(before, id, clock)
      ensures before[id].lifecycle.Contested? ==> after[id].lifecycle.Contested?
      ensures forall x :: x in before[id].contradictedBy ==> x in after[id].contradictedBy
    {
      if id != incumbent {
        assert Lookup(after, id) == Lookup(before, id);
        StandingIsReflexive(before[id]);
      }
    }
    forall id | id in after && id != fact ensures id in before
    {
      assert id != incumbent ==> Lookup(after, id) == Lookup(before, id);
    }
    assert NamedByContest(after, incumbent, fact);
    forall a, b | Rivals(after, a, b, clock) ensures Accounted(after, a)
    {
      if a != fact && a != incumbent {
        ContestedRivalWasAccounted(before, after, incumbent, fact, event, clock, a, b);
        if !before[a].lifecycle.Contested? {
          var h :| NamedByContest(before, h, a);
          assert NamedByContest(after, h, a);
        }
      }
    }
  }

  /** A rival that is neither the new fact nor the incumbent had an unexpired rival already. */
  lemma ContestedRivalWasAccounted(
    before: Projection, after: Projection, incumbent: string, fact: string, event: FactEvent, clock: int, a: string, b: string)
    requires Balanced(before, clock) && Rivals(after, a, b, clock) && a != fact && a != incumbent
    requires fact in after && after[fact].subject == event.subject && after[fact].pred == event.pred
    requires Believes(before, event.subject, event.pred, incumbent)
    requires forall other :: FreshBelief(before, event.subject, event.pred, other, clock) ==> Fresh(before, incumbent, clock)
    requires forall id :: id in after && id != fact ==>
               && id in before && after[id].subject == before[id].subject && after[id].pred == before[id].pred
               && after[id].Believed() == before[id].Believed() && Fresh(after, id, clock) == Fresh(before, id, clock)
    ensures Accounted(before, a)
  {
    hide FactState.IsExpiredAt, Accounted;
    if b == fact {
      assert FreshBelief(before, event.subject, event.pred, a, clock);
      assert Rivals(before, a, incumbent, clock);
    } else {
      assert Rivals(before, a, b, clock);
    }
  }

  // ---- Who names whom -----------------------------------------------------------------

  /** A contest names facts of the projection, and no fact is named by two. */
  ghost predicate NamedOnce(view: Projection)
  {
    && (forall h, a :: h in view && a in view[h].contradictedBy ==> a in view)
    && (forall g, h, a :: g in view && h in view && a in view[g].contradictedBy && a in view[h].contradictedBy ==> g == h)
  }

  /** Nobody names anyone new: an old fact names whom it named, a new one nobody. */
  lemma KeptNamesAreNamedOnce(before: Projection, after: Projection)
    requires NamedOnce(before) && forall id :: id in before ==> id in after
    requires forall id :: id in after && after[id].contradictedBy != [] ==>
               id in before && after[id].contradictedBy == before[id].contradictedBy
    ensures NamedOnce(after)
  {
  }

  lemma ClosingKeepsNames(before: Projection, after: Projection, subject: Subject, pred: string)
    requires Closes(before, after, subject, pred) && NamedOnce(before)
    ensures NamedOnce(after)
  {
    hide SameFact, NamedOnce;
    forall id ensures id in before <==> id in after
              ensures id in before ==> after[id].contradictedBy == before[id].contradictedBy
    {
      if !Believes(before, subject, pred, id) { assert Lookup(after, id) == Lookup(before, id); }
    }
    KeptNamesAreNamedOnce(before, after);
  }

  lemma StandingKeepsNames(before: Projection, after: Projection)
    requires KeepsStanding(before, after) && NamedOnce(before)
    ensures NamedOnce(after)
  {
    hide SameStanding, NamedOnce;
    forall id | id in before ensures id in after && after[id].contradictedBy == before[id].contradictedBy
    {
      StandingKeepsFact(before[id], after[id]);
    }
    KeptNamesAreNamedOnce(before, after);
  }

  lemma RevisionKeepsNames(before: Projection, after: Projection, subject: Subject, pred: string, fact: string, event: FactEvent)
    requires Replaces(before, after, subject, pred, fact, event) && NamedOnce(before)
    ensures NamedOnce(after)
  {
    hide SameFact, NamedOnce;
    forall id | id != fact ensures id in before <==> id in after
                           ensures id in before ==> after[id].contradictedBy == before[id].contradictedBy
    {
      if !Believes(before, subject, pred, id) { assert Lookup(after, id) == Lookup(before, id); }
    }
    KeptNamesAreNamedOnce(before, after);
  }

  lemma AssertionKeepsNames(before: Projection, after: Projection, fact: string, event: FactEvent)
    requires Adds(before, after, fact, event) && NamedOnce(before)
    ensures NamedOnce(after)
  {
    hide NamedOnce;
    forall id | id != fact ensures id in before <==> id in after
                           ensures id in before ==> after[id] == before[id]
    {
      assert Lookup(after, id) == Lookup(before, id);
    }
    KeptNamesAreNamedOnce(before, after);
  }

  /** A contradiction names a fact just minted, which nobody else can name. */
  lemma ContradictionKeepsNames(before: Projection, after: Projection, incumbent: string, fact: string, event: FactEvent)
    requires Contests(before, after, incumbent, fact, event) && NamedOnce(before)
    ensures NamedOnce(after)
  {
    hide SameFact;
    forall id | id != fact && id != incumbent ensures id in before <==> id in after
                                              ensures id in before ==> after[id] == before[id]
    {
      assert Lookup(after, id) == Lookup(before, id);
    }
    forall h, a | h in after && a in after[h].contradictedBy
      ensures h in before && ((a == fact && h == incumbent) || (a != fact && a in before[h].contradictedBy))
    {
      assert h != fact;
    }
  }
}
