/** What the firewall lets into a log, said of the events of the log: no override, no laundering, no id twice. */
module Firewall {
  import opened Wrappers
  import opened AuthorityLevels
  import opened FactLog
  import opened FoldMeaning
  import opened Batches

  /**
   The event fits its fact's own stream, bears a new id and, if it supersedes, names a fact of the log that was
   asserted at the level of the superseded one or above.
   */
  predicate IsAdmissible(log: Log, event: FactEvent)
  {
    && FitsAfter(StreamOf(log, event.factId), event)
    && (forall e :: e in log ==> e.eventId != event.eventId)
    && (event.kind.SupersededBy? ==> IsBacked(log, event))
  }

  predicate IsBacked(log: Log, event: FactEvent)
    requires event.kind.SupersededBy?
  {
    var incumbent, successor := StreamOf(log, event.factId), StreamOf(log, event.kind.successor);
    incumbent != [] && successor != [] && Rank(incumbent[0].authority) <= Rank(successor[0].authority)
  }

  predicate IsRefusedFor(log: Log, event: FactEvent, error: StoreError)
  {
    match error
    case Rejected(transition) => IsWrongWith(StreamOf(log, event.factId), event, transition)
    case UnbackedSupersession => event.kind.SupersededBy? && StreamOf(log, event.kind.successor) == []
    case LaunderedAuthority(level) =>
      && event.kind.SupersededBy?
      && var incumbent, successor := StreamOf(log, event.factId), StreamOf(log, event.kind.successor);
         incumbent != [] && successor != [] && level == successor[0].authority && Rank(level) < Rank(incumbent[0].authority)
    case Conflict => exists e :: e in log && e.eventId == event.eventId
    case _ => false
  }

  /** What the projection holds of a fact, by the events on it. */
  lemma LookupMeans(store: Store, id: string)
    requires Replay(store.log) == Ok(store.view)
    ensures id in store.view <==> StreamOf(store.log, id) != []
    ensures id in store.view ==>
              Means(store.view[id], StreamOf(store.log, id)) && store.view[id].authority == StreamOf(store.log, id)[0].authority
  {
    hide Replay, ReplayFact, IsClosedAsTold, IsNamedAsTold, HasSupport;
    ReplayIsPerFact(store.log, id);
    StreamFoldsIff(StreamOf(store.log, id));
  }

  lemma AppliesIffFits(store: Store, event: FactEvent)
    requires Replay(store.log) == Ok(store.view)
    ensures var applied := Apply(Lookup(store.view, event.factId), event);
            && (applied.Ok? <==> FitsAfter(StreamOf(store.log, event.factId), event))
            && (applied.Err? ==> IsWrongWith(StreamOf(store.log, event.factId), event, applied.error))
  {
    hide Replay, Apply, Means, FitsAfter, IsWrongWith;
    LookupMeans(store, event.factId);
    if event.factId in store.view {
      GoesOnIff(store.view[event.factId], StreamOf(store.log, event.factId), event);
    } else {
      OpensWith(event);
    }
  }

  /** The firewall admits exactly the admissible events, and what it refuses one for is so. */
  lemma FirewallAdmitsIff(store: Store, event: FactEvent)
    requires Replay(store.log) == Ok(store.view)
    ensures Append(store, event).Ok? <==> IsAdmissible(store.log, event)
    ensures Append(store, event).Err? ==> IsRefusedFor(store.log, event, Append(store, event).error)
  {
    hide Replay, Apply, FitsAfter, IsWrongWith, Means;
    AppliesIffFits(store, event);
    LookupMeans(store, event.factId);
    if event.kind.SupersededBy? { LookupMeans(store, event.kind.successor); }
    assert HasEventId(store.log, event.eventId) <==> exists e :: e in store.log && e.eventId == event.eventId;
    if FitsAfter(StreamOf(store.log, event.factId), event) { SupersessionHasAnIncumbent(StreamOf(store.log, event.factId), event); }
  }

  lemma SupersessionHasAnIncumbent(before: Log, event: FactEvent)
    requires FitsAfter(before, event)
    ensures event.kind.SupersededBy? ==> before != []
  {
  }

  /** A batch goes in whole exactly when each event of it is admissible after the log and the events before it. */
  lemma {:induction false} BatchIsAdmittedIff(store: Store, events: Log)
    requires Replay(store.log) == Ok(store.view)
    ensures AppendAll(store, events).AllApplied? <==>
            forall i :: 0 <= i < |events| ==> IsAdmissible(store.log + events[..i], events[i])
    decreases |events|
  {
    hide Replay, Append, IsAdmissible;
    if events != [] {
      FirewallAdmitsIff(store, events[0]);
      assert store.log + events[..0] == store.log;
      var next := Append(store, events[0]);
      if next.Ok? {
        var rest := events[1..];
        NextStore(store, events[0]);
        BatchIsAdmittedIff(next.value, rest);
        forall i | 0 <= i < |rest| ensures rest[i] == events[i + 1] && next.value.log + rest[..i] == store.log + events[..i + 1]
        {
          assert events[..i + 1] == [events[0]] + rest[..i];
        }
      }
    }
  }

  lemma NextStore(store: Store, event: FactEvent)
    requires Replay(store.log) == Ok(store.view) && Append(store, event).Ok?
    ensures var next := Append(store, event).value;
            next.log == store.log + [event] && Replay(next.log) == Ok(next.view)
  {
    hide Replay, Apply;
    ReplayAppend(store.log, event);
  }

  /** So in a log that the firewall let in event by event, no supersession hands a fact to a weaker or an absent one. */
  lemma AdmittedLogLaundersNothing(log: Log, i: nat)
    requires i < |log| && AppendAll(Store([], map[]), log).AllApplied? && log[i].kind.SupersededBy?
    ensures IsBacked(log[..i], log[i])
    ensures forall j :: 0 <= j < i ==> log[j].eventId != log[i].eventId
  {
    hide AppendAll, FitsAfter;
    assert Replay([]) == Ok(map[]);
    BatchIsAdmittedIff(Store([], map[]), log);
    assert IsAdmissible([] + log[..i], log[i]) && [] + log[..i] == log[..i];
    forall j | 0 <= j < i ensures log[j].eventId != log[i].eventId { assert log[..i][j] == log[j]; }
  }
}
