/** Applying a batch: what it does to the log, to the projection and to the event ids. */
module Batches {
  import opened Wrappers
  import opened EventIds
  import opened FactLog
  import opened Reload
  import opened Identity
  import opened Ops

  // ---- The fold and the store ---------------------------------------------------------

  lemma ReplayAppend(log: Log, event: FactEvent)
    requires Replay(log).Ok?
    ensures Replay(log + [event]) == Step(Replay(log).value, event)
  {
    assert (log + [event])[..|log|] == log;
  }

  /** Appending to a rehydrated store keeps it the fold of its own log. */
  lemma {:induction false} AppendedStoreIsTheFold(store: Store, events: Log)
    requires Replay(store.log) == Ok(store.view)
    ensures match AppendAll(store, events)
            case AllApplied(after) => after.log == store.log + events && Replay(after.log) == Ok(after.view)
            case Stopped(event, _) => event in events
    decreases |events|
  {
    hide Replay, Step, Arbitrate, HasEventId;
    if events == [] {
      assert store.log + events == store.log;
    } else {
      var next := Append(store, events[0]);
      if next.Ok? {
        ReplayAppend(store.log, events[0]);
        AppendedStoreIsTheFold(next.value, events[1..]);
        assert store.log + [events[0]] + events[1..] == store.log + events;
      }
    }
  }

  lemma ApplyIgnoresAttestation(current: Option<FactState>, event: FactEvent, signed: Option<WriteAttestation>)
    ensures Apply(current, event.(attestation := signed)) == Apply(current, event)
  {
  }

  /** Signing changes nothing about what a log means. */
  lemma {:induction false} ReplayIgnoresAttestations(a: Log, b: Log)
    requires SameContent(a, b)
    ensures Replay(a) == Replay(b)
    decreases |a|
  {
    hide Apply;
    if a != [] {
      var n := |a| - 1;
      ReplayIgnoresAttestations(a[..n], b[..n]);
      if Replay(a[..n]).Ok? {
        ApplyIgnoresAttestation(Lookup(Replay(a[..n]).value, a[n].factId), a[n], b[n].attestation);
      }
    }
  }

  lemma SignedSuffixReplays(log: Log, events: Log, signed: Log)
    requires SameContent(events, signed)
    ensures Replay(log + signed) == Replay(log + events)
  {
    ReplayIgnoresAttestations(log + events, log + signed) by {
      assert forall i :: 0 <= i < |log| ==> (log + signed)[i] == (log + events)[i] == (log + events)[i].(attestation := log[i].attestation);
      assert forall i :: |log| <= i < |log + events| ==> (log + signed)[i] == signed[i - |log|] && (log + events)[i] == events[i - |log|];
    }
  }

  // ---- Event ids ----------------------------------------------------------------------

  lemma {:induction false} NextSeqExceedsEveryNumber(log: Log, i: nat)
    requires i < |log| && EventNumber(log[i].eventId).Some?
    ensures EventNumber(log[i].eventId).value < NextSeq(log)
  {
    hide EventNumber;
    if i < |log| - 1 { NextSeqExceedsEveryNumber(log[..|log| - 1], i); }
  }

  /** The ids minted on a log are on no event of it, whatever ids the log carries. */
  lemma MintedIdsAreFresh(log: Log, k: nat)
    requires NextSeq(log) <= k
    ensures !HasEventId(log, EventId(k))
  {
    hide EventNumber;
    if HasEventId(log, EventId(k)) {
      var i :| 0 <= i < |log| && log[i].eventId == EventId(k);
      EventNumberOfId(k);
      NextSeqExceedsEveryNumber(log, i);
    }
  }

  /** The events carry consecutive numbers from `n` on. */
  predicate NumberedFrom(events: Log, n: nat)
  {
    forall i :: 0 <= i < |events| ==> events[i].eventId == EventId(n + i)
  }

  /** The `i`-th event of the log carries the number `i`. */
  predicate Numbered(log: Log) { NumberedFrom(log, 0) }

  lemma {:induction false} NextSeqOfNumbered(log: Log)
    requires Numbered(log)
    ensures NextSeq(log) == |log|
  {
    hide EventId, EventNumber;
    if log != [] {
      assert log[..|log| - 1] == log[..|log| - 1];
      NextSeqOfNumbered(log[..|log| - 1]);
      EventNumberOfId(|log| - 1);
    }
  }

  lemma NumberedAppend(log: Log, events: Log)
    requires Numbered(log) && NumberedFrom(events, |log|)
    ensures Numbered(log + events)
  {
    hide EventId;
    forall i | 0 <= i < |log + events| ensures (log + events)[i].eventId == EventId(0 + i)
    {
      if |log| <= i { assert (log + events)[i] == events[i - |log|]; }
    }
  }

  lemma NumberedIdsAreDistinct(log: Log)
    requires Numbered(log)
    ensures DistinctIds(log)
  {
    hide EventId;
    forall i, j | 0 <= i < j < |log| ensures log[i].eventId != log[j].eventId
    {
      if log[i].eventId == log[j].eventId { EventIdInjective(i, j); }
    }
  }

  /** Minted numbers keep any log's ids distinct. */
  lemma MintedBatchKeepsIdsDistinct(log: Log, events: Log)
    requires DistinctIds(log) && NumberedFrom(events, NextSeq(log))
    ensures DistinctIds(log + events)
  {
    hide EventId, NextSeq;
    var n, all := NextSeq(log), log + events;
    forall i, j | 0 <= i < j < |all| ensures all[i].eventId != all[j].eventId
    {
      if |log| <= j {
        assert all[j] == events[j - |log|];
        if i < |log| {
          MintedIdsAreFresh(log, n + (j - |log|));
          assert all[i] == log[i];
        } else {
          assert all[i] == events[i - |log|];
          if all[i].eventId == all[j].eventId { EventIdInjective(n + (i - |log|), n + (j - |log|)); }
        }
      }
    }
  }

  // ---- Independent batches ------------------------------------------------------------

  predicate DistinctFacts(events: Log)
  {
    forall i, j :: 0 <= i < j < |events| ==> events[i].factId != events[j].factId
  }

  /** No event of the batch touches a fact another one touches or names as successor. */
  predicate Independent(events: Log)
  {
    && DistinctFacts(events)
    && forall i, j :: 0 <= i < |events| && 0 <= j < |events| && events[i].kind.SupersededBy? ==>
         events[j].factId != events[i].kind.successor
  }

  /** The verdict on an event depends only on its own fact and on the successor it names. */
  lemma ArbitrateDependsOn(a: Projection, b: Projection, event: FactEvent)
    requires Lookup(a, event.factId) == Lookup(b, event.factId)
    requires event.kind.SupersededBy? ==> Lookup(a, event.kind.successor) == Lookup(b, event.kind.successor)
    ensures Arbitrate(a, event) == Arbitrate(b, event)
  {
    hide Apply;
  }

  lemma AdmittedEventApplies(store: Store, event: FactEvent)
    requires !HasEventId(store.log, event.eventId)
    ensures match Append(store, event)
            case Ok(after) =>
              && Arbitrate(store.view, event) == None && after.log == store.log + [event]
              && Apply(Lookup(store.view, event.factId), event).Ok?
              && after.view == store.view[event.factId := Apply(Lookup(store.view, event.factId), event).value]
            case Err(error) => Arbitrate(store.view, event) == Some(error)
  {
    hide Apply;
  }

  lemma FreshTail(log: Log, events: Log, n: nat)
    requires events != [] && NumberedFrom(events, n) && forall k: nat :: n <= k ==> !HasEventId(log, EventId(k))
    ensures NumberedFrom(events[1..], n + 1)
    ensures forall k: nat :: n + 1 <= k ==> !HasEventId(log + [events[0]], EventId(k))
  {
    hide EventId;
    forall i | 0 <= i < |events[1..]| ensures events[1..][i].eventId == EventId(n + 1 + i)
    {
      assert events[i + 1].eventId == EventId(n + (i + 1));
    }
    forall k: nat | n + 1 <= k ensures !HasEventId(log + [events[0]], EventId(k))
    {
      assert forall i :: 0 <= i < |log| ==> (log + [events[0]])[i].eventId != EventId(k) by {
        assert !HasEventId(log, EventId(k));
      }
      assert events[0].eventId == EventId(n + 0);
      if EventId(n) == EventId(k) { EventIdInjective(n, k); }
    }
  }

  /** Each event acted on its own fact as it was before the batch; nothing else moved. */
  ghost predicate ActsSeparately(before: Projection, events: Log, after: Projection)
  {
    && (forall i :: 0 <= i < |events| ==>
          events[i].factId in after && Apply(Lookup(before, events[i].factId), events[i]) == Ok(after[events[i].factId]))
    && (forall id :: (forall i :: 0 <= i < |events| ==> events[i].factId != id) ==> Lookup(after, id) == Lookup(before, id))
  }

  /** An independent batch with fresh ids is judged event by event against the state before it. */
  lemma {:induction false} IndependentBatch(store: Store, events: Log, n: nat)
    requires Independent(events) && NumberedFrom(events, n)
    requires forall k: nat :: n <= k ==> !HasEventId(store.log, EventId(k))
    ensures match AppendAll(store, events)
            case AllApplied(after) =>
              && (forall i :: 0 <= i < |events| ==> Arbitrate(store.view, events[i]) == None)
              && ActsSeparately(store.view, events, after.view)
            case Stopped(event, error) =>
              exists i :: 0 <= i < |events| && event == events[i] && Arbitrate(store.view, events[i]) == Some(error)
    decreases |events|
  {
    hide Apply, Arbitrate, HasEventId, EventId;
    if events != [] {
      assert events[0].eventId == EventId(n + 0);
      AdmittedEventApplies(store, events[0]);
      FreshTail(store.log, events, n);
      var rest := events[1..];
      assert forall i :: 0 <= i < |rest| ==> rest[i] == events[i + 1];
      assert Independent(rest);
      var next := Append(store, events[0]);
      if next.Ok? {
        IndependentBatch(next.value, rest, n + 1);
        forall i | 0 <= i < |rest| ensures Arbitrate(next.value.view, rest[i]) == Arbitrate(store.view, events[i + 1])
        {
          ArbitrateDependsOn(next.value.view, store.view, rest[i]);
        }
        match AppendAll(store, events)
        case AllApplied(after) =>
          SeparateActsCompose(store.view, events, next.value.view, after.view);
          forall i | 0 <= i < |events| ensures Arbitrate(store.view, events[i]) == None
          {
            if i != 0 { assert events[i] == rest[i - 1]; }
          }
        case Stopped(event, error) =>
          var i :| 0 <= i < |rest| && event == rest[i] && Arbitrate(next.value.view, rest[i]) == Some(error);
          assert event == events[i + 1];
      } else {
        assert events[0] == events[0];
      }
    }
  }

  lemma SeparateActsCompose(before: Projection, events: Log, middle: Projection, after: Projection)
    requires events != [] && DistinctFacts(events)
    requires Apply(Lookup(before, events[0].factId), events[0]).Ok?
    requires middle == before[events[0].factId := Apply(Lookup(before, events[0].factId), events[0]).value]
    requires ActsSeparately(middle, events[1..], after)
    ensures ActsSeparately(before, events, after)
  {
    hide Apply;
    var rest := events[1..];
    assert forall i :: 0 <= i < |rest| ==> rest[i] == events[i + 1];
    forall i | 0 <= i < |events|
      ensures events[i].factId in after && Apply(Lookup(before, events[i].factId), events[i]) == Ok(after[events[i].factId])
    {
      if i == 0 {
        assert forall j :: 0 <= j < |rest| ==> rest[j].factId != events[0].factId;
        assert Lookup(after, events[0].factId) == Lookup(middle, events[0].factId);
      } else {
        assert rest[i - 1] == events[i];
        assert events[0].factId != events[i].factId;
      }
    }
    forall id | forall i :: 0 <= i < |events| ==> events[i].factId != id
      ensures Lookup(after, id) == Lookup(before, id)
    {
      assert events[0].factId != id;
      assert forall i :: 0 <= i < |rest| ==> rest[i].factId != id;
    }
  }
}
