/** The facts of a log in fact-id order, and the ones believed about a subject and predicate. */
module FactIndex {
  import opened Wrappers
  import opened FactLog

  /** The order of a `BTreeMap` keyed by fact id. */
  predicate Before(a: string, b: string)
    decreases |a|
  {
    if b == "" then false
    else if a == "" then true
    else if a[0] != b[0] then a[0] < b[0]
    else Before(a[1..], b[1..])
  }

  predicate Sorted(ids: seq<string>)
  {
    forall i, j :: 0 <= i < j < |ids| ==> Before(ids[i], ids[j])
  }

  function Insert(ids: seq<string>, id: string): seq<string>
    decreases |ids|
  {
    if ids == [] then [id]
    else if ids[0] == id then ids
    else if Before(id, ids[0]) then [id] + ids
    else [ids[0]] + Insert(ids[1..], id)
  }

  /** Every fact id of the log, once, in order. */
  function FactIds(log: Log): seq<string>
  {
    if log == [] then [] else Insert(FactIds(log[..|log| - 1]), log[|log| - 1].factId)
  }

  /** The fact is held, about this subject and predicate. */
  predicate Believes(view: Projection, subject: Subject, pred: string, id: string)
  {
    id in view && view[id].subject == subject && view[id].pred == pred && view[id].Believed()
  }

  function Select(ids: seq<string>, view: Projection, subject: Subject, pred: string): seq<string>
    decreases |ids|
  {
    if ids == [] then []
    else (if Believes(view, subject, pred, ids[0]) then [ids[0]] else []) + Select(ids[1..], view, subject, pred)
  }

  /** `believed_fact_ids`. */
  function BelievedFactIds(store: Store, subject: Subject, pred: string): seq<string>
  {
    Select(FactIds(store.log), store.view, subject, pred)
  }

  predicate ContestedAndFresh(view: Projection, id: string, now: int)
  {
    id in view && view[id].lifecycle.Contested? && !view[id].IsExpiredAt(now)
  }

  predicate Fresh(view: Projection, id: string, now: int)
  {
    id in view && !view[id].IsExpiredAt(now)
  }

  function FirstContested(ids: seq<string>, view: Projection, now: int): Option<string>
    decreases |ids|
  {
    if ids == [] then None
    else if ContestedAndFresh(view, ids[0], now) then Some(ids[0])
    else FirstContested(ids[1..], view, now)
  }

  function FirstFresh(ids: seq<string>, view: Projection, now: int): Option<string>
    decreases |ids|
  {
    if ids == [] then None
    else if Fresh(view, ids[0], now) then Some(ids[0])
    else FirstFresh(ids[1..], view, now)
  }

  /** `explain_subject`: a contested fresh fact first, then a fresh one, then any believed one. */
  function ExplainSubject(store: Store, subject: Subject, pred: string, now: int): Option<string>
  {
    var ids := BelievedFactIds(store, subject, pred);
    var contested, unexpired := FirstContested(ids, store.view, now), FirstFresh(ids, store.view, now);
    if contested.Some? then contested
    else if unexpired.Some? then unexpired
    else if ids != [] then Some(ids[0]) else None
  }

  // ---- Order --------------------------------------------------------------------------

  lemma {:induction false} BeforeIsStrict(a: string, b: string)
    ensures !Before(a, a)
    ensures a == b || Before(a, b) || Before(b, a)
    decreases |a|
  {
    if a != "" {
      BeforeIsStrict(a[1..], if b == "" then "" else b[1..]);
      if b != "" && a[0] == b[0] { assert a == [a[0]] + a[1..] && b == [b[0]] + b[1..]; }
    }
  }

  lemma {:induction false} BeforeIsTransitive(a: string, b: string, c: string)
    requires Before(a, b) && Before(b, c)
    ensures Before(a, c)
    decreases |a|
  {
    if a != "" && a[0] == b[0] && b[0] == c[0] { BeforeIsTransitive(a[1..], b[1..], c[1..]); }
  }

  lemma HeadIsLeast(ids: seq<string>, x: string)
    requires Sorted(ids) && ids != [] && x in ids[1..]
    ensures Before(ids[0], x)
  {
    hide Before;
    var k :| 0 <= k < |ids[1..]| && ids[1..][k] == x;
    assert ids[k + 1] == x;
  }

  lemma {:induction false} InsertKeepsSorted(ids: seq<string>, id: string)
    requires Sorted(ids)
    ensures Sorted(Insert(ids, id))
    ensures forall x :: x in Insert(ids, id) <==> x in ids || x == id
    decreases |ids|
  {
    hide Before;
    if ids != [] && ids[0] != id {
      BeforeIsStrict(id, ids[0]);
      if Before(id, ids[0]) {
        forall j | 0 <= j < |ids| ensures Before(id, ids[j])
        {
          if j != 0 { BeforeIsTransitive(id, ids[0], ids[j]); }
        }
      } else {
        assert ids == [ids[0]] + ids[1..];
        InsertKeepsSorted(ids[1..], id);
        var rest := Insert(ids[1..], id);
        forall j | 0 <= j < |rest| ensures Before(ids[0], rest[j])
        {
          assert rest[j] in rest;
          if rest[j] != id { HeadIsLeast(ids, rest[j]); }
        }
      }
    }
  }

  lemma {:induction false} FactIdsAreSorted(log: Log)
    ensures Sorted(FactIds(log))
    ensures forall id :: id in FactIds(log) <==> exists i :: 0 <= i < |log| && log[i].factId == id
  {
    hide Before;
    if log != [] {
      var front := log[..|log| - 1];
      FactIdsAreSorted(front);
      InsertKeepsSorted(FactIds(front), log[|log| - 1].factId);
      forall id ensures id in FactIds(log) <==> exists i :: 0 <= i < |log| && log[i].factId == id
      {
        if i :| 0 <= i < |front| && front[i].factId == id { assert log[i].factId == id; }
        if i :| 0 <= i < |log| && log[i].factId == id { assert i < |front| ==> front[i].factId == id; }
        assert log[|log| - 1].factId in FactIds(log);
      }
    }
  }

  /** A replayed view holds exactly the facts the log mentions. */
  lemma {:induction false} ViewHoldsTheLoggedFacts(log: Log)
    requires Replay(log).Ok?
    ensures forall id :: id in Replay(log).value <==> exists i :: 0 <= i < |log| && log[i].factId == id
  {
    hide Apply;
    if log != [] {
      var front := log[..|log| - 1];
      ViewHoldsTheLoggedFacts(front);
      forall id ensures id in Replay(log).value <==> exists i :: 0 <= i < |log| && log[i].factId == id
      {
        if i :| 0 <= i < |front| && front[i].factId == id { assert log[i].factId == id; }
        if i :| 0 <= i < |log| && log[i].factId == id { assert i < |front| ==> front[i].factId == id; }
        assert log[|log| - 1].factId in Replay(log).value;
      }
    }
  }

  lemma {:induction false} SelectKeepsSorted(ids: seq<string>, view: Projection, subject: Subject, pred: string)
    requires Sorted(ids)
    ensures Sorted(Select(ids, view, subject, pred))
    ensures forall id :: id in Select(ids, view, subject, pred) <==> id in ids && Believes(view, subject, pred, id)
    decreases |ids|
  {
    hide Before, Believes;
    if ids != [] {
      assert Sorted(ids[1..]);
      SelectKeepsSorted(ids[1..], view, subject, pred);
      var rest := Select(ids[1..], view, subject, pred);
      forall j | 0 <= j < |rest| ensures Before(ids[0], rest[j])
      {
        assert rest[j] in rest;
        HeadIsLeast(ids, rest[j]);
      }
    }
  }

  /** The believed facts, each once, in fact-id order: none missing, none extra. */
  lemma BelievedFactIdsAreTheBelieved(store: Store, subject: Subject, pred: string)
    requires Replay(store.log) == Ok(store.view)
    ensures var ids := BelievedFactIds(store, subject, pred);
            && Sorted(ids)
            && (forall i, j :: 0 <= i < j < |ids| ==> ids[i] != ids[j])
            && (forall id :: id in ids <==> Believes(store.view, subject, pred, id))
  {
    hide Before, Replay;
    FactIdsAreSorted(store.log);
    ViewHoldsTheLoggedFacts(store.log);
    SelectKeepsSorted(FactIds(store.log), store.view, subject, pred);
    var ids := BelievedFactIds(store, subject, pred);
    forall i, j | 0 <= i < j < |ids| ensures ids[i] != ids[j] { BeforeIsStrict(ids[i], ids[j]); }
  }

  lemma {:induction false} FirstContestedFinds(ids: seq<string>, view: Projection, now: int)
    requires Sorted(ids)
    ensures match FirstContested(ids, view, now)
            case Some(id) =>
              && id in ids && ContestedAndFresh(view, id, now)
              && forall other :: other in ids && ContestedAndFresh(view, other, now) ==> other == id || Before(id, other)
            case None => forall id :: id in ids ==> !ContestedAndFresh(view, id, now)
    decreases |ids|
  {
    hide Before, ContestedAndFresh;
    if ids != [] {
      FirstContestedFinds(ids[1..], view, now);
      forall other | other in ids[1..] ensures Before(ids[0], other) { HeadIsLeast(ids, other); }
    }
  }

  lemma {:induction false} FirstFreshFinds(ids: seq<string>, view: Projection, now: int)
    requires Sorted(ids)
    ensures match FirstFresh(ids, view, now)
            case Some(id) =>
              && id in ids && Fresh(view, id, now)
              && forall other :: other in ids && Fresh(view, other, now) ==> other == id || Before(id, other)
            case None => forall id :: id in ids ==> !Fresh(view, id, now)
    decreases |ids|
  {
    hide Before, Fresh;
    if ids != [] {
      FirstFreshFinds(ids[1..], view, now);
      forall other | other in ids[1..] ensures Before(ids[0], other) { HeadIsLeast(ids, other); }
    }
  }

  /** The lower, the sooner explained: contested and unexpired, then unexpired, then expired. */
  function Preference(view: Projection, id: string, now: int): nat
  {
    if id !in view || view[id].IsExpiredAt(now) then 2
    else if view[id].lifecycle == Contested then 0 else 1
  }

  /** Believed, and of the most preferred of the pair the first in fact-id order. */
  ghost predicate IsExplained(view: Projection, subject: Subject, pred: string, now: int, id: string)
  {
    && Believes(view, subject, pred, id)
    && forall other :: Believes(view, subject, pred, other) ==>
         || Preference(view, id, now) < Preference(view, other, now)
         || (Preference(view, id, now) == Preference(view, other, now) && (other == id || Before(id, other)))
  }

  /** What is explained is the most preferred of what is believed; nothing is only where nothing is believed. */
  lemma ExplainedFactIsPreferred(store: Store, subject: Subject, pred: string, now: int)
    requires Replay(store.log) == Ok(store.view)
    ensures match ExplainSubject(store, subject, pred, now)
            case None => forall id :: !Believes(store.view, subject, pred, id)
            case Some(id) => IsExplained(store.view, subject, pred, now, id)
  {
    hide Replay, FactState.IsExpiredAt, Believes, Before;
    var ids := BelievedFactIds(store, subject, pred);
    BelievedFactIdsAreTheBelieved(store, subject, pred);
    FirstContestedFinds(ids, store.view, now);
    FirstFreshFinds(ids, store.view, now);
    if ids != [] {
      assert ids[0] in ids;
      forall other | other in ids ensures other == ids[0] || Before(ids[0], other)
      {
        var k :| 0 <= k < |ids| && ids[k] == other;
      }
    }
  }

  lemma ExplainedIsFreshWhereAnyIs(view: Projection, subject: Subject, pred: string, now: int, id: string)
    requires IsExplained(view, subject, pred, now, id)
    ensures forall other :: Believes(view, subject, pred, other) && Fresh(view, other, now) ==> Fresh(view, id, now)
  {
    hide FactState.IsExpiredAt, Before;
  }

  lemma OneIsExplained(view: Projection, subject: Subject, pred: string, now: int, a: string, b: string)
    requires IsExplained(view, subject, pred, now, a) && IsExplained(view, subject, pred, now, b)
    ensures a == b
  {
    hide Believes, Preference;
    if a != b {
      BeforeIsTransitive(a, b, a);
      BeforeIsStrict(a, b);
    }
  }
}
