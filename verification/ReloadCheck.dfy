/** The reload check as it runs: lineage walks with a growing path, then the fresh beliefs of each pair. */
module ReloadCheck {
  import opened Wrappers
  import opened FactLog
  import opened FactIndex
  import opened Policies
  import opened Reload

  // ---- Following successors -----------------------------------------------------------

  lemma {:induction false} FollowFurther(view: Projection, id: string, k: nat)
    requires Follow(view, id, k).Some?
    ensures Follow(view, id, k + 1) == Successor(view, Follow(view, id, k).value)
    decreases k
  {
    if k == 0 {
      if Successor(view, id).Some? { assert Follow(view, Successor(view, id).value, 0) == Successor(view, id); }
    } else {
      FollowFurther(view, Successor(view, id).value, k - 1);
    }
  }

  lemma {:induction false} FollowSplits(view: Projection, id: string, k: nat, j: nat)
    requires Follow(view, id, k).Some?
    ensures Follow(view, id, k + j) == Follow(view, Follow(view, id, k).value, j)
    decreases k
  {
    if k != 0 { FollowSplits(view, Successor(view, id).value, k - 1, j); }
  }

  /** What a cycle member leads to leads back to it. */
  lemma {:induction false} CycleLeadsBack(view: Projection, id: string, n: nat, p: nat) returns (m: nat)
    requires 0 < p && Follow(view, id, p) == Some(id) && Follow(view, id, n).Some?
    ensures Follow(view, Follow(view, id, n).value, m) == Some(id)
  {
    if n == 0 {
      m := 0;
    } else {
      FollowShorter(view, id, n);
      var before := CycleLeadsBack(view, id, n - 1, p);
      FollowFurther(view, id, n - 1);
      m := if before == 0 then p - 1 else before - 1;
    }
  }

  lemma {:induction false} FollowShorter(view: Projection, id: string, n: nat)
    requires 0 < n && Follow(view, id, n).Some?
    ensures Follow(view, id, n - 1).Some?
    decreases n
  {
    if 1 < n { FollowShorter(view, Successor(view, id).value, n - 1); }
  }

  lemma {:induction false} CycleNeverEnds(view: Projection, id: string, n: nat, p: nat)
    requires 0 < p && Follow(view, id, p) == Some(id)
    ensures Follow(view, id, n).Some?
  {
    if n != 0 {
      CycleNeverEnds(view, id, n - 1, p);
      FollowFurther(view, id, n - 1);
      var m := CycleLeadsBack(view, id, n - 1, p);
    }
  }

  /** A set of facts each succeeded within the set. */
  predicate IsClosed(view: Projection, members: set<string>)
  {
    forall x :: x in members ==> Successor(view, x).Some? && Successor(view, x).value in members
  }

  lemma {:induction false} ClosedSetHoldsWhatFollows(view: Projection, members: set<string>, id: string, k: nat)
    requires IsClosed(view, members) && id in members
    ensures Follow(view, id, k).Some? && Follow(view, id, k).value in members
    decreases k
  {
    if k != 0 { ClosedSetHoldsWhatFollows(view, members, Successor(view, id).value, k - 1); }
  }

  /** A cycle member that leads into a closed set is in it. */
  lemma CycleMemberIsInClosedSet(view: Projection, members: set<string>, id: string, n: nat)
    requires OnCycle(view, id) && IsClosed(view, members)
    requires Follow(view, id, n).Some? && Follow(view, id, n).value in members
    ensures id in members
  {
    hide Follow, IsClosed;
    var p: nat :| 0 < p && Follow(view, id, p) == Some(id);
    var m := CycleLeadsBack(view, id, n, p);
    ClosedSetHoldsWhatFollows(view, members, Follow(view, id, n).value, m);
  }

  lemma DeadEndIsOnNoCycle(view: Projection, id: string, n: nat)
    requires Follow(view, id, n).None?
    ensures !OnCycle(view, id)
  {
    hide Follow;
    if OnCycle(view, id) {
      var p: nat :| 0 < p && Follow(view, id, p) == Some(id);
      CycleNeverEnds(view, id, n, p);
    }
  }

  // ---- Cycle members ------------------------------------------------------------------

  /** The walk so far: from `start`, no fact twice, each the successor of the one before. */
  ghost predicate IsWalk(view: Projection, start: string, path: seq<string>, node: string)
  {
    && (forall i, j :: 0 <= i < j < |path| ==> path[i] != path[j])
    && (forall i :: 0 <= i < |path| ==> Follow(view, start, i) == Some(path[i]))
    && Follow(view, start, |path|) == Some(node)
  }

  lemma WalkEndsAt(view: Projection, start: string, path: seq<string>, node: string)
    requires IsWalk(view, start, path, node)
    ensures Follow(view, start, |path|) == Some(node) && Follow(view, start, |path| + 1) == Successor(view, node)
  {
    hide Follow, Successor;
    FollowFurther(view, start, |path|);
  }

  lemma WalkExtends(view: Projection, start: string, path: seq<string>, node: string, next: string)
    requires IsWalk(view, start, path, node) && node !in path && Successor(view, node) == Some(next)
    ensures IsWalk(view, start, path + [node], next)
  {
    WalkEndsAt(view, start, path, node);
    hide Follow, Successor;
    assert forall k :: 0 <= k < |path| ==> path[k] in path;
  }

  lemma ClosedSetsJoin(view: Projection, a: set<string>, b: set<string>)
    requires IsClosed(view, a) && IsClosed(view, b)
    ensures IsClosed(view, a + b)
  {
    hide Successor;
  }

  lemma MetPartIsACycle(view: Projection, start: string, path: seq<string>, node: string, first: nat, i: nat)
    requires IsWalk(view, start, path, node) && first <= i < |path| && path[first] == node
    ensures Successor(view, path[i]) == Some(if i + 1 < |path| then path[i + 1] else path[first])
    ensures OnCycle(view, path[i])
  {
    hide Follow, Successor;
    var n := |path|;
    FollowFurther(view, start, i);
    FollowSplits(view, start, i, n - i);
    FollowSplits(view, start, first, i - first);
    FollowSplits(view, path[i], n - i, i - first);
    assert Follow(view, path[i], n - i + (i - first)) == Some(path[i]);
  }

  /** When a walk meets its own path, the part from there on is a cycle, and the start is on one only if it is there. */
  lemma WalkThatMeetsItself(view: Projection, start: string, path: seq<string>, node: string, first: nat)
    requires IsWalk(view, start, path, node) && first < |path| && path[first] == node
    ensures var members := set i | first <= i < |path| :: path[i];
            && IsClosed(view, members) && (forall x :: x in members ==> OnCycle(view, x))
            && (OnCycle(view, start) ==> start in members)
  {
    hide Follow, Successor, OnCycle;
    var members := set i | first <= i < |path| :: path[i];
    forall x | x in members
      ensures Successor(view, x).Some? && Successor(view, x).value in members && OnCycle(view, x)
    {
      var i :| first <= i < |path| && path[i] == x;
      MetPartIsACycle(view, start, path, node, first, i);
      if i + 1 < |path| { assert path[i + 1] in members; } else { assert path[first] in members; }
    }
    if OnCycle(view, start) {
      assert path[first] in members;
      CycleMemberIsInClosedSet(view, members, start, first);
    }
  }

  /** `supersession_cycle_members`: the facts among `facts` whose lineage runs in a circle. */
  method SupersessionCycleMembers(view: Projection, facts: seq<string>) returns (onCycle: set<string>)
    requires forall id :: id in facts ==> id in view
    requires forall id :: id in facts && Successor(view, id).Some? ==> Successor(view, id).value in facts
    ensures forall id :: id in facts ==> (id in onCycle <==> OnCycle(view, id))
  {
    hide Follow, Successor, OnCycle;
    onCycle := {};
    for i := 0 to |facts|
      invariant IsClosed(view, onCycle) && forall x :: x in onCycle ==> OnCycle(view, x)
      invariant forall j :: 0 <= j < i && OnCycle(view, facts[j]) ==> facts[j] in onCycle
    {
      if facts[i] !in onCycle {
        onCycle := WalkFrom(view, facts, facts[i], onCycle);
      }
    }
  }

  method WalkFrom(view: Projection, facts: seq<string>, start: string, known: set<string>) returns (onCycle: set<string>)
    requires start in facts && (forall id :: id in facts ==> id in view)
    requires forall id :: id in facts && Successor(view, id).Some? ==> Successor(view, id).value in facts
    requires IsClosed(view, known) && forall x :: x in known ==> OnCycle(view, x)
    ensures known <= onCycle && IsClosed(view, onCycle) && forall x :: x in onCycle ==> OnCycle(view, x)
    ensures OnCycle(view, start) ==> start in onCycle
  {
    var index: map<string, nat>, path: seq<string>, node := map[], [], start;
    ghost var all := set id | id in facts;
    while true
      invariant IsWalk(view, start, path, node) && node in facts
      invariant index.Keys <= all && forall x :: x in index <==> x in path
      invariant forall x :: x in index ==> index[x] < |path| && path[index[x]] == x
      decreases all - index.Keys
    {
      hide Follow, Successor, OnCycle, IsWalk, IsClosed;
      if node in index {
        var first := index[node];
        WalkThatMeetsItself(view, start, path, node, first);
        onCycle := known + set i | first <= i < |path| :: path[i];
        ClosedSetsJoin(view, known, set i | first <= i < |path| :: path[i]);
        return;
      }
      if node in known {
        WalkEndsAt(view, start, path, node);
        if OnCycle(view, start) { CycleMemberIsInClosedSet(view, known, start, |path|); }
        return known;
      }
      WalkEndsAt(view, start, path, node);
      var next := Successor(view, node);
      if next.None? {
        DeadEndIsOnNoCycle(view, start, |path| + 1);
        return known;
      }
      assert node in all - index.Keys;
      WalkExtends(view, start, path, node, next.value);
      index, path, node := index[node := |path|], path + [node], next.value;
    }
  }

  // ---- One subject --------------------------------------------------------------------

  function FactsOf(ids: seq<string>, view: Projection, subject: Subject): seq<string>
  {
    if ids == [] then []
    else (if ids[0] in view && view[ids[0]].subject == subject then [ids[0]] else []) + FactsOf(ids[1..], view, subject)
  }

  lemma {:induction false} FactsOfSelects(ids: seq<string>, view: Projection, subject: Subject)
    ensures forall id :: id in FactsOf(ids, view, subject) <==> id in ids && id in view && view[id].subject == subject
  {
    if ids != [] { FactsOfSelects(ids[1..], view, subject); }
  }

  ghost predicate SubjectIsSound(view: Projection, subject: Subject, now: int)
  {
    forall id :: id in view && view[id].subject == subject ==>
      !OnCycle(view, id) && !Dangles(view, id) && !IsSilentDuplicate(view, id, now)
  }

  /** The fresh beliefs of one predicate among `facts`. */
  function Group(facts: seq<string>, view: Projection, subject: Subject, pred: string, now: int): seq<string>
  {
    if facts == [] then []
    else
      (if FreshBelief(view, subject, pred, facts[0], now) then [facts[0]] else []) + Group(facts[1..], view, subject, pred, now)
  }

  lemma {:induction false} GroupSelects(facts: seq<string>, view: Projection, subject: Subject, pred: string, now: int)
    ensures forall id :: id in Group(facts, view, subject, pred, now) <==> id in facts && FreshBelief(view, subject, pred, id, now)
  {
    hide FreshBelief;
    if facts != [] { GroupSelects(facts[1..], view, subject, pred, now); }
  }

  predicate AllDistinct(ids: seq<string>) { forall i, j :: 0 <= i < j < |ids| ==> ids[i] != ids[j] }

  lemma {:induction false} SelectionsStayDistinct(ids: seq<string>, view: Projection, subject: Subject, pred: string, now: int)
    requires AllDistinct(ids)
    ensures AllDistinct(FactsOf(ids, view, subject)) && AllDistinct(Group(ids, view, subject, pred, now))
  {
    if ids != [] {
      assert AllDistinct(ids[1..]);
      SelectionsStayDistinct(ids[1..], view, subject, pred, now);
      FactsOfSelects(ids[1..], view, subject);
      GroupSelects(ids[1..], view, subject, pred, now);
      assert forall x :: x in ids[1..] ==> x != ids[0];
      hide FactsOf, Group, FreshBelief;
      DistinctCons(ids[0], FactsOf(ids[1..], view, subject));
      DistinctCons(ids[0], Group(ids[1..], view, subject, pred, now));
      FactsOfStep(ids, view, subject);
      GroupStep(ids, view, subject, pred, now);
    }
  }

  lemma FactsOfStep(ids: seq<string>, view: Projection, subject: Subject)
    requires ids != []
    ensures FactsOf(ids, view, subject) == FactsOf(ids[1..], view, subject)
         || FactsOf(ids, view, subject) == [ids[0]] + FactsOf(ids[1..], view, subject)
  {
  }

  lemma GroupStep(ids: seq<string>, view: Projection, subject: Subject, pred: string, now: int)
    requires ids != []
    ensures Group(ids, view, subject, pred, now) == Group(ids[1..], view, subject, pred, now)
         || Group(ids, view, subject, pred, now) == [ids[0]] + Group(ids[1..], view, subject, pred, now)
  {
    hide FreshBelief;
  }

  lemma DistinctCons(id: string, rest: seq<string>)
    requires AllDistinct(rest) && id !in rest
    ensures AllDistinct([id] + rest)
  {
  }

  /** The contested facts of a group and the contradictors they name. */
  method AccountedFor(group: seq<string>, view: Projection) returns (accounted: set<string>)
    requires forall id :: id in group ==> id in view
    ensures forall x :: x in accounted <==>
              exists h :: h in group && view[h].lifecycle.Contested? && (x == h || x in view[h].contradictedBy)
  {
    accounted := {};
    for i := 0 to |group|
      invariant forall x :: x in accounted <==>
                  exists j :: 0 <= j < i && view[group[j]].lifecycle.Contested? && (x == group[j] || x in view[group[j]].contradictedBy)
    {
      if view[group[i]].lifecycle.Contested? {
        accounted := accounted + {group[i]} + set x | x in view[group[i]].contradictedBy;
      }
    }
  }

  lemma GroupFindsSilentDuplicate(
    view: Projection, subject: Subject, facts: seq<string>, group: seq<string>, pred: string, now: int, id: string, accounted: set<string>)
    requires forall x :: x in facts <==> x in view && view[x].subject == subject
    requires forall x :: x in group <==> x in facts && FreshBelief(view, subject, pred, x, now)
    requires forall x :: x in accounted <==>
               exists h :: h in group && view[h].lifecycle.Contested? && (x == h || x in view[h].contradictedBy)
    requires id in group && IsUnique(subject, pred) && AllDistinct(group)
    ensures IsSilentDuplicate(view, id, now) <==> 1 < |group| && id !in accounted
  {
    if 1 < |group| {
      var other := if group[0] == id then group[1] else group[0];
      assert other in group && other != id;
    }
    if other :| other in view && other != id && FreshBelief(view, subject, pred, other, now) {
      assert other in group;
      var i, j :| 0 <= i < |group| && 0 <= j < |group| && group[i] == id && group[j] == other;
    }
    if h :| h in view && FreshBelief(view, subject, pred, h, now) && view[h].lifecycle.Contested? && id in view[h].contradictedBy {
      assert h in group;
    }
  }

  method SubjectHasSilentDuplicate(view: Projection, subject: Subject, facts: seq<string>, now: int) returns (found: bool)
    requires AllDistinct(facts)
    requires forall x :: x in facts <==> x in view && view[x].subject == subject
    ensures found <==> exists id :: id in facts && IsSilentDuplicate(view, id, now)
  {
    for i := 0 to |facts|
      invariant forall j :: 0 <= j < i ==> !IsSilentDuplicate(view, facts[j], now)
    {
      hide FreshBelief, IsSilentDuplicate, AllDistinct, NamedByFreshContest, HasFreshOther, IsUnique;
      var pred := view[facts[i]].pred;
      if FreshBelief(view, subject, pred, facts[i], now) && IsUnique(subject, pred) {
        var group := Group(facts, view, subject, pred, now);
        GroupSelects(facts, view, subject, pred, now);
        SelectionsStayDistinct(facts, view, subject, pred, now);
        var accounted := AccountedFor(group, view);
        GroupFindsSilentDuplicate(view, subject, facts, group, pred, now, facts[i], accounted);
        if 1 < |group| && facts[i] !in accounted { return true; }
      } else {
        SilentDuplicatesAreFreshAndUnique(view, facts[i], now);
      }
    }
    return false;
  }

  lemma SilentDuplicatesAreFreshAndUnique(view: Projection, id: string, now: int)
    requires id in view
    ensures IsSilentDuplicate(view, id, now) ==>
              FreshBelief(view, view[id].subject, view[id].pred, id, now) && IsUnique(view[id].subject, view[id].pred)
  {
  }

  lemma SuccessorHasTheSubject(view: Projection, id: string)
    requires Successor(view, id).Some?
    ensures id in view && Successor(view, id).value in view && view[Successor(view, id).value].subject == view[id].subject
  {
  }

  method ValidateSubject(store: Store, subject: Subject, now: int) returns (sound: bool)
    requires Replay(store.log) == Ok(store.view)
    ensures sound <==> SubjectIsSound(store.view, subject, now)
  {
    hide Replay, Follow, IsSilentDuplicate, OnCycle, Sorted, FactsOf, FactIds, Dangles, AllDistinct, Successor;
    var view, ids := store.view, FactIds(store.log);
    FactIdsAreSorted(store.log);
    ViewHoldsTheLoggedFacts(store.log);
    var facts := FactsOf(ids, view, subject);
    FactsOfSelects(ids, view, subject);
    SortedIsDistinct(ids);
    SelectionsStayDistinct(ids, view, subject, "", now);
    forall id | id in facts && Successor(view, id).Some? ensures Successor(view, id).value in facts
    {
      SuccessorHasTheSubject(view, id);
    }
    var onCycle := SupersessionCycleMembers(view, facts);
    for i := 0 to |facts|
      invariant forall j :: 0 <= j < i ==> !OnCycle(view, facts[j]) && !Dangles(view, facts[j])
    {
      assert facts[i] in facts;
      if facts[i] in onCycle || Dangles(view, facts[i]) { return false; }
    }
    var duplicate := SubjectHasSilentDuplicate(view, subject, facts, now);
    return !duplicate;
  }

  lemma SortedIsDistinct(ids: seq<string>)
    requires Sorted(ids)
    ensures AllDistinct(ids)
  {
    hide Before;
    forall i, j | 0 <= i < j < |ids| ensures ids[i] != ids[j] { BeforeIsStrict(ids[i], ids[j]); }
  }

  // ---- The whole log ------------------------------------------------------------------

  /** A fact's subject is that of some event of the log. */
  lemma {:induction false} SubjectsAreLogged(log: Log, id: string)
    requires Replay(log).Ok? && id in Replay(log).value
    ensures exists i :: 0 <= i < |log| && log[i].subject == Replay(log).value[id].subject
  {
    var n := |log| - 1;
    if log[n].factId == id {
      AppliedSubject(Lookup(Replay(log[..n]).value, id), log[n]);
      assert log[n].subject == Replay(log).value[id].subject;
    } else {
      hide Apply;
      SubjectsAreLogged(log[..n], id);
      var i :| 0 <= i < n && log[..n][i].subject == Replay(log[..n]).value[id].subject;
      assert log[i].subject == Replay(log).value[id].subject;
    }
  }

  lemma AppliedSubject(current: Option<FactState>, event: FactEvent)
    requires Apply(current, event).Ok?
    ensures Apply(current, event).value.subject == event.subject
  {
  }

  /** `validate_unique_log`: each subject once, in the order the log first mentions it. */
  method ValidateUniqueLog(store: Store, now: int) returns (sound: bool)
    requires Replay(store.log) == Ok(store.view)
    ensures sound <==> IsSound(store.view, now)
  {
    hide Replay, SubjectIsSound;
    var seen: set<Subject> := {};
    for i := 0 to |store.log|
      invariant forall j :: 0 <= j < i ==> store.log[j].subject in seen
      invariant forall subject :: subject in seen ==> SubjectIsSound(store.view, subject, now)
    {
      var subject := store.log[i].subject;
      if subject !in seen {
        seen := seen + {subject};
        var fine := ValidateSubject(store, subject, now);
        if !fine {
          UnsoundSubjectUnsoundLog(store.view, subject, now);
          return false;
        }
      }
    }
    SoundSubjectsSoundLog(store, now);
    return true;
  }

  lemma UnsoundSubjectUnsoundLog(view: Projection, subject: Subject, now: int)
    requires !SubjectIsSound(view, subject, now)
    ensures !IsSound(view, now)
  {
  }

  lemma SoundSubjectsSoundLog(store: Store, now: int)
    requires Replay(store.log) == Ok(store.view)
    requires forall j :: 0 <= j < |store.log| ==> SubjectIsSound(store.view, store.log[j].subject, now)
    ensures IsSound(store.view, now)
  {
    hide Replay, OnCycle, Dangles, IsSilentDuplicate;
    forall id | id in store.view ensures !OnCycle(store.view, id) && !Dangles(store.view, id) && !IsSilentDuplicate(store.view, id, now)
    {
      SubjectsAreLogged(store.log, id);
      var j :| 0 <= j < |store.log| && store.log[j].subject == store.view[id].subject;
      assert SubjectIsSound(store.view, store.log[j].subject, now);
    }
  }
}
