/** The per-predicate policy of the coding-agent registry, enforced on plain assertions. */
module Policies {
  import opened Wrappers
  import opened AuthorityLevels
  import opened FactLog
  import opened FactIndex

  const DEFAULT_MAX_TTL_MS: nat := 90 * 24 * 60 * 60 * 1000
  const VOLATILE_RETENTION_CEILING_MS: nat := 7 * 24 * 60 * 60 * 1000
  const ONE_HOUR_MS: nat := 3_600_000

  datatype Policy = Policy(authorityFloor: AuthorityLevel, defaultTtl: Ttl, unique: bool, volatile: bool)

  function PolicyFor(subject: Subject, pred: string): Option<Policy>
  {
    if subject.kind == "repo" && pred == "database" then Some(Policy(High, Never, true, false))
    else if subject.kind == "repo" && pred == "test_command" then Some(Policy(Medium, Never, true, false))
    else if subject.kind == "dependency" && pred == "version" then Some(Policy(Medium, Never, true, true))
    else if subject.kind == "branch" && pred == "status" then Some(Policy(Low, DurationMillis(ONE_HOUR_MS), true, true))
    else if subject.kind == "user" && pred == "preference" then Some(Policy(Medium, Never, true, false))
    else None
  }

  predicate IsUnique(subject: Subject, pred: string)
  {
    PolicyFor(subject, pred).Some? && PolicyFor(subject, pred).value.unique
  }

  /** An assertion that leaves its TTL unset takes the predicate's default. */
  function ApplyPolicyDefaults(event: FactEvent): FactEvent
  {
    var policy := PolicyFor(event.subject, event.pred);
    if policy.Some? && event.kind.Asserted? && event.ttl == Never then event.(ttl := policy.value.defaultTtl) else event
  }

  function Reach(at: int, anchor: int): nat { if at <= anchor then 0 else at - anchor }

  /** Where the reach of a TTL is measured from: the observation does not count here, unlike in the fold. */
  function TtlAnchor(event: FactEvent): int { if event.validFrom.Some? then event.validFrom.value else event.recordedAt }

  /** How far the claimed TTL reaches, if it claims an end at all. */
  function BoundedTtl(event: FactEvent): Option<nat>
  {
    match event.ttl
    case Never => None
    case DurationMillis(millis) => Some(millis)
    case ExpiresAt(at) => Some(Reach(at, TtlAnchor(event)))
  }

  /** A volatile predicate bounds the validity window too; the registry-wide default does not. */
  predicate ExceedsCeiling(event: FactEvent)
  {
    var policy, ttl := PolicyFor(event.subject, event.pred), BoundedTtl(event);
    var volatile := policy.Some? && policy.value.volatile;
    var ceiling := if volatile then VOLATILE_RETENTION_CEILING_MS else DEFAULT_MAX_TTL_MS;
    || (ttl.Some? && ceiling < ttl.value)
    || (volatile && event.validTo.Some? && VOLATILE_RETENTION_CEILING_MS < Reach(event.validTo.value, Anchor(event)))
  }

  /** Another fact of the pair is believed and unexpired. */
  predicate HasFreshRival(view: Projection, event: FactEvent, now: int)
  {
    exists id :: id in view && id != event.factId && Believes(view, event.subject, event.pred, id) && Fresh(view, id, now)
  }

  function EnforcePolicy(view: Projection, event: FactEvent, now: int): Option<StoreError>
  {
    var policy := PolicyFor(event.subject, event.pred);
    if !event.kind.Asserted? then None
    else if policy.Some? && !AtMost(policy.value.authorityFloor, event.authority) then Some(BelowAuthorityFloor)
    else if ExceedsCeiling(event) then Some(TtlCeilingExceeded)
    else if policy.Some? && policy.value.unique && HasFreshRival(view, event, now) then Some(UniquenessViolation)
    else None
  }
}

/** The check every load runs: one fact may not silently shadow or duplicate another. */
module Reload {
  import opened Wrappers
  import opened FactLog
  import opened FactIndex
  import opened Policies

  predicate DistinctIds(log: Log)
  {
    forall i, j :: 0 <= i < j < |log| ==> log[i].eventId != log[j].eventId
  }

  /** The superseding fact, when the subject has it. */
  function Successor(view: Projection, id: string): Option<string>
  {
    if id in view && view[id].supersededBy.Some?
       && view[id].supersededBy.value in view && view[view[id].supersededBy.value].subject == view[id].subject
    then view[id].supersededBy
    else None
  }

  function Follow(view: Projection, id: string, k: nat): Option<string>
    decreases k
  {
    if k == 0 then Some(id)
    else if Successor(view, id).Some? then Follow(view, Successor(view, id).value, k - 1)
    else None
  }

  ghost predicate OnCycle(view: Projection, id: string)
  {
    exists k: nat :: 0 < k && Follow(view, id, k) == Some(id)
  }

  predicate Dangles(view: Projection, id: string)
  {
    id in view && view[id].supersededBy.Some? && Successor(view, id).None?
  }

  predicate FreshBelief(view: Projection, subject: Subject, pred: string, id: string, now: int)
  {
    Believes(view, subject, pred, id) && Fresh(view, id, now)
  }

  /** A fresh contested fact of the pair names `id` as its contradictor. */
  predicate NamedByFreshContest(view: Projection, subject: Subject, pred: string, id: string, now: int)
  {
    exists h :: h in view && FreshBelief(view, subject, pred, h, now)
                && view[h].lifecycle.Contested? && id in view[h].contradictedBy
  }

  predicate HasFreshOther(view: Projection, subject: Subject, pred: string, id: string, now: int)
  {
    exists other :: other in view && other != id && FreshBelief(view, subject, pred, other, now)
  }

  /** A second fresh belief about a unique predicate that no fresh contest explains. */
  predicate IsSilentDuplicate(view: Projection, id: string, now: int)
  {
    id in view &&
    var state := view[id];
    && IsUnique(state.subject, state.pred)
    && FreshBelief(view, state.subject, state.pred, id, now)
    && HasFreshOther(view, state.subject, state.pred, id, now)
    && !state.lifecycle.Contested?
    && !NamedByFreshContest(view, state.subject, state.pred, id, now)
  }

  ghost predicate IsSound(view: Projection, now: int)
  {
    forall id :: id in view ==> !OnCycle(view, id) && !Dangles(view, id) && !IsSilentDuplicate(view, id, now)
  }

  /** `load_store` on a readable log: the rehydrated store, or nothing when a check fails. */
  ghost function Load(log: Log, now: int): Option<Store>
  {
    if DistinctIds(log) && Replay(log).Ok? && IsSound(Replay(log).value, now) then Some(Store(log, Replay(log).value))
    else None
  }
}
