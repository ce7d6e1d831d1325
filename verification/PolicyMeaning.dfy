/** What the predicate policy of the coding-agent registry comes to, for any event. */
module PolicyMeaning {
  import opened Wrappers
  import opened AuthorityLevels
  import opened FactLog
  import opened FactIndex
  import opened Policies

  predicate IsBranchStatus(subject: Subject, pred: string) { subject.kind == "branch" && pred == "status" }

  /** Facts that are only ever kept for a week. */
  predicate IsShortLived(subject: Subject, pred: string)
  {
    IsBranchStatus(subject, pred) || (subject.kind == "dependency" && pred == "version")
  }

  /** Facts of which at most one is held as current. */
  predicate IsOneAtATime(subject: Subject, pred: string)
  {
    || IsShortLived(subject, pred)
    || (subject.kind == "repo" && pred in {"database", "test_command"})
    || (subject.kind == "user" && pred == "preference")
  }

  predicate ReachesTheFloor(subject: Subject, pred: string, level: AuthorityLevel)
  {
    var pair := (subject.kind, pred);
    && (pair == ("repo", "database") ==> level == High || level == Canonical)
    && (pair == ("repo", "test_command") || pair == ("dependency", "version") || pair == ("user", "preference") ==>
          level != Unknown && level != Low)
    && (pair == ("branch", "status") ==> level != Unknown)
  }

  /** Its TTL claims the fact for no longer than this, counted from the start of its validity, else from its recording. */
  predicate ClaimsAtMost(event: FactEvent, limit: nat)
  {
    match event.ttl
    case Never => true
    case DurationMillis(millis) => millis <= limit
    case ExpiresAt(at) => at - (if event.validFrom.Some? then event.validFrom.value else event.recordedAt) <= limit
  }

  /** Nothing is claimed for more than 90 days; what is short-lived for no more than a week, its end of validity included. */
  predicate StaysInRetention(event: FactEvent)
  {
    if IsShortLived(event.subject, event.pred) then
      && ClaimsAtMost(event, 604_800_000)
      && (event.validTo.Some? ==>
            var anchor := if event.validFrom.Some? then event.validFrom.value
                          else if event.observedAt.Some? then event.observedAt.value
                          else event.recordedAt;
            event.validTo.value - anchor <= 604_800_000)
    else ClaimsAtMost(event, 7_776_000_000)
  }

  /** No other fact of a one-at-a-time pair is believed and unexpired. */
  ghost predicate IsUnrivalled(view: Projection, event: FactEvent, now: int)
  {
    IsOneAtATime(event.subject, event.pred) ==>
      forall id :: id != event.factId && Believes(view, event.subject, event.pred, id) ==> view[id].IsExpiredAt(now)
  }

  lemma FloorIff(subject: Subject, pred: string, level: AuthorityLevel)
    ensures ReachesTheFloor(subject, pred, level) <==>
            var policy := PolicyFor(subject, pred);
            policy.Some? ==> AtMost(policy.value.authorityFloor, level)
  {
  }

  lemma RetentionIff(event: FactEvent)
    ensures ExceedsCeiling(event) <==> !StaysInRetention(event)
  {
    assert DEFAULT_MAX_TTL_MS == 7_776_000_000 && VOLATILE_RETENTION_CEILING_MS == 604_800_000;
  }

  lemma UniqueIff(subject: Subject, pred: string)
    ensures IsOneAtATime(subject, pred) <==> PolicyFor(subject, pred).Some? && PolicyFor(subject, pred).value.unique
  {
  }

  lemma RivalIff(view: Projection, event: FactEvent, now: int)
    ensures HasFreshRival(view, event, now) <==>
            exists id :: id != event.factId && Believes(view, event.subject, event.pred, id) && !view[id].IsExpiredAt(now)
  {
    hide FactState.IsExpiredAt;
    if id :| id != event.factId && Believes(view, event.subject, event.pred, id) && !view[id].IsExpiredAt(now) {
      assert id in view && Fresh(view, id, now);
    }
  }

  /** The policy judges assertions only: their level first, then what they claim, then whether the pair is free. */
  lemma PolicyAdmitsIff(view: Projection, event: FactEvent, now: int)
    ensures EnforcePolicy(view, event, now) ==
              if !event.kind.Asserted? then None
              else if !ReachesTheFloor(event.subject, event.pred, event.authority) then Some(BelowAuthorityFloor)
              else if !StaysInRetention(event) then Some(TtlCeilingExceeded)
              else if !IsUnrivalled(view, event, now) then Some(UniquenessViolation)
              else None
  {
    FloorIff(event.subject, event.pred, event.authority);
    RetentionIff(event);
    UniqueIff(event.subject, event.pred);
    RivalIff(view, event, now);
    hide ReachesTheFloor, StaysInRetention, ExceedsCeiling, HasFreshRival, PolicyFor, IsOneAtATime, AtMost, Believes, FactState.IsExpiredAt;
  }

  /** The defaults give an asserted branch status without a TTL an hour, and change nothing else about any event. */
  lemma DefaultsFillIn(event: FactEvent)
    ensures ApplyPolicyDefaults(event) ==
              if event.kind.Asserted? && event.ttl == Never && IsBranchStatus(event.subject, event.pred) then
                event.(ttl := DurationMillis(3_600_000))
              else event
  {
    assert event.ttl == Never ==> event.(ttl := Never) == event;
  }
}
