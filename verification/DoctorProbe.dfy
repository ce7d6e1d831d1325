/**
 The doctor's write check: which subject and level it probes a source at. The probe must be a
 write the source is really allowed to make, so its choice is proved against the write gate.
 */
module DoctorProbe {
  import opened Wrappers
  import opened AuthorityLevels
  import opened Text
  import opened Registry
  import opened RegistryGate
  import opened RegistryCommands

  /** `scoped_probe_subject`: the first literal scope along the chain. */
  function ScopedSubject(sources: Sources, link: string, visited: set<string>): Option<string>
    decreases sources.Keys - visited
  {
    if link in visited || link !in sources then None
    else
      var grant := sources[link];
      if grant.scope.Some? && grant.scope.value != "*" then grant.scope
      else if grant.issuer == None then None
      else
        assert link in sources.Keys - visited;
        ScopedSubject(sources, grant.issuer.value, visited + {link})
  }

  /** The `k`-th link of the chain is registered and scoped to one literal subject. */
  predicate IsLiteralScope(sources: Sources, source: string, k: nat)
  {
    Link(sources, source, k).Some? &&
    var link := Link(sources, source, k).value;
    link in sources && sources[link].scope.Some? && sources[link].scope.value != "*"
  }

  /** `scope` is the first literal scope up the chain, or nothing if there is none however far one goes. */
  ghost predicate IsFirstScope(sources: Sources, source: string, scope: Option<string>)
  {
    match scope
    case None => forall k: nat :: !IsLiteralScope(sources, source, k)
    case Some(_) =>
      exists k: nat ::
        && IsLiteralScope(sources, source, k) && sources[Link(sources, source, k).value].scope == scope
        && forall i: nat :: i < k ==> !IsLiteralScope(sources, source, i)
  }

  /** A chain back at a link it passed meets no link it has not passed. */
  lemma {:induction false} RepeatedLinkHoldsNoScope(sources: Sources, source: string, i: nat, k: nat, j: nat)
    requires i < k && Link(sources, source, i).Some? && Link(sources, source, i) == Link(sources, source, k)
    requires forall m: nat :: m < k ==> !IsLiteralScope(sources, source, m)
    ensures !IsLiteralScope(sources, source, j)
    decreases j
  {
    if k <= j {
      LinkSplit(sources, source, k, j - k);
      LinkSplit(sources, source, i, j - k);
      RepeatedLinkHoldsNoScope(sources, source, i, k, i + (j - k));
    }
  }

  lemma EndedChainHoldsNoScope(sources: Sources, source: string, k: nat)
    requires Link(sources, source, k).Some? && Link(sources, source, k + 1) == None
    requires forall m: nat :: m <= k ==> !IsLiteralScope(sources, source, m)
    ensures forall j: nat :: !IsLiteralScope(sources, source, j)
  {
    forall j: nat ensures !IsLiteralScope(sources, source, j)
    {
      if k < j { ChainStaysEnded(sources, source, k + 1, j); }
    }
  }

  lemma {:induction false} ScopedSubjectIsTheFirst(sources: Sources, source: string, k: nat, visited: set<string>)
    requires Link(sources, source, k).Some? && HasPassed(sources, source, k, visited)
    requires forall i: nat :: i < k ==> !IsLiteralScope(sources, source, i)
    ensures IsFirstScope(sources, source, ScopedSubject(sources, Link(sources, source, k).value, visited))
    decreases sources.Keys - visited
  {
    var link := Link(sources, source, k).value;
    if link in visited {
      var i: nat :| i < k && Link(sources, source, i) == Some(link);
      forall j: nat ensures !IsLiteralScope(sources, source, j) { RepeatedLinkHoldsNoScope(sources, source, i, k, j); }
    } else {
      LinkSplit(sources, source, k, 1);
      if link !in sources || (!IsLiteralScope(sources, source, k) && sources[link].issuer == None) {
        EndedChainHoldsNoScope(sources, source, k);
      } else if !IsLiteralScope(sources, source, k) {
        assert link in sources.Keys - visited;
        PassedLinksGrow(sources, source, k, visited);
        ScopedSubjectIsTheFirst(sources, source, k + 1, visited + {link});
      }
    }
  }

  method ScopedProbeSubject(sources: Sources, source: string) returns (scope: Option<string>)
    ensures scope == ScopedSubject(sources, source, {})
    ensures IsFirstScope(sources, source, scope)
  {
    ScopedSubjectIsTheFirst(sources, source, 0, {});
    var visited, link := {}, source;
    while link !in visited
      invariant ScopedSubject(sources, link, visited) == ScopedSubject(sources, source, {})
      decreases sources.Keys - visited
    {
      if link !in sources { return None; }
      var grant := sources[link];
      if grant.scope.Some? && grant.scope.value != "*" { return grant.scope; }
      if grant.issuer == None { return None; }
      assert link in sources.Keys - visited;
      visited, link := visited + {link}, grant.issuer.value;
    }
    return None;
  }

  /** `WriteCheckProbe::for_source`, as the write it will make. */
  function ProbeFor(
    registry: Option<Sources>, source: string, runId: string,
    identityScope: Option<string>, identityCeiling: Option<AuthorityLevel>): WriteAuth
  {
    var ceiling :=
      if registry.Some? && source in registry.value then registry.value[source].maxAuthority
      else if identityCeiling.Some? then identityCeiling.value
      else High;
    var registryScope := if registry.Some? then ScopedSubject(registry.value, source, {}) else None;
    var scoped := if registryScope.Some? then registryScope else identityScope;
    var subject := if scoped.Some? then ParseSubject(scoped.value) else None;
    match subject
    case Some((kind, key)) => WriteAuth(kind, key, ceiling, source)
    case None => WriteAuth("diagnostic", runId, ceiling, source)
  }

  /**
   The probe is the most that the source is listed for: at its registered ceiling, else the ceiling of its signed
   grant, else high; and about the first literal scope of its issuer chain, else the scope of its grant, where that is
   a subject, and otherwise about a subject made for this run.
   */
  lemma ProbeIsTheMostItMay(
    registry: Option<Sources>, source: string, runId: string,
    identityScope: Option<string>, identityCeiling: Option<AuthorityLevel>) returns (scope: Option<string>)
    ensures if registry.Some? then IsFirstScope(registry.value, source, scope) else scope == None
    ensures var probe := ProbeFor(registry, source, runId, identityScope, identityCeiling);
            && probe.source == source
            && (registry.Some? && source in registry.value ==> probe.authority == registry.value[source].maxAuthority)
            && ((registry.None? || source !in registry.value) ==>
                  if identityCeiling.Some? then probe.authority == identityCeiling.value else probe.authority == High)
            && (scope.Some? ==> IsAbout(probe, scope.value, runId))
            && (scope.None? && identityScope.Some? ==> IsAbout(probe, identityScope.value, runId))
            && (scope.None? && identityScope.None? ==> probe.subjectKind == "diagnostic" && probe.subjectKey == runId)
  {
    hide IsFirstScope, ScopedSubject, ParseSubject, IsBlank;
    scope := None;
    if registry.Some? {
      ScopedSubjectIsTheFirst(registry.value, source, 0, {});
      scope := ScopedSubject(registry.value, source, {});
    }
    if scope.Some? { ParseSubjectIff(scope.value); }
    if identityScope.Some? { ParseSubjectIff(identityScope.value); }
  }

  /** The write is about the subject that `scope` spells, or about one made for this run where it spells none. */
  ghost predicate IsAbout(probe: WriteAuth, scope: string, runId: string)
  {
    if exists kind, key :: scope == kind + ":" + key && ':' !in kind && !IsBlank(kind) && !IsBlank(key) then
      scope == probe.subjectKind + ":" + probe.subjectKey && ':' !in probe.subjectKind
    else probe.subjectKind == "diagnostic" && probe.subjectKey == runId
  }

  /** `authority_below`: the level the probe's doomed supersession is sent at. */
  function AuthorityBelow(level: AuthorityLevel): (below: Option<AuthorityLevel>)
    ensures below.None? <==> level == Unknown
    ensures below.Some? ==> Rank(below.value) + 1 == Rank(level)
  {
    match level
    case Unknown => None
    case Low => Some(Unknown)
    case Medium => Some(Low)
    case High => Some(Medium)
    case Canonical => Some(High)
  }

  /** A chain that accepts a write about `subject` has no literal scope but `subject`. */
  lemma {:induction false} ScopeOfAnAcceptedWalk(sources: Sources, auth: WriteAuth, link: string, visited: set<string>)
    requires Walk(sources, auth, link, visited) == Accepted
    ensures ScopedSubject(sources, link, visited) in {None, Some(auth.Subject())}
    ensures ScopedSubject(sources, link, visited).None? ==> forall other: WriteAuth :: other.authority == auth.authority ==>
              Walk(sources, other, link, visited) == Accepted
    decreases sources.Keys - visited
  {
    if link in sources && sources[link].issuer.Some? {
      assert link in sources.Keys - visited;
      ScopeOfAnAcceptedWalk(sources, auth, sources[link].issuer.value, visited + {link});
    }
  }

  /**
   On any registry, hand-edited or not: if a listed source may write about anything at all at its
   own ceiling, the gate accepts its probe.
   */
  lemma ProbeIsAcceptedIfAnythingIs(
    sources: Sources, auth: WriteAuth, runId: string,
    identityScope: Option<string>, identityCeiling: Option<AuthorityLevel>)
    requires auth.source in sources && auth.authority == sources[auth.source].maxAuthority
    requires ParseSubject(auth.Subject()).Some?
    requires GateDecision(sources, auth) == Accepted
    ensures GateDecision(sources, ProbeFor(Some(sources), auth.source, runId, identityScope, identityCeiling)) == Accepted
  {
    ScopeOfAnAcceptedWalk(sources, auth, auth.source, {});
    var probe := ProbeFor(Some(sources), auth.source, runId, identityScope, identityCeiling);
    if ScopedSubject(sources, auth.source, {}).Some? {
      assert probe.Subject() == auth.Subject();
      SameSubjectSameWalk(sources, auth, probe, auth.source, {});
    }
  }

  /** The gate sees a subject only as `<kind>:<key>`. */
  lemma {:induction false} SameSubjectSameWalk(sources: Sources, a: WriteAuth, b: WriteAuth, link: string, visited: set<string>)
    requires a.Subject() == b.Subject() && a.authority == b.authority
    ensures Walk(sources, a, link, visited) == Walk(sources, b, link, visited)
    decreases sources.Keys - visited
  {
    if link !in visited && link in sources && sources[link].issuer.Some? {
      assert link in sources.Keys - visited;
      SameSubjectSameWalk(sources, a, b, sources[link].issuer.value, visited + {link});
    }
  }

  /** So the write check of a source just granted by `authority add` always gets past the gate. */
  lemma ProbeOfAValidatedGrantIsAccepted(
    sources: Sources, source: string, grant: SourceGrant, runId: string,
    identityScope: Option<string>, identityCeiling: Option<AuthorityLevel>)
    requires ValidateGrant(sources, source, grant).None?
    ensures var added := sources[source := grant];
            GateDecision(added, ProbeFor(Some(added), source, runId, identityScope, identityCeiling)) == Accepted
  {
    var (kind, key) := if grant.scope.Some? && grant.scope.value != "*" then ParseSubject(grant.scope.value).value else ("a", "b");
    var auth := WriteAuth(kind, key, grant.maxAuthority, source);
    ValidatedGrantIsFullyUsable(sources, source, grant, auth);
    if grant.scope.Some? && grant.scope.value != "*" {
      assert auth.Subject() == grant.scope.value;
    } else {
      assert IndexOf(auth.Subject()[1..], ':') == Some(0);
      assert !IsWhitespace(auth.Subject()[0]) && !IsWhitespace(auth.Subject()[2]);
      assert auth.Subject()[..1][0] == 'a' && auth.Subject()[2..][0] == 'b';
    }
    ProbeIsAcceptedIfAnythingIs(sources[source := grant], auth, runId, identityScope, identityCeiling);
  }
}
