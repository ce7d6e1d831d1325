/**
 The authority registry: which source may write about what, at which level, on whose say.

 A registry maps a source to its grant. A grant may name another source as its issuer, so the
 registry is a functional graph (at most one edge out of each node) that a hand-edited file can
 make cyclic. `Registry` holds the decisions the commands and the write gate take on that graph;
 `RegistryGate` and `RegistryCommands` say what those decisions mean.
 */
module Registry {
  import opened Wrappers
  import opened AuthorityLevels
  import opened Text

  datatype SourceGrant = SourceGrant(maxAuthority: AuthorityLevel, issuer: Option<string>, scope: Option<string>)

  type Sources = map<string, SourceGrant>

  datatype WriteAuth = WriteAuth(subjectKind: string, subjectKey: string, authority: AuthorityLevel, source: string)
  {
    function Subject(): string { subjectKind + ":" + subjectKey }
  }

  function Ceiling(sources: Sources, source: string): AuthorityLevel
  {
    if source in sources then sources[source].maxAuthority else Unknown
  }

  predicate ScopeCovers(scope: Option<string>, subject: string)
  {
    scope == None || scope.value == "*" || scope.value == subject
  }

  // ---- The write gate -----------------------------------------------------------------

  /** Why the gate refused, and at which link of the issuer chain. */
  datatype GateOutcome =
    | Accepted
    | AboveCeiling
    | IssuerCycle(link: string)
    | OutOfScope(link: string)
    | AboveIssuerCeiling(link: string)

  /** The walk along the issuer chain, from `link` on, having passed `visited`. */
  function Walk(sources: Sources, auth: WriteAuth, link: string, visited: set<string>): GateOutcome
    decreases sources.Keys - visited
  {
    if link in visited then IssuerCycle(link)
    else if link !in sources then Accepted
    else
      var grant := sources[link];
      if !ScopeCovers(grant.scope, auth.Subject()) then OutOfScope(link)
      else if !AtMost(auth.authority, grant.maxAuthority) then AboveIssuerCeiling(link)
      else if grant.issuer == None then Accepted
      else
        assert link in sources.Keys - visited;
        Walk(sources, auth, grant.issuer.value, visited + {link})
  }

  function GateDecision(sources: Sources, auth: WriteAuth): GateOutcome
  {
    if !AtMost(auth.authority, Ceiling(sources, auth.source)) then AboveCeiling
    else Walk(sources, auth, auth.source, {})
  }

  // ---- Validation of a new grant ------------------------------------------------------

  datatype GrantError =
    | InvalidScope
    | SelfIssued
    | WouldCycle(link: string)
    | IssuerGrantsAtMost(link: string)
    | IssuerIsScoped(link: string)

  predicate ScopeIsWellFormed(scope: Option<string>)
  {
    scope == None || scope.value == "*" || ParseSubject(scope.value).Some?
  }

  /** An issuer scoped to a literal subject can pass on exactly that scope. */
  predicate ScopeDelegable(issuerScope: Option<string>, scope: Option<string>)
  {
    issuerScope == None || issuerScope.value == "*" || scope == issuerScope
  }

  /** The validator's walk along the chain of the proposed issuer. */
  function ValidateWalk(sources: Sources, source: string, grant: SourceGrant, link: string, visited: set<string>)
    : Option<GrantError>
    decreases sources.Keys - visited
  {
    if link == source || link in visited then Some(WouldCycle(link))
    else if link !in sources then None
    else
      var held := sources[link];
      if !AtMost(grant.maxAuthority, held.maxAuthority) then Some(IssuerGrantsAtMost(link))
      else if !ScopeDelegable(held.scope, grant.scope) then Some(IssuerIsScoped(link))
      else if held.issuer == None then None
      else
        assert link in sources.Keys - visited;
        ValidateWalk(sources, source, grant, held.issuer.value, visited + {link})
  }

  function ValidateGrant(sources: Sources, source: string, grant: SourceGrant): Option<GrantError>
  {
    if !ScopeIsWellFormed(grant.scope) then Some(InvalidScope)
    else if grant.issuer == None then None
    else if grant.issuer.value == source then Some(SelfIssued)
    else ValidateWalk(sources, source, grant, grant.issuer.value, {})
  }

  // ---- The chain, declaratively -------------------------------------------------------

  /** The `k`-th link of the chain that starts at `source`; `None` once the chain has ended. */
  function Link(sources: Sources, source: string, k: nat): Option<string>
    decreases k
  {
    if k == 0 then Some(source)
    else if source in sources && sources[source].issuer.Some? then Link(sources, sources[source].issuer.value, k - 1)
    else None
  }

  /** The chain reaches an operator-level root. */
  ghost predicate Grounded(sources: Sources, source: string)
  {
    exists k: nat :: Link(sources, source, k) == None
  }

  /** The chain of `source` passes through `target` after at least one issuer step. */
  ghost predicate Reaches(sources: Sources, source: string, target: string)
  {
    exists k: nat :: 0 < k && Link(sources, source, k) == Some(target)
  }

  ghost predicate Acyclic(sources: Sources)
  {
    forall source :: Grounded(sources, source)
  }

  /** The grants whose issuer chain passes through `source`. */
  ghost function Dependents(sources: Sources, source: string): set<string>
  {
    set name | name in sources && name != source && Reaches(sources, name, source)
  }

  ghost function Cascade(sources: Sources, source: string): Sources
  {
    sources - ({source} + Dependents(sources, source))
  }

  // ---- The shipped profile ------------------------------------------------------------

  const DEFAULT_PROFILE: seq<(string, AuthorityLevel)> :=
    [("source:human", High), ("source:ci", Medium), ("source:agent", Low)]

  /** The first `n` profile entries merged in; an existing grant is kept. */
  function Seeded(sources: Sources, n: nat): Sources
    requires n <= |DEFAULT_PROFILE|
  {
    if n == 0 then sources
    else
      var (name, level) := DEFAULT_PROFILE[n - 1];
      var before := Seeded(sources, n - 1);
      if name in before then before else before[name := SourceGrant(level, None, None)]
  }

  // ---- The commands -------------------------------------------------------------------

  datatype Command =
    | Add(source: string, grant: SourceGrant)
    | Remove(source: string, force: bool)
    | Defaults

  /** The registry file after one command; a refused command leaves it as it was. */
  ghost function Perform(file: Option<Sources>, command: Command): Option<Sources>
  {
    var sources := if file.Some? then file.value else map[];
    match command
    case Add(source, grant) =>
      if ValidateGrant(sources, source, grant).Some? then file else Some(sources[source := grant])
    case Remove(source, force) =>
      if source !in sources || (Dependents(sources, source) != {} && !force) then file
      else Some(Cascade(sources, source))
    case Defaults => Some(Seeded(sources, |DEFAULT_PROFILE|))
  }

  ghost function PerformAll(file: Option<Sources>, commands: seq<Command>): Option<Sources>
    decreases |commands|
  {
    if commands == [] then file else PerformAll(Perform(file, commands[0]), commands[1..])
  }

  // ---- The same, as the source runs it ------------------------------------------------

  method RegistryGrantCheck(registry: Option<Sources>, auth: WriteAuth) returns (outcome: GateOutcome)
    ensures outcome == if registry.None? then Accepted else GateDecision(registry.value, auth)
  {
    if registry.None? { return Accepted; }
    var sources := registry.value;
    if !AtMost(auth.authority, Ceiling(sources, auth.source)) { return AboveCeiling; }
    var visited, link := {}, auth.source;
    while true
      invariant Walk(sources, auth, link, visited) == Walk(sources, auth, auth.source, {})
      decreases sources.Keys - visited
    {
      if link in visited { return IssuerCycle(link); }
      if link !in sources { return Accepted; }
      var grant := sources[link];
      if !ScopeCovers(grant.scope, auth.Subject()) { return OutOfScope(link); }
      if !AtMost(auth.authority, grant.maxAuthority) { return AboveIssuerCeiling(link); }
      if grant.issuer == None { return Accepted; }
      assert link in sources.Keys - visited;
      visited, link := visited + {link}, grant.issuer.value;
    }
  }

  method ValidateAuthorityGrant(sources: Sources, source: string, grant: SourceGrant) returns (error: Option<GrantError>)
    ensures error == ValidateGrant(sources, source, grant)
  {
    if !ScopeIsWellFormed(grant.scope) { return Some(InvalidScope); }
    if grant.issuer == None { return None; }
    if grant.issuer.value == source { return Some(SelfIssued); }
    var visited, link := {}, grant.issuer.value;
    while true
      invariant ValidateWalk(sources, source, grant, link, visited) == ValidateGrant(sources, source, grant)
      decreases sources.Keys - visited
    {
      if link == source || link in visited { return Some(WouldCycle(link)); }
      if link !in sources { return None; }
      var held := sources[link];
      if !AtMost(grant.maxAuthority, held.maxAuthority) { return Some(IssuerGrantsAtMost(link)); }
      if !ScopeDelegable(held.scope, grant.scope) { return Some(IssuerIsScoped(link)); }
      if held.issuer == None { return None; }
      assert link in sources.Keys - visited;
      visited, link := visited + {link}, held.issuer.value;
    }
  }
}
