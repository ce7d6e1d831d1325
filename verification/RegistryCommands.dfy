/**
 The `authority` commands: adding a validated grant, revoking one with or without the cascade,
 and seeding the shipped profile. The registry file is mutable state; each command's new file is
 `Registry.Perform` of the old one.
 */
module RegistryCommands {
  import opened Wrappers
  import opened AuthorityLevels
  import opened Registry
  import opened RegistryGate

  // ---- Searching the chains -----------------------------------------------------------

  /** The last step of a first passage: the chain of `source` has not met `target` among its first `k` issuers. */
  ghost predicate NotYetMet(sources: Sources, source: string, target: string, k: nat)
  {
    forall i: nat :: 0 < i < k ==> Link(sources, source, i) != Some(target)
  }

  /** A chain that comes back on itself before meeting `target` never meets it. */
  lemma NeverMetAfterRepeat(sources: Sources, source: string, target: string, i: nat, k: nat)
    requires 0 < i < k && Link(sources, source, i).Some? && Link(sources, source, i) == Link(sources, source, k)
    requires NotYetMet(sources, source, target, k)
    ensures !Reaches(sources, source, target)
  {
    if Reaches(sources, source, target) {
      var m: nat :| 0 < m && Link(sources, source, m) == Some(target);
      FirstMeeting(sources, source, target, i, k, m);
    }
  }

  lemma {:induction false} FirstMeeting(sources: Sources, source: string, target: string, i: nat, k: nat, m: nat)
    requires 0 < i < k && Link(sources, source, i).Some? && Link(sources, source, i) == Link(sources, source, k)
    requires NotYetMet(sources, source, target, k)
    requires 0 < m && Link(sources, source, m) == Some(target)
    ensures false
    decreases m
  {
    if m >= k {
      LinkSplit(sources, source, k, m - k);
      LinkSplit(sources, source, i, m - k);
      FirstMeeting(sources, source, target, i, k, i + (m - k));
    }
  }

  method IssuerChainReaches(sources: Sources, name: string, target: string) returns (reaches: bool)
    requires name in sources
    ensures reaches <==> Reaches(sources, name, target)
  {
    var visited, link := {}, sources[name].issuer;
    ghost var k := 1;
    while link.Some?
      invariant 1 <= k && link == Link(sources, name, k) && NotYetMet(sources, name, target, k)
      invariant forall v :: v in visited <==> exists i: nat :: 0 < i < k && Link(sources, name, i) == Some(v)
      invariant link.None? ==> !Reaches(sources, name, target)
      decreases sources.Keys - visited, if link.Some? then 1 else 0
    {
      var here := link.value;
      if here == target { return true; }
      if here in visited {
        ghost var i: nat :| 0 < i < k && Link(sources, name, i) == Some(here);
        NeverMetAfterRepeat(sources, name, target, i, k);
        return false;
      }
      LinkSplit(sources, name, k, 1);
      assert here in sources ==> here in sources.Keys - visited;
      visited := visited + {here};
      link := if here in sources then sources[here].issuer else None;
      k := k + 1;
      if link.None? {
        forall m: nat | 0 < m ensures Link(sources, name, m) != Some(target) {
          if m >= k { ChainStaysEnded(sources, name, k, m); }
        }
      }
    }
    return false;
  }

  method DependentGrants(sources: Sources, source: string) returns (dependents: set<string>)
    ensures dependents == Dependents(sources, source)
  {
    dependents := {};
    var todo := sources.Keys;
    while todo != {}
      invariant todo <= sources.Keys
      invariant dependents == set name | name in Dependents(sources, source) && name !in todo
      decreases todo
    {
      var name :| name in todo;
      var reaches := IssuerChainReaches(sources, name, source);
      if name != source && reaches { dependents := dependents + {name}; }
      todo := todo - {name};
    }
  }

  // ---- The registry file --------------------------------------------------------------

  class AuthorityFile {
    var file: Option<Sources>

    constructor Missing()
      ensures file == None
    {
      file := None;
    }

    /** The grants of the file; none if there is no file. */
    function Listed(): Sources
      reads this
    {
      if file.Some? then file.value else map[]
    }

    method CmdAdd(source: string, grant: SourceGrant) returns (code: int)
      modifies this
      ensures file == Perform(old(file), Add(source, grant))
      ensures code == if IsAddable(old(Listed()), source, grant) then 0 else 2
      ensures code == 0 ==> file == Some(old(Listed())[source := grant])
      ensures code == 2 ==> file == old(file)
    {
      var sources := Listed();
      ValidatorAcceptsIffBacked(sources, source, grant);
      var error := ValidateAuthorityGrant(sources, source, grant);
      if error.Some? { return 2; }
      file := Some(sources[source := grant]);
      return 0;
    }

    method CmdRemove(source: string, force: bool) returns (code: int)
      modifies this
      ensures file == Perform(old(file), Remove(source, force))
      ensures code == if source !in old(Listed()) then 1
                      else if !force && exists name :: DependsOn(old(Listed()), name, source) then 2
                      else 0
      ensures code != 0 ==> file == old(file)
      ensures code == 0 ==>
                && file.Some?
                && (forall name :: name in file.value <==>
                      name in old(Listed()) && name != source && !DependsOn(old(Listed()), name, source))
                && forall name :: name in file.value ==> file.value[name] == old(Listed())[name]
    {
      if file.None? || source !in file.value { return 1; }
      var dependents := DependentGrants(file.value, source);
      assert forall name :: name in dependents <==> DependsOn(file.value, name, source);
      if dependents != {} && !force { return 2; }
      file := Some(file.value - ({source} + dependents));
      return 0;
    }

    /** Merge only: what is listed stays as it is, and the three shipped sources are listed, as roots if they were not. */
    method CmdDefaults()
      modifies this
      ensures file == Perform(old(file), Defaults)
      ensures file.Some? && file.value.Keys == old(Listed()).Keys + {"source:human", "source:ci", "source:agent"}
      ensures forall name :: name in old(Listed()) ==> file.value[name] == old(Listed())[name]
      ensures "source:human" !in old(Listed()) ==> file.value["source:human"] == SourceGrant(High, None, None)
      ensures "source:ci" !in old(Listed()) ==> file.value["source:ci"] == SourceGrant(Medium, None, None)
      ensures "source:agent" !in old(Listed()) ==> file.value["source:agent"] == SourceGrant(Low, None, None)
    {
      var sources := Listed();
      ghost var before := sources;
      for i := 0 to |DEFAULT_PROFILE|
        invariant sources == Seeded(before, i)
        invariant forall name :: name in before ==> name in sources && sources[name] == before[name]
        invariant forall name :: name in sources <==> name in before || exists k :: 0 <= k < i && DEFAULT_PROFILE[k].0 == name
        invariant forall k :: 0 <= k < i && DEFAULT_PROFILE[k].0 !in before ==>
                    sources[DEFAULT_PROFILE[k].0] == SourceGrant(DEFAULT_PROFILE[k].1, None, None)
      {
        DistinctProfile();
        var (name, level) := DEFAULT_PROFILE[i];
        if name !in sources { sources := sources[name := SourceGrant(level, None, None)]; }
      }
      Profile();
      file := Some(sources);
    }
  }

  /** Another listed grant whose issuer chain passes through `source`. */
  ghost predicate DependsOn(sources: Sources, name: string, source: string)
  {
    name in sources && name != source && Reaches(sources, name, source)
  }

  /** A well-formed scope, and every link of the issuer's chain, which ends, holds what is granted and is not the source. */
  ghost predicate IsAddable(sources: Sources, source: string, grant: SourceGrant)
  {
    && ScopeIsWellFormed(grant.scope)
    && (grant.issuer.Some? ==> Grounded(sources, grant.issuer.value) && ChainBacks(sources, source, grant, grant.issuer.value))
  }

  lemma DistinctProfile()
    ensures forall i, j :: 0 <= i < j < |DEFAULT_PROFILE| ==> DEFAULT_PROFILE[i].0 != DEFAULT_PROFILE[j].0
  {
    assert "source:human"[7] == 'h' && "source:ci"[7] == 'c' && "source:agent"[7] == 'a';
  }

  lemma Profile()
    ensures |DEFAULT_PROFILE| == 3 && DEFAULT_PROFILE[0] == ("source:human", High)
    ensures DEFAULT_PROFILE[1] == ("source:ci", Medium) && DEFAULT_PROFILE[2] == ("source:agent", Low)
  {
  }

  // ---- Revocation never loosens -------------------------------------------------------

  lemma ReachesThroughIssuer(sources: Sources, link: string, target: string)
    requires link in sources && sources[link].issuer.Some?
    requires sources[link].issuer.value == target || Reaches(sources, sources[link].issuer.value, target)
    ensures Reaches(sources, link, target)
  {
    var issuer := sources[link].issuer.value;
    assert Link(sources, link, 1) == Link(sources, issuer, 0) == Some(issuer);
    if issuer != target {
      var k: nat :| 0 < k && Link(sources, issuer, k) == Some(target);
      assert Link(sources, link, k + 1) == Some(target);
    }
  }

  /** A surviving link's issuer survives too. */
  lemma SurvivorsIssuerSurvives(sources: Sources, source: string, link: string)
    requires source in sources && link in Cascade(sources, source) && sources[link].issuer.Some?
    ensures sources[link].issuer.value !in {source} + Dependents(sources, source)
  {
    if sources[link].issuer.value in {source} + Dependents(sources, source) {
      ReachesThroughIssuer(sources, link, source);
    }
  }

  lemma {:induction false} SurvivorsWalk(sources: Sources, source: string, auth: WriteAuth, link: string, visited: set<string>)
    requires source in sources && link !in {source} + Dependents(sources, source)
    ensures Walk(Cascade(sources, source), auth, link, visited) == Walk(sources, auth, link, visited)
    decreases sources.Keys - visited
  {
    if link !in visited && link in sources && Authorizes(sources, link, auth) && sources[link].issuer.Some? {
      assert link in sources.Keys - visited;
      SurvivorsIssuerSurvives(sources, source, link);
      SurvivorsWalk(sources, source, auth, sources[link].issuer.value, visited + {link});
    }
  }

  /**
   Forced revocation, on any registry, even a cyclic one: a survivor's every gate decision is
   unchanged, no write above Unknown becomes newly acceptable, and no surviving grant names a
   removed source as its issuer.
   */
  lemma ForcedRevocationNeverLoosens(sources: Sources, source: string, auth: WriteAuth)
    requires source in sources
    ensures auth.source !in {source} + Dependents(sources, source) ==>
              GateDecision(Cascade(sources, source), auth) == GateDecision(sources, auth)
    ensures auth.source in {source} + Dependents(sources, source) && auth.authority != Unknown ==>
              GateDecision(Cascade(sources, source), auth) == AboveCeiling
    ensures auth.authority != Unknown && GateDecision(Cascade(sources, source), auth) == Accepted ==>
              GateDecision(sources, auth) == Accepted
    ensures forall name :: name in Cascade(sources, source) && sources[name].issuer.Some? ==>
              sources[name].issuer.value !in {source} + Dependents(sources, source)
  {
    if auth.source !in {source} + Dependents(sources, source) {
      SurvivorsWalk(sources, source, auth, auth.source, {});
    }
    forall name | name in Cascade(sources, source) && sources[name].issuer.Some?
      ensures sources[name].issuer.value !in {source} + Dependents(sources, source)
    {
      SurvivorsIssuerSurvives(sources, source, name);
    }
  }

  /** Why the cascade: dropping just the issuer turns it into a root, and its delegate writes more than before. */
  lemma RemovalWithoutCascadeWidens() returns (commands: seq<Command>, sources: Sources, source: string, auth: WriteAuth)
    ensures PerformAll(None, commands) == Some(sources)
    ensures GateDecision(sources, auth) != Accepted && GateDecision(sources - {source}, auth) == Accepted
  {
    commands := [Add("boss", SourceGrant(High, None, None)),
                 Add("helper", SourceGrant(High, Some("boss"), None)),
                 Add("boss", SourceGrant(Low, None, None))];
    source, auth := "boss", WriteAuth("repo", "dent8", High, "helper");
    var one: Sources := map["boss" := SourceGrant(High, None, None)];
    var two := one["helper" := SourceGrant(High, Some("boss"), None)];
    sources := two["boss" := SourceGrant(Low, None, None)];
    assert ValidateWalk(one, "helper", two["helper"], "boss", {}).None?;
    assert Perform(None, commands[0]) == Some(one);
    assert Perform(Some(one), commands[1]) == Some(two);
    assert Perform(Some(two), commands[2]) == Some(sources);
    assert commands[1..][0] == commands[1] && commands[1..][1..] == [commands[2]];
    assert Walk(sources, auth, "helper", {}) == Walk(sources, auth, "boss", {"helper"}) == AboveIssuerCeiling("boss");
    var without := sources - {"boss"};
    assert Walk(without, auth, "helper", {}) == Walk(without, auth, "boss", {"helper"}) == Accepted;
  }

  // ---- Every registry the commands can build is acyclic -------------------------------

  /** What the validator has established about the chain of the proposed issuer. */
  ghost predicate ChainBacks(sources: Sources, source: string, grant: SourceGrant, link: string)
  {
    forall k: nat :: Link(sources, link, k).Some? ==>
      var held := Link(sources, link, k).value;
      && held != source
      && (held in sources ==>
            AtMost(grant.maxAuthority, sources[held].maxAuthority) && ScopeDelegable(sources[held].scope, grant.scope))
  }

  lemma {:induction false} ValidatedChainBacks(
    sources: Sources, source: string, grant: SourceGrant, link: string, visited: set<string>)
    requires ValidateWalk(sources, source, grant, link, visited).None?
    ensures Grounded(sources, link) && ChainBacks(sources, source, grant, link)
    decreases sources.Keys - visited
  {
    if link in sources && sources[link].issuer.Some? {
      assert link in sources.Keys - visited;
      var issuer := sources[link].issuer.value;
      ValidatedChainBacks(sources, source, grant, issuer, visited + {link});
      forall k: nat | k != 0 ensures Link(sources, link, k) == Link(sources, issuer, k - 1) {}
    }
    GroundedByIssuer(sources, link);
  }

  lemma {:induction false} BackedChainValidates(
    sources: Sources, source: string, grant: SourceGrant, link: string, visited: set<string>, n: nat)
    requires Link(sources, link, n) == None && ChainBacks(sources, source, grant, link)
    requires forall k: nat :: Link(sources, link, k).Some? ==> Link(sources, link, k).value !in visited
    ensures ValidateWalk(sources, source, grant, link, visited).None?
    decreases n
  {
    assert Link(sources, link, 0) == Some(link);
    if link in sources && sources[link].issuer.Some? {
      var issuer := sources[link].issuer.value;
      assert link in sources.Keys - visited;
      forall k: nat ensures Link(sources, link, k + 1) == Link(sources, issuer, k) {}
      forall k: nat | Link(sources, issuer, k).Some? ensures Link(sources, issuer, k).value !in visited + {link}
      {
        GroundedChainNeverRepeats(sources, link, 0, k + 1, n);
      }
      BackedChainValidates(sources, source, grant, issuer, visited + {link}, n - 1);
    }
  }

  /**
   The validator refuses exactly a malformed scope, or an issuer whose chain comes back on itself, comes
   back to the source (as a self-issued grant does), or passes a link that does not hold what is granted.
   */
  lemma ValidatorAcceptsIffBacked(sources: Sources, source: string, grant: SourceGrant)
    ensures ValidateGrant(sources, source, grant).None? <==>
            && ScopeIsWellFormed(grant.scope)
            && (grant.issuer.Some? ==>
                  Grounded(sources, grant.issuer.value) && ChainBacks(sources, source, grant, grant.issuer.value))
  {
    if grant.issuer.Some? {
      var issuer := grant.issuer.value;
      assert Link(sources, issuer, 0) == Some(issuer);
      if ValidateWalk(sources, source, grant, issuer, {}).None? {
        ValidatedChainBacks(sources, source, grant, issuer, {});
      }
      if Grounded(sources, issuer) && ChainBacks(sources, source, grant, issuer) {
        var n: nat :| Link(sources, issuer, n) == None;
        BackedChainValidates(sources, source, grant, issuer, {}, n);
      }
    }
  }

  /** A registered link that holds the level and may pass on the scope. */
  predicate CanPassOn(sources: Sources, grant: SourceGrant, link: string)
  {
    link in sources ==>
      AtMost(grant.maxAuthority, sources[link].maxAuthority) && ScopeDelegable(sources[link].scope, grant.scope)
  }

  /** The links of the issuer's chain before the `k`-th can all pass the grant on. */
  predicate CanPassOnUpTo(sources: Sources, grant: SourceGrant, issuer: string, k: nat)
  {
    forall i: nat :: i < k ==> Link(sources, issuer, i).Some? && CanPassOn(sources, grant, Link(sources, issuer, i).value)
  }

  /** The refusal of a grant is the case of the first link up the issuer's chain that cannot pass it on, and names it. */
  ghost predicate RefusalSaysWhy(sources: Sources, source: string, grant: SourceGrant, error: GrantError)
  {
    match error
    case InvalidScope => !ScopeIsWellFormed(grant.scope)
    case SelfIssued => grant.issuer == Some(source)
    case WouldCycle(link) =>
      grant.issuer.Some? && exists k: nat ::
        && CanPassOnUpTo(sources, grant, grant.issuer.value, k) && Link(sources, grant.issuer.value, k) == Some(link)
        && (link == source || exists i: nat :: i < k && Link(sources, grant.issuer.value, i) == Some(link))
    case IssuerGrantsAtMost(link) =>
      && grant.issuer.Some? && link in sources && !AtMost(grant.maxAuthority, sources[link].maxAuthority)
      && exists k: nat :: CanPassOnUpTo(sources, grant, grant.issuer.value, k) && Link(sources, grant.issuer.value, k) == Some(link)
    case IssuerIsScoped(link) =>
      && grant.issuer.Some? && link in sources && AtMost(grant.maxAuthority, sources[link].maxAuthority)
      && sources[link].scope.Some? && sources[link].scope != Some("*") && sources[link].scope != grant.scope
      && exists k: nat :: CanPassOnUpTo(sources, grant, grant.issuer.value, k) && Link(sources, grant.issuer.value, k) == Some(link)
  }

  lemma {:induction false} ValidateWalkSaysWhy(
    sources: Sources, source: string, grant: SourceGrant, issuer: string, link: string, visited: set<string>, k: nat)
    requires grant.issuer == Some(issuer) && Link(sources, issuer, k) == Some(link) && CanPassOnUpTo(sources, grant, issuer, k)
    requires HasPassed(sources, issuer, k, visited)
    ensures var refused := ValidateWalk(sources, source, grant, link, visited);
            refused.Some? ==> RefusalSaysWhy(sources, source, grant, refused.value)
    decreases sources.Keys - visited
  {
    if link != source && link in visited {
      var i: nat :| i < k && Link(sources, issuer, i) == Some(link);
    } else if link != source && link in sources && CanPassOn(sources, grant, link) && sources[link].issuer.Some? {
      hide RefusalSaysWhy;
      assert link in sources.Keys - visited;
      LinkSplit(sources, issuer, k, 1);
      PassedLinksGrow(sources, issuer, k, visited);
      ValidateWalkSaysWhy(sources, source, grant, issuer, sources[link].issuer.value, visited + {link}, k + 1);
    }
  }

  /** What the validator refuses a grant for is so. */
  lemma RefusedGrantIsTheCase(sources: Sources, source: string, grant: SourceGrant)
    ensures var refused := ValidateGrant(sources, source, grant);
            refused.Some? ==> RefusalSaysWhy(sources, source, grant, refused.value)
    ensures grant.issuer == Some(source) && ScopeIsWellFormed(grant.scope) ==> ValidateGrant(sources, source, grant) == Some(SelfIssued)
  {
    hide ScopeIsWellFormed;
    if grant.issuer.Some? { ValidateWalkSaysWhy(sources, source, grant, grant.issuer.value, grant.issuer.value, {}, 0); }
  }

  /** A chain that avoids `source` is the same after `source`'s grant is written. */
  lemma {:induction false} LinkAfterAdd(sources: Sources, source: string, grant: SourceGrant, link: string, k: nat)
    requires ChainBacks(sources, source, grant, link)
    ensures Link(sources[source := grant], link, k) == Link(sources, link, k)
    decreases k
  {
    assert Link(sources, link, 0) == Some(link);
    if k != 0 && link in sources && sources[link].issuer.Some? {
      var issuer := sources[link].issuer.value;
      forall i: nat ensures Link(sources, link, i + 1) == Link(sources, issuer, i) {}
      assert ChainBacks(sources, source, grant, issuer);
      LinkAfterAdd(sources, source, grant, issuer, k - 1);
    }
  }

  lemma {:induction false} GroundedAfterAdd(sources: Sources, source: string, grant: SourceGrant, link: string, n: nat)
    requires Grounded(sources[source := grant], source) && Link(sources, link, n) == None
    ensures Grounded(sources[source := grant], link)
    decreases n
  {
    if link != source {
      if link in sources && sources[link].issuer.Some? {
        GroundedAfterAdd(sources, source, grant, sources[link].issuer.value, n - 1);
      }
      GroundedByIssuer(sources[source := grant], link);
    }
  }

  lemma AddKeepsAcyclic(sources: Sources, source: string, grant: SourceGrant)
    requires Acyclic(sources) && ValidateGrant(sources, source, grant).None?
    ensures Acyclic(sources[source := grant])
  {
    if grant.issuer.Some? {
      ValidatedChainBacks(sources, source, grant, grant.issuer.value, {});
      var n: nat :| Link(sources, grant.issuer.value, n) == None;
      LinkAfterAdd(sources, source, grant, grant.issuer.value, n);
    }
    GroundedByIssuer(sources[source := grant], source);
    var added := sources[source := grant];
    forall link ensures Grounded(added, link) {
      assert Grounded(sources, link);
      var n: nat :| Link(sources, link, n) == None;
      GroundedAfterAdd(sources, source, grant, link, n);
    }
  }

  lemma {:induction false} FewerGrantsShorterChains(sources: Sources, fewer: Sources, link: string, n: nat)
    requires forall name :: name in fewer ==> name in sources && fewer[name] == sources[name]
    requires Link(sources, link, n) == None
    ensures Link(fewer, link, n) == None
    decreases n
  {
    if link in fewer && sources[link].issuer.Some? {
      FewerGrantsShorterChains(sources, fewer, sources[link].issuer.value, n - 1);
    }
  }

  lemma RemovalKeepsAcyclic(sources: Sources, gone: set<string>)
    requires Acyclic(sources)
    ensures Acyclic(sources - gone)
  {
    var fewer := sources - gone;
    forall link ensures Grounded(fewer, link) {
      assert Grounded(sources, link);
      var n: nat :| Link(sources, link, n) == None;
      FewerGrantsShorterChains(sources, fewer, link, n);
    }
  }

  lemma {:induction false} SeedingKeepsAcyclic(sources: Sources, n: nat)
    requires n <= |DEFAULT_PROFILE| && Acyclic(sources)
    ensures Acyclic(Seeded(sources, n))
  {
    if n != 0 {
      SeedingKeepsAcyclic(sources, n - 1);
      var (name, level) := DEFAULT_PROFILE[n - 1];
      AddKeepsAcyclic(Seeded(sources, n - 1), name, SourceGrant(level, None, None));
    }
  }

  ghost predicate AcyclicFile(file: Option<Sources>)
  {
    file.Some? ==> Acyclic(file.value)
  }

  lemma {:induction false} CommandsKeepAcyclic(file: Option<Sources>, commands: seq<Command>)
    requires AcyclicFile(file)
    ensures AcyclicFile(PerformAll(file, commands))
    decreases |commands|
  {
    if commands != [] {
      var sources: Sources := if file.Some? then file.value else map[];
      if file.None? {
        forall link ensures Grounded(sources, link) { assert Link(sources, link, 1) == None; }
      }
      match commands[0] {
        case Add(source, grant) =>
          if ValidateGrant(sources, source, grant).None? { AddKeepsAcyclic(sources, source, grant); }
        case Remove(source, force) =>
          RemovalKeepsAcyclic(sources, {source} + Dependents(sources, source));
        case Defaults =>
          SeedingKeepsAcyclic(sources, |DEFAULT_PROFILE|);
      }
      CommandsKeepAcyclic(Perform(file, commands[0]), commands[1..]);
    }
  }

  /** On a registry built by the commands, in any order and number, the gate's cycle branch is unreachable. */
  lemma CommandBuiltRegistriesNeverCycle(commands: seq<Command>, auth: WriteAuth)
    ensures var file := PerformAll(None, commands);
            file.Some? ==> Acyclic(file.value) && !GateDecision(file.value, auth).IssuerCycle?
  {
    CommandsKeepAcyclic(None, commands);
    var file := PerformAll(None, commands);
    if file.Some? {
      CycleRefusalIffUngrounded(file.value, auth);
    }
  }

  // ---- A validated grant is usable ----------------------------------------------------

  /** Once inserted, a validated grant is worth exactly what it says. */
  lemma ValidatedGrantIsFullyUsable(sources: Sources, source: string, grant: SourceGrant, auth: WriteAuth)
    requires ValidateGrant(sources, source, grant).None? && auth.source == source
    ensures GateDecision(sources[source := grant], auth) == Accepted <==>
            AtMost(auth.authority, grant.maxAuthority) && ScopeCovers(grant.scope, auth.Subject())
  {
    var added := sources[source := grant];
    if grant.issuer.Some? {
      var issuer := grant.issuer.value;
      ValidatedChainBacks(sources, source, grant, issuer, {});
      var n: nat :| Link(sources, issuer, n) == None;
      LinkAfterAdd(sources, source, grant, issuer, n);
      if Authorizes(added, source, auth) {
        forall k: nat | Link(added, issuer, k).Some?
          ensures Authorizes(added, Link(added, issuer, k).value, auth)
        {
          LinkAfterAdd(sources, source, grant, issuer, k);
        }
      }
    }
    GroundedByIssuer(added, source);
    if Authorizes(added, source, auth) { ChainAuthorizesByIssuer(added, source, auth); }
    assert Link(added, source, 0) == Some(source);
    GateAcceptsIffAuthorized(added, auth);
  }
}
