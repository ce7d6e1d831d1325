/**
 What the write gate decides. The issuer chain of a source either ends (at an operator-level
 root) or runs round a cycle for ever; the gate accepts exactly the grounded chains whose every
 registered link covers the subject and holds the requested level.
 */
module RegistryGate {
  import opened Wrappers
  import opened AuthorityLevels
  import opened Registry

  /** A registered link covers the subject and holds the level; an unregistered one is a root. */
  predicate Authorizes(sources: Sources, link: string, auth: WriteAuth)
  {
    link in sources ==>
      ScopeCovers(sources[link].scope, auth.Subject()) && AtMost(auth.authority, sources[link].maxAuthority)
  }

  ghost predicate ChainAuthorizes(sources: Sources, source: string, auth: WriteAuth)
  {
    forall k: nat :: Link(sources, source, k).Some? ==> Authorizes(sources, Link(sources, source, k).value, auth)
  }

  /** The declarative form of "this source may make this write". */
  ghost predicate Authorized(sources: Sources, auth: WriteAuth)
  {
    && AtMost(auth.authority, Ceiling(sources, auth.source))
    && Grounded(sources, auth.source)
    && ChainAuthorizes(sources, auth.source, auth)
  }

  // ---- Chains -------------------------------------------------------------------------

  /** The chain of a link is the rest of the chain it is on. */
  lemma {:induction false} LinkSplit(sources: Sources, source: string, a: nat, b: nat)
    requires Link(sources, source, a).Some?
    ensures Link(sources, source, a + b) == Link(sources, Link(sources, source, a).value, b)
    decreases a
  {
    if a != 0 {
      LinkSplit(sources, sources[source].issuer.value, a - 1, b);
    }
  }

  lemma {:induction false} ChainStaysEnded(sources: Sources, source: string, a: nat, b: nat)
    requires a <= b && Link(sources, source, a) == None
    ensures Link(sources, source, b) == None
    decreases a
  {
    if a != 0 && source in sources && sources[source].issuer.Some? {
      ChainStaysEnded(sources, sources[source].issuer.value, a - 1, b - 1);
    }
  }

  /** A chain that ends passes no link twice. */
  lemma {:induction false} GroundedChainNeverRepeats(sources: Sources, source: string, i: nat, j: nat, n: nat)
    requires Link(sources, source, n) == None
    requires i < j && Link(sources, source, i).Some?
    ensures Link(sources, source, i) != Link(sources, source, j)
    decreases n
  {
    if Link(sources, source, i) == Link(sources, source, j) {
      if n < j {
        ChainStaysEnded(sources, source, n, j);
      } else {
        LinkSplit(sources, source, i, n - j);
        LinkSplit(sources, source, j, n - j);
        GroundedChainNeverRepeats(sources, source, i, j, n - (j - i));
      }
    }
  }

  lemma GroundedLinks(sources: Sources, source: string, k: nat)
    requires Grounded(sources, source) && Link(sources, source, k).Some?
    ensures Grounded(sources, Link(sources, source, k).value)
  {
    var n: nat :| Link(sources, source, n) == None;
    if n < k { ChainStaysEnded(sources, source, n, k); }
    LinkSplit(sources, source, k, n - k);
  }

  lemma GroundedByIssuer(sources: Sources, source: string)
    requires source in sources ==> sources[source].issuer.Some? ==> Grounded(sources, sources[source].issuer.value)
    ensures Grounded(sources, source)
  {
    if source in sources && sources[source].issuer.Some? {
      var n: nat :| Link(sources, sources[source].issuer.value, n) == None;
      assert Link(sources, source, n + 1) == None;
    } else {
      assert Link(sources, source, 1) == None;
    }
  }

  lemma ChainAuthorizesByIssuer(sources: Sources, source: string, auth: WriteAuth)
    requires Authorizes(sources, source, auth)
    requires source in sources ==> sources[source].issuer.Some? ==>
               ChainAuthorizes(sources, sources[source].issuer.value, auth)
    ensures ChainAuthorizes(sources, source, auth)
  {
    forall k: nat | Link(sources, source, k).Some?
      ensures Authorizes(sources, Link(sources, source, k).value, auth)
    {
      if k != 0 {
        assert Link(sources, source, k) == Link(sources, sources[source].issuer.value, k - 1);
      }
    }
  }

  // ---- The gate -----------------------------------------------------------------------

  lemma {:induction false} AcceptedWalkIsGrounded(sources: Sources, auth: WriteAuth, link: string, visited: set<string>)
    requires Walk(sources, auth, link, visited) == Accepted
    ensures Grounded(sources, link) && ChainAuthorizes(sources, link, auth)
    decreases sources.Keys - visited
  {
    if link in sources && sources[link].issuer.Some? {
      assert link in sources.Keys - visited;
      AcceptedWalkIsGrounded(sources, auth, sources[link].issuer.value, visited + {link});
    }
    GroundedByIssuer(sources, link);
    ChainAuthorizesByIssuer(sources, link, auth);
  }

  lemma {:induction false} GroundedWalkIsAccepted(sources: Sources, auth: WriteAuth, link: string, visited: set<string>, n: nat)
    requires Link(sources, link, n) == None && ChainAuthorizes(sources, link, auth)
    requires forall k: nat :: Link(sources, link, k).Some? ==> Link(sources, link, k).value !in visited
    ensures Walk(sources, auth, link, visited) == Accepted
    decreases n
  {
    assert Link(sources, link, 0) == Some(link);
    if link in sources && sources[link].issuer.Some? {
      var issuer := sources[link].issuer.value;
      forall k: nat | Link(sources, issuer, k).Some?
        ensures Link(sources, issuer, k).value !in visited + {link}
        ensures Authorizes(sources, Link(sources, issuer, k).value, auth)
      {
        assert Link(sources, link, k + 1) == Link(sources, issuer, k);
        GroundedChainNeverRepeats(sources, link, 0, k + 1, n);
      }
      GroundedWalkIsAccepted(sources, auth, issuer, visited + {link}, n - 1);
    }
  }

  /** The gate accepts exactly the writes the declarative spec authorizes. */
  lemma GateAcceptsIffAuthorized(sources: Sources, auth: WriteAuth)
    ensures GateDecision(sources, auth) == Accepted <==> Authorized(sources, auth)
  {
    if GateDecision(sources, auth) == Accepted {
      AcceptedWalkIsGrounded(sources, auth, auth.source, {});
    }
    if Authorized(sources, auth) {
      var n: nat :| Link(sources, auth.source, n) == None;
      GroundedWalkIsAccepted(sources, auth, auth.source, {}, n);
    }
  }

  /** `visited` is the authorizing part of a chain that has come as far as `link`. */
  ghost predicate Passed(sources: Sources, auth: WriteAuth, visited: set<string>, link: string)
  {
    forall v :: v in visited ==>
      v in sources && Authorizes(sources, v, auth) && sources[v].issuer.Some? && sources[v].issuer.value in visited + {link}
  }

  /** A closed set of authorizing links is a chain that authorizes and never ends. */
  lemma {:induction false} ClosedChain(sources: Sources, auth: WriteAuth, visited: set<string>, source: string, k: nat)
    requires Passed(sources, auth, visited, source) && source in visited
    ensures Link(sources, source, k).Some? && Link(sources, source, k).value in visited
    decreases k
  {
    if k != 0 {
      ClosedChain(sources, auth, visited, sources[source].issuer.value, k - 1);
    }
  }

  lemma {:induction false} RefusedWalk(sources: Sources, auth: WriteAuth, link: string, visited: set<string>)
    requires Passed(sources, auth, visited, link)
    ensures var outcome := Walk(sources, auth, link, visited);
            && !outcome.AboveCeiling?
            && (outcome.IssuerCycle? ==> exists all: set<string> :: visited + {link} <= all && Passed(sources, auth, all, link))
            && (outcome.OutOfScope? || outcome.AboveIssuerCeiling? ==> !ChainAuthorizes(sources, link, auth))
    decreases sources.Keys - visited
  {
    assert Link(sources, link, 0) == Some(link);
    if link in visited {
      assert visited + {link} == visited;
    } else if link in sources && Authorizes(sources, link, auth) && sources[link].issuer.Some? {
      assert link in sources.Keys - visited;
      var issuer := sources[link].issuer.value;
      RefusedWalk(sources, auth, issuer, visited + {link});
      var outcome := Walk(sources, auth, issuer, visited + {link});
      if outcome.IssuerCycle? {
        var all: set<string> :| visited + {link} + {issuer} <= all && Passed(sources, auth, all, issuer);
        assert Passed(sources, auth, all, link);
      } else if ChainAuthorizes(sources, link, auth) {
        forall k: nat | Link(sources, issuer, k).Some?
          ensures Authorizes(sources, Link(sources, issuer, k).value, auth)
        {
          assert Link(sources, link, k + 1) == Link(sources, issuer, k);
        }
      }
    }
  }

  /** The cycle branch is taken exactly on a chain that authorizes all the way and never reaches a root. */
  lemma CycleRefusalIffUngrounded(sources: Sources, auth: WriteAuth)
    ensures GateDecision(sources, auth).IssuerCycle? <==>
            && AtMost(auth.authority, Ceiling(sources, auth.source))
            && !Grounded(sources, auth.source)
            && ChainAuthorizes(sources, auth.source, auth)
  {
    var outcome := Walk(sources, auth, auth.source, {});
    RefusedWalk(sources, auth, auth.source, {});
    GateAcceptsIffAuthorized(sources, auth);
    if outcome.IssuerCycle? {
      var all: set<string> :| {auth.source} <= all && Passed(sources, auth, all, auth.source);
      forall k: nat
        ensures Link(sources, auth.source, k).Some? && Authorizes(sources, Link(sources, auth.source, k).value, auth)
      {
        ClosedChain(sources, auth, all, auth.source, k);
      }
    }
  }

  /** `visited` holds the links of the chain before the `k`-th. */
  ghost predicate HasPassed(sources: Sources, source: string, k: nat, visited: set<string>)
  {
    && (forall i: nat :: i < k && Link(sources, source, i).Some? ==> Link(sources, source, i).value in visited)
    && (forall v :: v in visited ==> exists i: nat :: i < k && Link(sources, source, i) == Some(v))
  }

  lemma PassedLinksGrow(sources: Sources, source: string, k: nat, visited: set<string>)
    requires HasPassed(sources, source, k, visited) && Link(sources, source, k).Some?
    ensures HasPassed(sources, source, k + 1, visited + {Link(sources, source, k).value})
  {
    hide Link;
    var link := Link(sources, source, k).value;
    forall v | v in visited + {link} ensures exists i: nat :: i < k + 1 && Link(sources, source, i) == Some(v)
    {
      if v in visited {
        var i: nat :| i < k && Link(sources, source, i) == Some(v);
        assert i < k + 1;
      }
    }
  }

  /** The links of the chain before the `k`-th all authorize the write. */
  predicate AuthorizesUpTo(sources: Sources, auth: WriteAuth, k: nat)
  {
    forall i: nat :: i < k ==> Link(sources, auth.source, i).Some? && Authorizes(sources, Link(sources, auth.source, i).value, auth)
  }

  /** The gate's answer is the case of the first link on the chain that does not authorize, and names it. */
  ghost predicate GateSaysWhy(sources: Sources, auth: WriteAuth, outcome: GateOutcome)
  {
    match outcome
    case Accepted => Authorized(sources, auth)
    case AboveCeiling => !AtMost(auth.authority, Ceiling(sources, auth.source))
    case IssuerCycle(link) =>
      exists i: nat, k: nat ::
        i < k && AuthorizesUpTo(sources, auth, k) && Link(sources, auth.source, i) == Some(link) == Link(sources, auth.source, k)
    case OutOfScope(link) =>
      && link in sources && !ScopeCovers(sources[link].scope, auth.Subject())
      && exists k: nat :: AuthorizesUpTo(sources, auth, k) && Link(sources, auth.source, k) == Some(link)
    case AboveIssuerCeiling(link) =>
      && link in sources && ScopeCovers(sources[link].scope, auth.Subject())
      && !AtMost(auth.authority, sources[link].maxAuthority)
      && exists k: nat :: AuthorizesUpTo(sources, auth, k) && Link(sources, auth.source, k) == Some(link)
  }

  lemma {:induction false} WalkSaysWhy(sources: Sources, auth: WriteAuth, link: string, visited: set<string>, k: nat)
    requires Link(sources, auth.source, k) == Some(link) && AuthorizesUpTo(sources, auth, k)
    requires HasPassed(sources, auth.source, k, visited)
    ensures var outcome := Walk(sources, auth, link, visited);
            outcome != Accepted ==> GateSaysWhy(sources, auth, outcome)
    decreases sources.Keys - visited
  {
    if link in visited {
      var i: nat :| i < k && Link(sources, auth.source, i) == Some(link);
    } else if link in sources && Authorizes(sources, link, auth) && sources[link].issuer.Some? {
      hide GateSaysWhy;
      assert link in sources.Keys - visited;
      LinkSplit(sources, auth.source, k, 1);
      PassedLinksGrow(sources, auth.source, k, visited);
      WalkSaysWhy(sources, auth, sources[link].issuer.value, visited + {link}, k + 1);
    }
  }

  /** Whatever the gate answers is so: which check failed, and at which link. */
  lemma GateAnswerIsTheCase(sources: Sources, auth: WriteAuth)
    ensures GateSaysWhy(sources, auth, GateDecision(sources, auth))
  {
    hide Authorized;
    GateAcceptsIffAuthorized(sources, auth);
    WalkSaysWhy(sources, auth, auth.source, {}, 0);
  }

  // ---- Delegation ---------------------------------------------------------------------

  /** An accepted write would be accepted from every registered issuer on the writer's chain. */
  lemma NoDelegationBeyondWhatIsHeld(sources: Sources, auth: WriteAuth, k: nat)
    requires GateDecision(sources, auth) == Accepted
    requires Link(sources, auth.source, k).Some? && Link(sources, auth.source, k).value in sources
    ensures GateDecision(sources, auth.(source := Link(sources, auth.source, k).value)) == Accepted
  {
    GateAcceptsIffAuthorized(sources, auth);
    var issuer := Link(sources, auth.source, k).value;
    var issued := auth.(source := issuer);
    GroundedLinks(sources, auth.source, k);
    forall i: nat | Link(sources, issuer, i).Some?
      ensures Authorizes(sources, Link(sources, issuer, i).value, issued)
    {
      LinkSplit(sources, auth.source, k, i);
    }
    GateAcceptsIffAuthorized(sources, issued);
  }

  /** Below a newly listed source a chain is unchanged until it meets that source. */
  lemma {:induction false} LinkAfterListing(sources: Sources, name: string, grant: SourceGrant, source: string, k: nat)
    requires name !in sources
    ensures Link(sources, source, k).Some? ==> Link(sources[name := grant], source, k) == Link(sources, source, k)
    decreases k
  {
    if k != 0 && source in sources && sources[source].issuer.Some? {
      LinkAfterListing(sources, name, grant, sources[source].issuer.value, k - 1);
    }
  }

  /** Listing a previously unlisted source never widens what any other source may write. */
  lemma ListingNeverWidensOthers(sources: Sources, name: string, grant: SourceGrant, auth: WriteAuth)
    requires name !in sources && auth.source != name
    requires GateDecision(sources[name := grant], auth) == Accepted
    ensures GateDecision(sources, auth) == Accepted
  {
    var listed := sources[name := grant];
    GateAcceptsIffAuthorized(listed, auth);
    var n: nat :| Link(listed, auth.source, n) == None;
    LinkAfterListing(sources, name, grant, auth.source, n);
    forall k: nat | Link(sources, auth.source, k).Some?
      ensures Authorizes(sources, Link(sources, auth.source, k).value, auth)
    {
      LinkAfterListing(sources, name, grant, auth.source, k);
      assert Authorizes(listed, Link(listed, auth.source, k).value, auth);
    }
    GateAcceptsIffAuthorized(sources, auth);
  }
}
