/**
 Signed source identity: grants, the write-boundary check, and per-event attestation.

 Signatures are ideal and deterministic: a signature verifies for a message exactly when the holder
 of that key has signed that message. `Keyring.made` is what has been signed so far.
 */
module Identity {
  import opened Wrappers
  import opened AuthorityLevels
  import opened Text
  import opened Utf8
  import opened Hex
  import opened Framing
  import opened JsonText
  import opened EventIds
  import opened Registry
  import opened FactLog

  // ---- Signatures ---------------------------------------------------------------------

  datatype Keyring = Keyring(
    publicOf: Bytes -> Bytes, sign: (Bytes, Bytes) -> Bytes, validKey: Bytes -> bool,
    canonical: FactEvent -> Bytes, made: set<(Bytes, Bytes)>)
  {
    /** Key and signature sizes, and that every public key decodes. */
    ghost predicate Sound()
    {
      && (forall secret :: |publicOf(secret)| == 32 && validKey(publicOf(secret)))
      && (forall secret, message :: |sign(secret, message)| == 64)
    }

    /** The holder of `key` signed `message`, and `signature` is that signature. */
    predicate Verifies(key: Bytes, message: Bytes, signature: Bytes)
    {
      exists pair :: pair in made && pair.1 == message && publicOf(pair.0) == key && sign(pair.0, message) == signature
    }

    function PublicKey(hex: string): Option<Bytes>
    {
      var bytes := FixedFromHex(hex, 32);
      if bytes.Some? && validKey(bytes.value) then bytes else None
    }
  }

  function Signature(hex: string): Option<Bytes> { FixedFromHex(hex, 64) }

  // ---- What gets signed ---------------------------------------------------------------

  datatype GrantPayload = GrantPayload(
    version: nat, source: string, publicKey: string, maxAuthority: AuthorityLevel, issuer: string,
    scope: Option<string>, expiresAt: Option<int>)

  datatype SignedGrant = SignedGrant(grant: GrantPayload, signature: string)

  datatype ActiveGrant = ActiveGrant(grantSignature: string, publicKey: string)

  datatype SessionChallenge = SessionChallenge(nonce: string, source: string, publicKey: string, grantSignature: string)

  /** One string member of a JSON object, and the rest of the object. */
  function Field(key: string, value: string, rest: string): string
  {
    key + (Quote(value) + rest)
  }

  function ChallengeJson(c: SessionChallenge): string
  {
    Field("{\"nonce\":", c.nonce,
    Field(",\"source\":", c.source,
    Field(",\"public_key\":", c.publicKey,
    Field(",\"grant_signature\":", c.grantSignature, "}"))))
  }

  function SignedDecimal(n: int): string { if n < 0 then "-" + Decimal(-n) else Decimal(n) }

  function ExpiryJson(expiresAt: Option<int>): string
  {
    if expiresAt.None? then "}" else ",\"expires_at_ms\":" + (SignedDecimal(expiresAt.value) + "}")
  }

  /** The optional members are left out when absent. */
  function ScopeJson(scope: Option<string>, expiresAt: Option<int>): string
  {
    if scope.None? then ExpiryJson(expiresAt) else Field(",\"scope\":", scope.value, ExpiryJson(expiresAt))
  }

  function GrantJson(g: GrantPayload): string
  {
    "{\"version\":" + (Decimal(g.version) +
    Field(",\"source\":", g.source,
    Field(",\"public_key\":", g.publicKey,
    Field(",\"max_authority\":", Name(g.maxAuthority),
    Field(",\"issuer\":", g.issuer, ScopeJson(g.scope, g.expiresAt))))))
  }

  function ChallengeMessage(c: SessionChallenge): Bytes { Framed(SESSION_CHALLENGE_DOMAIN, Encode(ChallengeJson(c))) }

  function GrantMessage(g: GrantPayload): Bytes { Framed(GRANT_DOMAIN, Encode(GrantJson(g))) }

  /** The signature cannot cover itself: the field is stripped first. */
  function AttestationMessage(keys: Keyring, event: FactEvent): Bytes
  {
    Framed(ATTESTATION_DOMAIN, keys.canonical(event.(attestation := None)))
  }

  // ---- The identity a write runs under ------------------------------------------------

  datatype File<+T> = Missing | Unreadable | Contents(value: T)

  /** The files an identity context names, as read; `None` for a path that is not configured. */
  datatype Context = Context(
    trust: File<map<string, string>>, trustExplicit: bool, grant: Option<File<SignedGrant>>,
    key: Option<File<string>>, active: Option<File<map<string, ActiveGrant>>>, required: bool)
  {
    predicate Configured()
    {
      required || trustExplicit || grant.Some? || key.Some? || !trust.Missing?
    }
  }

  datatype IdentityError =
    | TrustUnusable | NoTrustedIssuer | UnsignedAboveAgentTier
    | GrantUnusable | KeyUnusable | KeyDoesNotMatchGrant
    | UnsupportedVersion | InvalidSource | InvalidGrantKey | GrantExpired
    | UntrustedIssuer | InvalidIssuerKey | InvalidSignature | SignatureDoesNotVerify
    | SourceMismatch | AboveGrant | ScopeMismatch
    | ActiveRegistryUnusable | NotRegisteredActive | InvalidActiveEntry | NotTheActiveGrant | ActiveKeyDiffers

  const AGENT_TIER: AuthorityLevel := Low

  predicate ExpiredAt(grant: GrantPayload, now: int) { grant.expiresAt.Some? && grant.expiresAt.value < now }

  function VerifyGrant(keys: Keyring, signed: SignedGrant, trust: map<string, string>, now: int): Option<IdentityError>
  {
    var grant := signed.grant;
    if grant.version != 1 then Some(UnsupportedVersion)
    else if IsBlank(grant.source) then Some(InvalidSource)
    else if keys.PublicKey(grant.publicKey).None? then Some(InvalidGrantKey)
    else if ExpiredAt(grant, now) then Some(GrantExpired)
    else if grant.issuer !in trust then Some(UntrustedIssuer)
    else
      var issuerKey, signature := keys.PublicKey(trust[grant.issuer]), Signature(signed.signature);
      if issuerKey.None? then Some(InvalidIssuerKey)
      else if signature.None? then Some(InvalidSignature)
      else if !keys.Verifies(issuerKey.value, GrantMessage(grant), signature.value) then Some(SignatureDoesNotVerify)
      else None
  }

  function VerifyGrantMatchesWrite(grant: GrantPayload, auth: WriteAuth, now: int): Option<IdentityError>
  {
    if grant.source != auth.source then Some(SourceMismatch)
    else if !AtMost(auth.authority, grant.maxAuthority) then Some(AboveGrant)
    else if ExpiredAt(grant, now) then Some(GrantExpired)
    else if grant.scope.Some? && grant.scope.value != "*" && grant.scope.value != auth.Subject() then Some(ScopeMismatch)
    else None
  }

  function VerifyActiveGrant(keys: Keyring, signed: SignedGrant, active: map<string, ActiveGrant>): Option<IdentityError>
  {
    if signed.grant.source !in active then Some(NotRegisteredActive)
    else
      var entry := active[signed.grant.source];
      if Signature(entry.grantSignature).None? || keys.PublicKey(entry.publicKey).None? then Some(InvalidActiveEntry)
      else if !EqIgnoreAsciiCase(entry.grantSignature, signed.signature) then Some(NotTheActiveGrant)
      else if !EqIgnoreAsciiCase(entry.publicKey, signed.grant.publicKey) then Some(ActiveKeyDiffers)
      else None
  }

  function VerifyActiveGrantIfConfigured(keys: Keyring, signed: SignedGrant, active: Option<File<map<string, ActiveGrant>>>)
    : Option<IdentityError>
  {
    if active.None? then None
    else if !active.value.Contents? then Some(ActiveRegistryUnusable)
    else VerifyActiveGrant(keys, signed, active.value.value)
  }

  function LoadGrant(ctx: Context): Result<SignedGrant, IdentityError>
  {
    if ctx.grant.None? || !ctx.grant.value.Contents? then Err(GrantUnusable) else Ok(ctx.grant.value.value)
  }

  /** The signing key, checked to be the one the grant names. */
  function LoadSigningKey(keys: Keyring, ctx: Context, grant: GrantPayload): Result<Bytes, IdentityError>
  {
    if ctx.key.None? || !ctx.key.value.Contents? then Err(KeyUnusable)
    else
      var secret, named := FixedFromHex(ctx.key.value.value, 32), keys.PublicKey(grant.publicKey);
      if secret.None? then Err(KeyUnusable)
      else if named.None? then Err(InvalidGrantKey)
      else if keys.publicOf(secret.value) != named.value then Err(KeyDoesNotMatchGrant)
      else Ok(secret.value)
  }

  /** `enforce_write`: the identity half of the write gate; `None` lets the write through. */
  function EnforceWrite(keys: Keyring, ctx: Context, auth: WriteAuth, now: int): Option<IdentityError>
  {
    match ctx.trust
    case Unreadable => Some(TrustUnusable)
    case Missing =>
      if ctx.Configured() then Some(TrustUnusable)
      else if !AtMost(auth.authority, AGENT_TIER) then Some(UnsignedAboveAgentTier)
      else None
    case Contents(trust) =>
      if trust == map[] then Some(NoTrustedIssuer)
      else
        match LoadGrant(ctx)
        case Err(error) => Some(error)
        case Ok(signed) =>
          var refused := VerifyGrant(keys, signed, trust, now);
          if refused.Some? then refused
          else
            var mismatch := VerifyGrantMatchesWrite(signed.grant, auth, now);
            if mismatch.Some? then mismatch
            else
              var inactive := VerifyActiveGrantIfConfigured(keys, signed, ctx.active);
              if inactive.Some? then inactive
              else
                match LoadSigningKey(keys, ctx, signed.grant)
                case Err(error) => Some(error)
                case Ok(_) => None
  }

  // ---- Attestation --------------------------------------------------------------------

  function Attested(keys: Keyring, grant: GrantPayload, secret: Bytes, event: FactEvent): FactEvent
  {
    event.(attestation := Some(WriteAttestation(grant.publicKey, ToHex(keys.sign(secret, AttestationMessage(keys, event))))))
  }

  function AttestedEach(keys: Keyring, grant: GrantPayload, secret: Bytes, events: Log): Log
  {
    seq(|events|, i requires 0 <= i < |events| => Attested(keys, grant, secret, events[i]))
  }

  /** What signing each event adds to the messages signed so far. */
  function MessagesSigned(keys: Keyring, secret: Bytes, events: Log): set<(Bytes, Bytes)>
  {
    if events == [] then {}
    else MessagesSigned(keys, secret, events[..|events| - 1]) + {(secret, AttestationMessage(keys, events[|events| - 1]))}
  }

  function Grown(keys: Keyring, secret: Bytes, events: Log): Keyring
  {
    keys.(made := keys.made + MessagesSigned(keys, secret, events))
  }

  /** The two differ at most in their attestations. */
  predicate SameContent(a: Log, b: Log)
  {
    |a| == |b| && forall i :: 0 <= i < |a| ==> b[i] == a[i].(attestation := b[i].attestation)
  }

  datatype Batch = Batch(events: Log, keys: Keyring)

  /** `attest_events`: unchanged in development mode, signed throughout when identity is configured. */
  function AttestAll(keys: Keyring, ctx: Context, events: Log): (r: Result<Batch, IdentityError>)
    ensures r.Ok? ==> SameContent(events, r.value.events)
  {
    if !ctx.Configured() then Ok(Batch(events, keys))
    else
      match LoadGrant(ctx)
      case Err(error) => Err(error)
      case Ok(signed) =>
        match LoadSigningKey(keys, ctx, signed.grant)
        case Err(error) => Err(error)
        case Ok(secret) => Ok(Batch(AttestedEach(keys, signed.grant, secret, events), Grown(keys, secret, events)))
  }

  /** The same, rewriting the batch in place. */
  method AttestEvents(keys: Keyring, ctx: Context, events: array<FactEvent>)
    returns (error: Option<IdentityError>, grown: Keyring)
    modifies events
    ensures match AttestAll(keys, ctx, old(events[..]))
            case Ok(batch) => error == None && events[..] == batch.events && grown == batch.keys
            case Err(e) => error == Some(e) && events[..] == old(events[..]) && grown == keys
  {
    hide LoadGrant, LoadSigningKey, AttestedEach, Grown;
    if !ctx.Configured() { return None, keys; }
    var signed := LoadGrant(ctx);
    if signed.Err? { return Some(signed.error), keys; }
    var secret := LoadSigningKey(keys, ctx, signed.value.grant);
    if secret.Err? { return Some(secret.error), keys; }
    grown := SignEach(keys, signed.value.grant, secret.value, events);
    error := None;
  }

  /** The signing loop: a stale attestation is dropped, never signed over. */
  method SignEach(keys: Keyring, grant: GrantPayload, secret: Bytes, events: array<FactEvent>) returns (grown: Keyring)
    modifies events
    ensures events[..] == AttestedEach(keys, grant, secret, old(events[..]))
    ensures grown == Grown(keys, secret, old(events[..]))
  {
    hide Attested, AttestationMessage;
    grown := keys;
    ghost var before := events[..];
    for i := 0 to events.Length
      invariant forall k :: 0 <= k < i ==> events[k] == Attested(keys, grant, secret, before[k])
      invariant forall k :: i <= k < events.Length ==> events[k] == before[k]
      invariant grown == keys.(made := keys.made + MessagesSigned(keys, secret, before[..i]))
    {
      var event := events[i].(attestation := None);
      var message := AttestationMessage(keys, event);
      var signature := keys.sign(secret, message);
      grown := grown.(made := grown.made + {(secret, message)});
      events[i] := event.(attestation := Some(WriteAttestation(grant.publicKey, ToHex(signature))));
      StaleAttestationDropped(keys, grant, secret, before[i]);
      assert before[..i + 1][..i] == before[..i];
    }
    assert before[..events.Length] == before;
  }

  lemma StaleAttestationDropped(keys: Keyring, grant: GrantPayload, secret: Bytes, event: FactEvent)
    ensures var stripped := event.(attestation := None);
            && AttestationMessage(keys, stripped) == AttestationMessage(keys, event)
            && Attested(keys, grant, secret, event)
            == stripped.(attestation := Some(WriteAttestation(
                                               grant.publicKey, ToHex(keys.sign(secret, AttestationMessage(keys, stripped))))))
  {
  }

  datatype AttestationCheck = Unattested | Valid | Refuted(error: IdentityError)

  function VerifyEventAttestation(keys: Keyring, event: FactEvent): AttestationCheck
  {
    if event.attestation.None? then Unattested
    else
      var key, signature := keys.PublicKey(event.attestation.value.publicKey), Signature(event.attestation.value.signature);
      if key.None? then Refuted(InvalidGrantKey)
      else if signature.None? then Refuted(InvalidSignature)
      else if !keys.Verifies(key.value, AttestationMessage(keys, event), signature.value) then Refuted(SignatureDoesNotVerify)
      else Valid
  }

  // ---- The session challenge ----------------------------------------------------------

  datatype VerifiedHello = VerifiedHello(source: string, publicKey: string, grantSignature: string)

  function Challenge(hello: VerifiedHello, nonce: string): SessionChallenge
  {
    SessionChallenge(nonce, hello.source, hello.publicKey, hello.grantSignature)
  }

  function VerifySessionHello(keys: Keyring, ctx: Context, presented: SignedGrant, source: string, now: int)
    : Result<VerifiedHello, IdentityError>
  {
    if presented.grant.source != source then Err(SourceMismatch)
    else if !ctx.trust.Contents? then Err(TrustUnusable)
    else
      var refused := VerifyGrant(keys, presented, ctx.trust.value, now);
      if refused.Some? then Err(refused.value)
      else
        var inactive := VerifyActiveGrantIfConfigured(keys, presented, ctx.active);
        if inactive.Some? then Err(inactive.value)
        else
          match LoadSigningKey(keys, ctx, presented.grant)
          case Err(error) => Err(error)
          case Ok(_) => Ok(VerifiedHello(source, presented.grant.publicKey, presented.signature))
  }

  function VerifySessionProve(keys: Keyring, hello: VerifiedHello, nonce: string, signature: string): Option<IdentityError>
  {
    var key, bytes := keys.PublicKey(hello.publicKey), Signature(signature);
    if key.None? then Some(InvalidGrantKey)
    else if bytes.None? then Some(InvalidSignature)
    else if !keys.Verifies(key.value, ChallengeMessage(Challenge(hello, nonce)), bytes.value) then Some(SignatureDoesNotVerify)
    else None
  }

  /** The client's half: the signature it sends, and the keyring once it has signed. */
  function SignSessionChallenge(keys: Keyring, challenge: SessionChallenge, secret: Bytes): (string, Keyring)
  {
    var message := ChallengeMessage(challenge);
    (ToHex(keys.sign(secret, message)), keys.(made := keys.made + {(secret, message)}))
  }
}
