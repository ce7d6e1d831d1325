/** What a signature covers, and what a write that passes the identity check is attested with. */
module IdentityProofs {
  import opened Wrappers
  import opened AuthorityLevels
  import opened Text
  import opened Utf8
  import opened Hex
  import opened Framing
  import opened JsonText
  import opened EventIds
  import opened Registry
  import opened FactLog
  import opened Identity

  // ---- The signed bytes are unambiguous -----------------------------------------------

  lemma FieldIsInjective(key: string, s: string, a: string, t: string, b: string)
    requires Field(key, s, a) == Field(key, t, b)
    ensures s == t && a == b
  {
    hide Quote;
    assert Field(key, s, a)[|key|..] == Quote(s) + a;
    assert Field(key, t, b)[|key|..] == Quote(t) + b;
    QuoteIsPrefixFree(s, a, t, b);
  }

  lemma ChallengeJsonIsInjective(c: SessionChallenge, d: SessionChallenge)
    requires ChallengeJson(c) == ChallengeJson(d)
    ensures c == d
  {
    hide Field;
    var k2, k3, k4 := ",\"source\":", ",\"public_key\":", ",\"grant_signature\":";
    var c4, d4 := Field(k4, c.grantSignature, "}"), Field(k4, d.grantSignature, "}");
    var c3, d3 := Field(k3, c.publicKey, c4), Field(k3, d.publicKey, d4);
    var c2, d2 := Field(k2, c.source, c3), Field(k2, d.source, d3);
    FieldIsInjective("{\"nonce\":", c.nonce, c2, d.nonce, d2);
    FieldIsInjective(k2, c.source, c3, d.source, d3);
    FieldIsInjective(k3, c.publicKey, c4, d.publicKey, d4);
    FieldIsInjective(k4, c.grantSignature, "}", d.grantSignature, "}");
  }

  /** A number is read up to the first character that is not a digit. */
  lemma {:induction false} DigitsEndAtFirstOther(x: string, a: string, y: string, b: string)
    requires x + a == y + b
    requires forall i :: 0 <= i < |x| ==> '0' <= x[i] <= '9'
    requires forall i :: 0 <= i < |y| ==> '0' <= y[i] <= '9'
    requires a != "" && b != "" && !('0' <= a[0] <= '9') && !('0' <= b[0] <= '9')
    ensures x == y && a == b
  {
    var s := x + a;
    assert s[|x|] == a[0] && s[|y|] == b[0];
    assert forall i :: 0 <= i < |x| ==> s[i] == x[i];
    assert forall i :: 0 <= i < |y| ==> s[i] == y[i];
    assert s[..|x|] == x && s[..|y|] == y && s[|x|..] == a && s[|y|..] == b;
  }

  lemma ExpiryJsonIsInjective(e: Option<int>, f: Option<int>)
    requires ExpiryJson(e) == ExpiryJson(f)
    ensures e == f
  {
    hide Decimal;
    if e.Some? && f.Some? {
      var key := ",\"expires_at_ms\":";
      assert ExpiryJson(e)[|key|..] == SignedDecimal(e.value) + "}";
      assert ExpiryJson(f)[|key|..] == SignedDecimal(f.value) + "}";
      SignedDecimalIsInjective(e.value, f.value);
    }
  }

  lemma SignedDecimalIsInjective(m: int, n: int)
    requires SignedDecimal(m) + "}" == SignedDecimal(n) + "}"
    ensures m == n
  {
    hide Decimal;
    var s, t := SignedDecimal(m), SignedDecimal(n);
    assert s == (s + "}")[..|s|] && t == (t + "}")[..|t|];
    assert s[0] == '-' <==> m < 0;
    assert t[0] == '-' <==> n < 0;
    if m < 0 {
      assert s[1..] == Decimal(-m) && t[1..] == Decimal(-n);
      DecimalInjective(-m, -n);
    } else {
      DecimalInjective(m, n);
    }
  }

  lemma ScopeJsonIsInjective(s: Option<string>, e: Option<int>, t: Option<string>, f: Option<int>)
    requires ScopeJson(s, e) == ScopeJson(t, f)
    ensures s == t && e == f
  {
    ScopeMemberShows(s, e);
    ScopeMemberShows(t, f);
    hide Field, ExpiryJson;
    if s.Some? && t.Some? {
      FieldIsInjective(",\"scope\":", s.value, ExpiryJson(e), t.value, ExpiryJson(f));
    }
    ExpiryJsonIsInjective(e, f);
  }

  /** The third character tells a scope member from an expiry member or the end. */
  lemma ScopeMemberShows(s: Option<string>, e: Option<int>)
    ensures s.Some? <==> 3 <= |ScopeJson(s, e)| && ScopeJson(s, e)[2] == 's'
  {
    hide Quote, Decimal;
  }

  lemma NameIsInjective(a: AuthorityLevel, b: AuthorityLevel)
    requires Name(a) == Name(b)
    ensures a == b
  {
    assert Name(a)[0] == Name(b)[0];
  }

  /** A grant's serialization determines every field, the optional ones included. */
  lemma GrantJsonIsInjective(g: GrantPayload, h: GrantPayload)
    requires GrantJson(g) == GrantJson(h)
    ensures g == h
  {
    hide Field, Decimal, ScopeJson, Name;
    var k2, k3, k4, k5 := ",\"source\":", ",\"public_key\":", ",\"max_authority\":", ",\"issuer\":";
    var g6, h6 := ScopeJson(g.scope, g.expiresAt), ScopeJson(h.scope, h.expiresAt);
    var g5, h5 := Field(k5, g.issuer, g6), Field(k5, h.issuer, h6);
    var g4, h4 := Field(k4, Name(g.maxAuthority), g5), Field(k4, Name(h.maxAuthority), h5);
    var g3, h3 := Field(k3, g.publicKey, g4), Field(k3, h.publicKey, h4);
    var g2, h2 := Field(k2, g.source, g3), Field(k2, h.source, h3);
    VersionIsInjective(g.version, g2, h.version, h2) by { FieldStartsWithComma(k2, g.source, g3); FieldStartsWithComma(k2, h.source, h3); }
    FieldIsInjective(k2, g.source, g3, h.source, h3);
    FieldIsInjective(k3, g.publicKey, g4, h.publicKey, h4);
    FieldIsInjective(k4, Name(g.maxAuthority), g5, Name(h.maxAuthority), h5);
    FieldIsInjective(k5, g.issuer, g6, h.issuer, h6);
    NameIsInjective(g.maxAuthority, h.maxAuthority);
    ScopeJsonIsInjective(g.scope, g.expiresAt, h.scope, h.expiresAt);
  }

  lemma FieldStartsWithComma(key: string, s: string, a: string)
    requires key != "" && key[0] == ','
    ensures Field(key, s, a) != "" && Field(key, s, a)[0] == ','
  {
  }

  lemma VersionIsInjective(m: nat, a: string, n: nat, b: string)
    requires a != "" && a[0] == ',' && b != "" && b[0] == ','
    requires "{\"version\":" + (Decimal(m) + a) == "{\"version\":" + (Decimal(n) + b)
    ensures m == n && a == b
  {
    hide Decimal;
    var key := "{\"version\":";
    assert (key + (Decimal(m) + a))[|key|..] == Decimal(m) + a;
    assert (key + (Decimal(n) + b))[|key|..] == Decimal(n) + b;
    DigitsEndAtFirstOther(Decimal(m), a, Decimal(n), b);
    DecimalInjective(m, n);
  }

  /** One signed message has one reading: which kind it is, and every field of it. */
  lemma SignedMessagesAreUnambiguous(c: SessionChallenge, d: SessionChallenge, g: GrantPayload, h: GrantPayload, keys: Keyring, event: FactEvent)
    ensures ChallengeMessage(c) == ChallengeMessage(d) <==> c == d
    ensures GrantMessage(g) == GrantMessage(h) <==> g == h
    ensures GrantMessage(g) != ChallengeMessage(c)
    ensures AttestationMessage(keys, event) != ChallengeMessage(c) && AttestationMessage(keys, event) != GrantMessage(g)
  {
    hide Encode, ChallengeJson, GrantJson, Framed, IsTag;
    DomainsAreDistinctTags();
    var cb, db, gb, hb := Encode(ChallengeJson(c)), Encode(ChallengeJson(d)), Encode(GrantJson(g)), Encode(GrantJson(h));
    if ChallengeMessage(c) == ChallengeMessage(d) {
      FramingIsInjective(SESSION_CHALLENGE_DOMAIN, cb, db);
      EncodeInjective(ChallengeJson(c), ChallengeJson(d));
      ChallengeJsonIsInjective(c, d);
    }
    if GrantMessage(g) == GrantMessage(h) {
      FramingIsInjective(GRANT_DOMAIN, gb, hb);
      EncodeInjective(GrantJson(g), GrantJson(h));
      GrantJsonIsInjective(g, h);
    }
    DomainsSeparate(GRANT_DOMAIN, gb, SESSION_CHALLENGE_DOMAIN, cb);
    var body := keys.canonical(event.(attestation := None));
    DomainsSeparate(ATTESTATION_DOMAIN, body, SESSION_CHALLENGE_DOMAIN, cb);
    DomainsSeparate(ATTESTATION_DOMAIN, body, GRANT_DOMAIN, gb);
  }

  lemma DomainsSeparate(d: Bytes, a: Bytes, e: Bytes, b: Bytes)
    requires IsTag(d) && IsTag(e) && d != e
    ensures Framed(d, a) != Framed(e, b)
  {
    hide Framed, IsTag;
    if Framed(d, a) == Framed(e, b) { FramedDetermines(d, a, e, b); }
  }

  // ---- The write gate and the attestation ---------------------------------------------

  /** The grant is signed by a trusted issuer for exactly this payload. */
  ghost predicate IssuedByTrusted(keys: Keyring, signed: SignedGrant, trust: map<string, string>)
  {
    && signed.grant.issuer in trust
    && keys.PublicKey(trust[signed.grant.issuer]).Some?
    && exists secret ::
         && (secret, GrantMessage(signed.grant)) in keys.made
         && keys.publicOf(secret) == keys.PublicKey(trust[signed.grant.issuer]).value
         && Signature(signed.signature) == Some(keys.sign(secret, GrantMessage(signed.grant)))
  }

  /** The grant itself is sound: a known version, a named source, decodable keys, unexpired, signed by a trusted issuer. */
  ghost predicate IsGoodGrant(keys: Keyring, signed: SignedGrant, trust: map<string, string>, now: int)
  {
    && signed.grant.version == 1 && !IsBlank(signed.grant.source) && keys.PublicKey(signed.grant.publicKey).Some?
    && (signed.grant.expiresAt.Some? ==> now <= signed.grant.expiresAt.value)
    && IssuedByTrusted(keys, signed, trust)
  }

  /** The active registry has a well-formed entry for the source that spells this grant, up to the case of the hex. */
  predicate ListedActive(keys: Keyring, signed: SignedGrant, active: map<string, ActiveGrant>)
  {
    signed.grant.source in active &&
    var entry := active[signed.grant.source];
    && Signature(entry.grantSignature).Some? && keys.PublicKey(entry.publicKey).Some?
    && EqIgnoreAsciiCase(entry.grantSignature, signed.signature)
    && EqIgnoreAsciiCase(entry.publicKey, signed.grant.publicKey)
  }

  predicate IsActiveWhereConfigured(keys: Keyring, signed: SignedGrant, active: Option<File<map<string, ActiveGrant>>>)
  {
    active.Some? ==> active.value.Contents? && ListedActive(keys, signed, active.value.value)
  }

  /** The key file holds the secret of the key that the grant names. */
  predicate HoldsKeyOf(keys: Keyring, ctx: Context, grant: GrantPayload)
  {
    && ctx.key.Some? && ctx.key.value.Contents?
    && FixedFromHex(ctx.key.value.value, 32).Some?
    && keys.PublicKey(grant.publicKey) == Some(keys.publicOf(FixedFromHex(ctx.key.value.value, 32).value))
  }

  /** The configured grant entitles its key to this write at this time. */
  ghost predicate Entitled(keys: Keyring, ctx: Context, auth: WriteAuth, now: int, signed: SignedGrant)
  {
    && ctx.trust.Contents? && ctx.grant == Some(Contents(signed))
    && IsGoodGrant(keys, signed, ctx.trust.value, now)
    && signed.grant.source == auth.source
    && AtMost(auth.authority, signed.grant.maxAuthority)
    && ScopeCovers(signed.grant.scope, auth.subjectKind + ":" + auth.subjectKey)
    && IsActiveWhereConfigured(keys, signed, ctx.active)
  }

  /** Who may write: anyone at the agent tier where nothing is configured, else the holder of the key of an entitled grant. */
  ghost predicate MayWrite(keys: Keyring, ctx: Context, auth: WriteAuth, now: int)
  {
    if !ctx.required && !ctx.trustExplicit && ctx.grant.None? && ctx.key.None? && ctx.trust.Missing? then
      auth.authority == Unknown || auth.authority == Low
    else
      exists signed :: Entitled(keys, ctx, auth, now, signed) && HoldsKeyOf(keys, ctx, signed.grant)
  }

  /** A key is read from 64 hex digits that spell a valid key, a signature from 128, with spaces around or none. */
  lemma KeysAndSignaturesRead(keys: Keyring, text: string)
    ensures forall key :: keys.PublicKey(text) == Some(key) <==> FromHex(Trim(text)) == Some(key) && |key| == 32 && keys.validKey(key)
    ensures forall signature :: Signature(text) == Some(signature) <==> FromHex(Trim(text)) == Some(signature) && |signature| == 64
  {
    hide FromHex, Trim;
  }

  lemma VerifiesIffSigned(keys: Keyring, key: Bytes, message: Bytes, signature: Bytes)
    ensures keys.Verifies(key, message, signature) <==>
            exists secret :: (secret, message) in keys.made && keys.publicOf(secret) == key && keys.sign(secret, message) == signature
  {
    if keys.Verifies(key, message, signature) {
      var pair :| pair in keys.made && pair.1 == message && keys.publicOf(pair.0) == key && keys.sign(pair.0, message) == signature;
      assert (pair.0, message) in keys.made;
    }
    if secret :| (secret, message) in keys.made && keys.publicOf(secret) == key && keys.sign(secret, message) == signature {
      var pair := (secret, message);
      assert pair in keys.made;
    }
  }

  lemma GrantVerifiesIff(keys: Keyring, signed: SignedGrant, trust: map<string, string>, now: int)
    ensures VerifyGrant(keys, signed, trust, now) == None <==> IsGoodGrant(keys, signed, trust, now)
  {
    hide GrantMessage, FixedFromHex, IsBlank, Keyring.Verifies;
    if signed.grant.issuer in trust {
      var key, signature := keys.PublicKey(trust[signed.grant.issuer]), Signature(signed.signature);
      if key.Some? && signature.Some? { VerifiesIffSigned(keys, key.value, GrantMessage(signed.grant), signature.value); }
    }
  }

  /** An entry that spells the grant names the same bytes, so no other key or signature passes for it. */
  lemma ListedIsThisVeryGrant(keys: Keyring, signed: SignedGrant, active: map<string, ActiveGrant>)
    requires ListedActive(keys, signed, active)
    ensures FromHex(active[signed.grant.source].grantSignature) == FromHex(signed.signature)
    ensures FromHex(active[signed.grant.source].publicKey) == FromHex(signed.grant.publicKey)
  {
    var entry := active[signed.grant.source];
    CaseDoesNotChangeHex(entry.grantSignature, signed.signature);
    CaseDoesNotChangeHex(entry.publicKey, signed.grant.publicKey);
  }

  lemma ActiveIff(keys: Keyring, signed: SignedGrant, active: Option<File<map<string, ActiveGrant>>>)
    ensures VerifyActiveGrantIfConfigured(keys, signed, active) == None <==> IsActiveWhereConfigured(keys, signed, active)
  {
    hide FixedFromHex, EqIgnoreAsciiCase;
  }

  lemma KeyLoadsIff(keys: Keyring, ctx: Context, grant: GrantPayload)
    ensures LoadSigningKey(keys, ctx, grant).Ok? <==> HoldsKeyOf(keys, ctx, grant)
    ensures HoldsKeyOf(keys, ctx, grant) ==>
              LoadSigningKey(keys, ctx, grant).value == FixedFromHex(ctx.key.value.value, 32).value
  {
    hide FixedFromHex;
  }

  /** The identity half of the write gate lets a write through exactly when it may be written. */
  lemma WriteIsAdmittedIff(keys: Keyring, ctx: Context, auth: WriteAuth, now: int)
    ensures EnforceWrite(keys, ctx, auth, now) == None <==> MayWrite(keys, ctx, auth, now)
  {
    hide VerifyGrant, IsGoodGrant, VerifyActiveGrantIfConfigured, IsActiveWhereConfigured, LoadSigningKey, HoldsKeyOf;
    if ctx.trust.Contents? && ctx.grant.Some? && ctx.grant.value.Contents? {
      var signed := ctx.grant.value.value;
      GrantVerifiesIff(keys, signed, ctx.trust.value, now);
      ActiveIff(keys, signed, ctx.active);
      KeyLoadsIff(keys, ctx, signed.grant);
      if IsGoodGrant(keys, signed, ctx.trust.value, now) { GoodGrantHasAnIssuer(keys, signed, ctx.trust.value, now); }
      MatchesIff(signed.grant, auth, now);
      assert Entitled(keys, ctx, auth, now, signed) && HoldsKeyOf(keys, ctx, signed.grant) ==> MayWrite(keys, ctx, auth, now);
    }
  }

  lemma GoodGrantHasAnIssuer(keys: Keyring, signed: SignedGrant, trust: map<string, string>, now: int)
    requires IsGoodGrant(keys, signed, trust, now)
    ensures trust != map[] && !ExpiredAt(signed.grant, now)
  {
    hide GrantMessage, FixedFromHex, IsBlank;
  }

  lemma MatchesIff(grant: GrantPayload, auth: WriteAuth, now: int)
    ensures VerifyGrantMatchesWrite(grant, auth, now) == None <==>
            && !ExpiredAt(grant, now) && grant.source == auth.source && AtMost(auth.authority, grant.maxAuthority)
            && ScopeCovers(grant.scope, auth.subjectKind + ":" + auth.subjectKey)
  {
  }

  /** An unsigned write passes only in development mode and only at the agent tier. */
  lemma AdmittedWriteIsEntitledOrAgentTier(keys: Keyring, ctx: Context, auth: WriteAuth, now: int)
    requires EnforceWrite(keys, ctx, auth, now) == None
    ensures !ctx.Configured() ==> AtMost(auth.authority, AGENT_TIER)
    ensures ctx.Configured() ==>
              LoadGrant(ctx).Ok? && Entitled(keys, ctx, auth, now, LoadGrant(ctx).value)
              && LoadSigningKey(keys, ctx, LoadGrant(ctx).value.grant).Ok?
  {
    hide VerifyGrant, IsGoodGrant, IsActiveWhereConfigured, LoadSigningKey, EnforceWrite, HoldsKeyOf;
    WriteIsAdmittedIff(keys, ctx, auth, now);
    if ctx.Configured() {
      var signed :| Entitled(keys, ctx, auth, now, signed) && HoldsKeyOf(keys, ctx, signed.grant);
      KeyLoadsIff(keys, ctx, signed.grant);
    }
  }

  /** Why the gate refuses is true: each answer says something that is the case. */
  ghost predicate IsTheCase(keys: Keyring, ctx: Context, auth: WriteAuth, now: int, error: IdentityError)
  {
    var grant := if ctx.grant.Some? && ctx.grant.value.Contents? then Some(ctx.grant.value.value.grant) else None;
    match error
    case TrustUnusable => !ctx.trust.Contents?
    case NoTrustedIssuer => ctx.trust == Contents(map[])
    case UnsignedAboveAgentTier => ctx.trust.Missing? && !AtMost(auth.authority, Low)
    case GrantUnusable => grant.None?
    case KeyUnusable => ctx.key.None? || !ctx.key.value.Contents? || FixedFromHex(ctx.key.value.value, 32).None?
    case KeyDoesNotMatchGrant => grant.Some? && !HoldsKeyOf(keys, ctx, grant.value)
    case UnsupportedVersion => grant.Some? && grant.value.version != 1
    case InvalidSource => grant.Some? && IsBlank(grant.value.source)
    case InvalidGrantKey => grant.Some? && keys.PublicKey(grant.value.publicKey).None?
    case GrantExpired => grant.Some? && grant.value.expiresAt.Some? && grant.value.expiresAt.value < now
    case UntrustedIssuer => grant.Some? && ctx.trust.Contents? && grant.value.issuer !in ctx.trust.value
    case InvalidIssuerKey =>
      grant.Some? && ctx.trust.Contents? && grant.value.issuer in ctx.trust.value
      && keys.PublicKey(ctx.trust.value[grant.value.issuer]).None?
    case InvalidSignature => grant.Some? && Signature(ctx.grant.value.value.signature).None?
    case SignatureDoesNotVerify => grant.Some? && ctx.trust.Contents? && !IssuedByTrusted(keys, ctx.grant.value.value, ctx.trust.value)
    case SourceMismatch => grant.Some? && grant.value.source != auth.source
    case AboveGrant => grant.Some? && !AtMost(auth.authority, grant.value.maxAuthority)
    case ScopeMismatch => grant.Some? && !ScopeCovers(grant.value.scope, auth.subjectKind + ":" + auth.subjectKey)
    case ActiveRegistryUnusable => ctx.active.Some? && !ctx.active.value.Contents?
    case NotRegisteredActive => grant.Some? && ctx.active.Some? && ctx.active.value.Contents? && grant.value.source !in ctx.active.value.value
    case InvalidActiveEntry =>
      grant.Some? && ctx.active.Some? && ctx.active.value.Contents? && grant.value.source in ctx.active.value.value &&
      var entry := ctx.active.value.value[grant.value.source];
      Signature(entry.grantSignature).None? || keys.PublicKey(entry.publicKey).None?
    case NotTheActiveGrant =>
      grant.Some? && ctx.active.Some? && ctx.active.value.Contents? && grant.value.source in ctx.active.value.value
      && !EqIgnoreAsciiCase(ctx.active.value.value[grant.value.source].grantSignature, ctx.grant.value.value.signature)
    case ActiveKeyDiffers =>
      grant.Some? && ctx.active.Some? && ctx.active.value.Contents? && grant.value.source in ctx.active.value.value
      && !EqIgnoreAsciiCase(ctx.active.value.value[grant.value.source].publicKey, grant.value.publicKey)
  }

  lemma RefusalIsTheCase(keys: Keyring, ctx: Context, auth: WriteAuth, now: int)
    ensures var refused := EnforceWrite(keys, ctx, auth, now);
            refused.Some? ==> IsTheCase(keys, ctx, auth, now, refused.value)
  {
    hide VerifyGrant, VerifyGrantMatchesWrite, VerifyActiveGrantIfConfigured, LoadSigningKey, IsTheCase;
    if ctx.trust.Contents? && ctx.grant.Some? && ctx.grant.value.Contents? {
      GrantRefusalIsTheCase(keys, ctx, auth, now, ctx.grant.value.value);
      WriteRefusalIsTheCase(keys, ctx, auth, now, ctx.grant.value.value);
      ActiveRefusalIsTheCase(keys, ctx, auth, now, ctx.grant.value.value);
      KeyRefusalIsTheCase(keys, ctx, auth, now, ctx.grant.value.value);
    }
    NoGrantIsTheCase(keys, ctx, auth, now);
  }

  lemma NoGrantIsTheCase(keys: Keyring, ctx: Context, auth: WriteAuth, now: int)
    ensures !ctx.trust.Contents? ==> IsTheCase(keys, ctx, auth, now, TrustUnusable)
    ensures ctx.trust == Contents(map[]) ==> IsTheCase(keys, ctx, auth, now, NoTrustedIssuer)
    ensures ctx.trust.Missing? && !AtMost(auth.authority, AGENT_TIER) ==> IsTheCase(keys, ctx, auth, now, UnsignedAboveAgentTier)
    ensures LoadGrant(ctx).Err? ==> IsTheCase(keys, ctx, auth, now, LoadGrant(ctx).error)
  {
    hide FixedFromHex, IsBlank, Keyring.Verifies, EqIgnoreAsciiCase, IssuedByTrusted, HoldsKeyOf;
  }

  lemma GrantRefusalIsTheCase(keys: Keyring, ctx: Context, auth: WriteAuth, now: int, signed: SignedGrant)
    requires ctx.trust.Contents? && ctx.grant == Some(Contents(signed))
    ensures var refused := VerifyGrant(keys, signed, ctx.trust.value, now);
            refused.Some? ==> IsTheCase(keys, ctx, auth, now, refused.value)
  {
    hide GrantMessage, FixedFromHex, IsBlank, Keyring.Verifies, EqIgnoreAsciiCase, HoldsKeyOf, ScopeCovers;
    var trust := ctx.trust.value;
    if signed.grant.issuer in trust {
      var key, signature := keys.PublicKey(trust[signed.grant.issuer]), Signature(signed.signature);
      if key.Some? && signature.Some? { VerifiesIffSigned(keys, key.value, GrantMessage(signed.grant), signature.value); }
    }
  }

  lemma WriteRefusalIsTheCase(keys: Keyring, ctx: Context, auth: WriteAuth, now: int, signed: SignedGrant)
    requires ctx.grant == Some(Contents(signed))
    ensures var refused := VerifyGrantMatchesWrite(signed.grant, auth, now);
            refused.Some? ==> IsTheCase(keys, ctx, auth, now, refused.value)
  {
    hide FixedFromHex, IsBlank, Keyring.Verifies, EqIgnoreAsciiCase, IssuedByTrusted, HoldsKeyOf;
  }

  lemma ActiveRefusalIsTheCase(keys: Keyring, ctx: Context, auth: WriteAuth, now: int, signed: SignedGrant)
    requires ctx.grant == Some(Contents(signed))
    ensures var refused := VerifyActiveGrantIfConfigured(keys, signed, ctx.active);
            refused.Some? ==> IsTheCase(keys, ctx, auth, now, refused.value)
  {
    hide FixedFromHex, IsBlank, Keyring.Verifies, EqIgnoreAsciiCase, IssuedByTrusted, HoldsKeyOf, ScopeCovers;
  }

  lemma KeyRefusalIsTheCase(keys: Keyring, ctx: Context, auth: WriteAuth, now: int, signed: SignedGrant)
    requires ctx.grant == Some(Contents(signed))
    ensures var loaded := LoadSigningKey(keys, ctx, signed.grant);
            loaded.Err? ==> IsTheCase(keys, ctx, auth, now, loaded.error)
  {
    hide FixedFromHex, IsBlank, Keyring.Verifies, EqIgnoreAsciiCase, IssuedByTrusted, ScopeCovers;
  }

  /** The daemon accepts a hello exactly for a good, active grant of the stated source whose key it holds itself. */
  lemma HelloIsAcceptedIff(keys: Keyring, ctx: Context, presented: SignedGrant, source: string, now: int)
    ensures VerifySessionHello(keys, ctx, presented, source, now).Ok? <==>
            && presented.grant.source == source && ctx.trust.Contents?
            && IsGoodGrant(keys, presented, ctx.trust.value, now)
            && IsActiveWhereConfigured(keys, presented, ctx.active) && HoldsKeyOf(keys, ctx, presented.grant)
    ensures VerifySessionHello(keys, ctx, presented, source, now).Ok? ==>
              VerifySessionHello(keys, ctx, presented, source, now).value
              == VerifiedHello(source, presented.grant.publicKey, presented.signature)
  {
    hide VerifyGrant, IsGoodGrant, VerifyActiveGrantIfConfigured, IsActiveWhereConfigured, LoadSigningKey, HoldsKeyOf;
    if ctx.trust.Contents? { GrantVerifiesIff(keys, presented, ctx.trust.value, now); }
    ActiveIff(keys, presented, ctx.active);
    KeyLoadsIff(keys, ctx, presented.grant);
  }

  // ---- Attestations -------------------------------------------------------------------

  /** `secret` has signed the content of the event, and the event carries its public key and that signature. */
  ghost predicate IsSignedWith(keys: Keyring, event: FactEvent, secret: Bytes)
  {
    && event.attestation.Some?
    && keys.PublicKey(event.attestation.value.publicKey) == Some(keys.publicOf(secret))
    && (secret, AttestationMessage(keys, event)) in keys.made
    && Signature(event.attestation.value.signature) == Some(keys.sign(secret, AttestationMessage(keys, event)))
  }

  /** An attestation is valid exactly when the holder of the named key signed this very content and that is its signature. */
  lemma AttestationIsValidIffSigned(keys: Keyring, event: FactEvent)
    ensures VerifyEventAttestation(keys, event) == Valid <==> exists secret :: IsSignedWith(keys, event, secret)
    ensures VerifyEventAttestation(keys, event) == Unattested <==> event.attestation == None
  {
    hide AttestationMessage, FixedFromHex, Keyring.Verifies;
    if event.attestation.Some? {
      var key, signature := keys.PublicKey(event.attestation.value.publicKey), Signature(event.attestation.value.signature);
      var message := AttestationMessage(keys, event);
      if key.Some? && signature.Some? { VerifiesIffSigned(keys, key.value, message, signature.value); }
      if VerifyEventAttestation(keys, event) == Valid {
        var secret :| (secret, message) in keys.made && keys.publicOf(secret) == key.value && keys.sign(secret, message) == signature.value;
        assert IsSignedWith(keys, event, secret);
      }
    }
  }

  /** The attestation covers everything that the canonical bytes of an event show, and nothing about itself. */
  lemma AttestationCoversTheContent(keys: Keyring, a: FactEvent, b: FactEvent)
    ensures AttestationMessage(keys, a) == AttestationMessage(keys, b) <==>
            keys.canonical(a.(attestation := None)) == keys.canonical(b.(attestation := None))
  {
    hide Framed;
    var x, y := keys.canonical(a.(attestation := None)), keys.canonical(b.(attestation := None));
    if AttestationMessage(keys, a) == AttestationMessage(keys, b) { FramingIsInjective(ATTESTATION_DOMAIN, x, y); }
  }

  /** Content changed under a kept attestation is refuted, unless the holder of that key signed the changed content too. */
  lemma AlteredContentIsRefuted(keys: Keyring, event: FactEvent, altered: FactEvent)
    requires VerifyEventAttestation(keys, event) == Valid && altered.attestation == event.attestation
    requires forall secret :: keys.PublicKey(event.attestation.value.publicKey) == Some(keys.publicOf(secret)) ==>
               (secret, AttestationMessage(keys, altered)) !in keys.made
    ensures VerifyEventAttestation(keys, altered) == Refuted(SignatureDoesNotVerify)
    ensures keys.canonical(altered.(attestation := None)) != keys.canonical(event.(attestation := None))
  {
    hide AttestationMessage, FixedFromHex, Keyring.Verifies;
    AttestationIsValidIffSigned(keys, event);
    AttestationIsValidIffSigned(keys, altered);
    AttestationCoversTheContent(keys, event, altered);
    var secret :| IsSignedWith(keys, event, secret);
  }

  /** Signing is recorded: the message of each event is among those signed. */
  lemma {:induction false} EachMessageIsSigned(keys: Keyring, secret: Bytes, events: Log, i: nat)
    requires i < |events|
    ensures (secret, AttestationMessage(keys, events[i])) in MessagesSigned(keys, secret, events)
  {
    hide AttestationMessage;
    if i < |events| - 1 { EachMessageIsSigned(keys, secret, events[..|events| - 1], i); }
  }

  /** An attested event verifies once its message has been signed. */
  lemma AttestedEventVerifies(keys: Keyring, grown: Keyring, grant: GrantPayload, secret: Bytes, event: FactEvent)
    requires keys.Sound() && grown == keys.(made := grown.made)
    requires keys.PublicKey(grant.publicKey) == Some(keys.publicOf(secret))
    requires (secret, AttestationMessage(keys, event)) in grown.made
    ensures IsSignedWith(grown, Attested(keys, grant, secret, event), secret)
    ensures VerifyEventAttestation(grown, Attested(keys, grant, secret, event)) == Valid
  {
    hide FixedFromHex, ToHex, Framed, VerifyEventAttestation;
    var message := AttestationMessage(keys, event);
    var signature, attested := keys.sign(secret, message), Attested(keys, grant, secret, event);
    assert attested.(attestation := None) == event.(attestation := None);
    assert AttestationMessage(grown, attested) == message;
    FixedFromToHex(signature);
    assert Signature(ToHex(signature)) == Some(signature);
    assert grown.PublicKey(grant.publicKey) == keys.PublicKey(grant.publicKey);
    AttestationIsValidIffSigned(grown, attested);
  }

  /** The key file holds the key of the grant, each event names that key, and that key has signed each event. */
  ghost predicate IsSignedByTheKeyFile(keys: Keyring, ctx: Context, grant: GrantPayload, events: Log)
  {
    && HoldsKeyOf(keys, ctx, grant)
    && forall event :: event in events ==>
         && IsSignedWith(keys, event, FixedFromHex(ctx.key.value.value, 32).value)
         && event.attestation.Some? && event.attestation.value.publicKey == grant.publicKey
  }

  /** End to end: what the gate lets through above the agent tier is persisted under an entitled key that attests it. */
  lemma AdmittedBatchIsAttested(keys: Keyring, ctx: Context, auth: WriteAuth, now: int, events: Log)
    requires keys.Sound()
    requires EnforceWrite(keys, ctx, auth, now) == None
    ensures AttestAll(keys, ctx, events).Ok?
    ensures var batch := AttestAll(keys, ctx, events).value;
            && |batch.events| == |events|
            && (forall i :: 0 <= i < |events| ==> batch.events[i] == events[i].(attestation := batch.events[i].attestation))
            && (!ctx.Configured() ==> batch.events == events && AtMost(auth.authority, AGENT_TIER))
            && (ctx.Configured() ==>
                  && LoadGrant(ctx).Ok? && Entitled(keys, ctx, auth, now, LoadGrant(ctx).value)
                  && IsSignedByTheKeyFile(batch.keys, ctx, LoadGrant(ctx).value.grant, batch.events)
                  && forall i :: 0 <= i < |events| ==> VerifyEventAttestation(batch.keys, batch.events[i]) == Valid)
  {
    hide EnforceWrite, Entitled, AttestationMessage, VerifyEventAttestation, MessagesSigned, FixedFromHex, IsSignedWith;
    AdmittedWriteIsEntitledOrAgentTier(keys, ctx, auth, now);
    if ctx.Configured() {
      var signed := LoadGrant(ctx).value;
      KeyLoadsIff(keys, ctx, signed.grant);
      var secret := LoadSigningKey(keys, ctx, signed.grant).value;
      var batch := AttestAll(keys, ctx, events).value;
      assert HoldsKeyOf(batch.keys, ctx, signed.grant);
      forall i | 0 <= i < |events|
        ensures VerifyEventAttestation(batch.keys, batch.events[i]) == Valid && IsSignedWith(batch.keys, batch.events[i], secret)
      {
        EachMessageIsSigned(keys, secret, events, i);
        AttestedEventVerifies(keys, batch.keys, signed.grant, secret, events[i]);
      }
    }
  }

  /** Signing an attested batch again changes nothing but the record of having signed. */
  lemma ReattestingChangesNothing(keys: Keyring, ctx: Context, events: Log)
    requires AttestAll(keys, ctx, events).Ok?
    ensures var batch := AttestAll(keys, ctx, events).value;
            AttestAll(keys, ctx, batch.events).Ok? && AttestAll(keys, ctx, batch.events).value.events == batch.events
  {
    hide AttestationMessage;
    if ctx.Configured() {
      var signed := LoadGrant(ctx).value;
      var secret := LoadSigningKey(keys, ctx, signed.grant).value;
      var once := AttestedEach(keys, signed.grant, secret, events);
      forall i | 0 <= i < |events| ensures Attested(keys, signed.grant, secret, once[i]) == once[i]
      {
        AttestedTwice(keys, signed.grant, secret, events[i]);
      }
    }
  }

  lemma AttestedTwice(keys: Keyring, grant: GrantPayload, secret: Bytes, event: FactEvent)
    ensures Attested(keys, grant, secret, Attested(keys, grant, secret, event)) == Attested(keys, grant, secret, event)
  {
    assert Attested(keys, grant, secret, event).(attestation := None) == event.(attestation := None);
  }

  // ---- The session challenge ----------------------------------------------------------

  /** `secret` is the key of `hello` and has signed the challenge with `nonce`; `signature` is that signature. */
  ghost predicate Proves(keys: Keyring, hello: VerifiedHello, nonce: string, signature: string, secret: Bytes)
  {
    && keys.PublicKey(hello.publicKey) == Some(keys.publicOf(secret))
    && (secret, ChallengeMessage(Challenge(hello, nonce))) in keys.made
    && Signature(signature) == Some(keys.sign(secret, ChallengeMessage(Challenge(hello, nonce))))
  }

  /** A prove is accepted exactly when the key signed this nonce with this source, key and grant, and none other. */
  lemma ProveIsAcceptedIffChallengeWasSigned(keys: Keyring, hello: VerifiedHello, nonce: string, signature: string)
    ensures VerifySessionProve(keys, hello, nonce, signature) == None
            <==> exists secret :: Proves(keys, hello, nonce, signature, secret)
    ensures forall c :: ChallengeMessage(c) == ChallengeMessage(Challenge(hello, nonce)) ==>
              c.nonce == nonce && c.source == hello.source && c.publicKey == hello.publicKey
              && c.grantSignature == hello.grantSignature
  {
    hide ChallengeMessage, FixedFromHex;
    var message := ChallengeMessage(Challenge(hello, nonce));
    if VerifySessionProve(keys, hello, nonce, signature) == None {
      var pair :| pair in keys.made && pair.1 == message && keys.publicOf(pair.0) == keys.PublicKey(hello.publicKey).value
               && keys.sign(pair.0, message) == Signature(signature).value;
      assert (pair.0, message) in keys.made;
      assert Proves(keys, hello, nonce, signature, pair.0);
    }
    if secret :| Proves(keys, hello, nonce, signature, secret) {
      var pair := (secret, message);
      assert pair in keys.made;
    }
    forall c | ChallengeMessage(c) == message ensures c == Challenge(hello, nonce)
    {
      ChallengeDetermines(c, Challenge(hello, nonce));
    }
  }

  lemma ChallengeDetermines(c: SessionChallenge, d: SessionChallenge)
    requires ChallengeMessage(c) == ChallengeMessage(d)
    ensures c == d
  {
    hide Encode, ChallengeJson, Framed;
    FramingIsInjective(SESSION_CHALLENGE_DOMAIN, Encode(ChallengeJson(c)), Encode(ChallengeJson(d)));
    EncodeInjective(ChallengeJson(c), ChallengeJson(d));
    ChallengeJsonIsInjective(c, d);
  }

  /** The holder of the granted key passes: what it signs for the nonce it was given, the daemon accepts. */
  lemma HonestProveIsAccepted(keys: Keyring, hello: VerifiedHello, nonce: string, secret: Bytes)
    requires keys.Sound()
    requires keys.PublicKey(hello.publicKey) == Some(keys.publicOf(secret))
    ensures var (signature, after) := SignSessionChallenge(keys, Challenge(hello, nonce), secret);
            VerifySessionProve(after, hello, nonce, signature) == None
  {
    hide ChallengeMessage, FixedFromHex, ToHex;
    var message := ChallengeMessage(Challenge(hello, nonce));
    var (signature, after) := SignSessionChallenge(keys, Challenge(hello, nonce), secret);
    FixedFromToHex(keys.sign(secret, message));
    assert after.PublicKey(hello.publicKey) == keys.PublicKey(hello.publicKey);
    var pair := (secret, message);
    assert pair in after.made && after.publicOf(pair.0) == keys.publicOf(secret);
  }
}
