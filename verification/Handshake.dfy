/**
 The session handshake: a connection to the shared daemon may write only after proving, by signing
 a fresh nonce, that it holds the key its grant names.
 */
module Handshake {
  import opened Wrappers
  import opened Hex
  import opened Identity
  import opened IdentityProofs
  import FactLog

  const SESSION_CHALLENGE_TTL_MS := 30_000

  function SaturatingAdd(a: int, b: nat): int { if a + b <= FactLog.I64_MAX then a + b else FactLog.I64_MAX }

  datatype HandshakeState =
    | Fresh
    | Challenged(nonce: string, hello: VerifiedHello, expiresAt: int)
    | Authenticated
    | Failed

  datatype GrantParam = Absent | Malformed | Presented(grant: SignedGrant)

  /** `nonce` is what the random source would yield for this hello, if it yields anything. */
  datatype Message =
    | Hello(source: Option<string>, grant: GrantParam, nonce: Option<string>)
    | Prove(signature: Option<string>)

  datatype Reply =
    | NonceIssued(nonce: string) | Proved(source: string)
    | Unconfigured | BadParams | HelloRejected | OutOfSequence | ChallengeExpired | BadSignature | Internal

  function OnHello(keys: Keyring, identity: Option<Context>, message: Message, now: int): (HandshakeState, Reply)
    requires message.Hello?
  {
    if identity.None? || !identity.value.Configured() then (Failed, Unconfigured)
    else if message.source.None? || message.grant.Absent? then (Failed, BadParams)
    else if message.grant.Malformed? then (Failed, HelloRejected)
    else
      match VerifySessionHello(keys, identity.value, message.grant.grant, message.source.value, now)
      case Err(_) => (Failed, HelloRejected)
      case Ok(hello) =>
        if message.nonce.None? then (Failed, Internal)
        else (Challenged(message.nonce.value, hello, SaturatingAdd(now, SESSION_CHALLENGE_TTL_MS)), NonceIssued(message.nonce.value))
  }

  /** A challenge is consumed whatever comes of it; a stray prove leaves any other state alone. */
  function OnProve(keys: Keyring, state: HandshakeState, message: Message, now: int): (HandshakeState, Reply)
    requires message.Prove?
  {
    if !state.Challenged? then (state, OutOfSequence)
    else if state.expiresAt < now then (Failed, ChallengeExpired)
    else if message.signature.None? then (Failed, BadParams)
    else if VerifySessionProve(keys, state.hello, state.nonce, message.signature.value).Some? then (Failed, BadSignature)
    else (Authenticated, Proved(state.hello.source))
  }

  function OnMessage(keys: Keyring, identity: Option<Context>, state: HandshakeState, message: Message, now: int)
    : (HandshakeState, Reply)
  {
    if message.Hello? then OnHello(keys, identity, message, now) else OnProve(keys, state, message, now)
  }

  /** A message as it arrives, with what had been signed by then. */
  datatype Arrival = Arrival(message: Message, now: int, keys: Keyring)

  function Run(identity: Option<Context>, arrivals: seq<Arrival>): HandshakeState
  {
    if arrivals == [] then Fresh
    else
      var last := arrivals[|arrivals| - 1];
      OnMessage(last.keys, identity, Run(identity, arrivals[..|arrivals| - 1]), last.message, last.now).0
  }

  /** The hello presents a good, active grant of the source it states, whose key the daemon holds too. */
  ghost predicate IsWelcome(keys: Keyring, identity: Option<Context>, hello: Message, now: int)
    requires hello.Hello?
  {
    && identity.Some? && identity.value.Configured()
    && hello.source.Some? && hello.grant.Presented? && hello.nonce.Some?
    && var presented := hello.grant.grant;
       && presented.grant.source == hello.source.value && identity.value.trust.Contents?
       && IsGoodGrant(keys, presented, identity.value.trust.value, now)
       && IsActiveWhereConfigured(keys, presented, identity.value.active)
       && HoldsKeyOf(keys, identity.value, presented.grant)
  }

  /** What the daemon will ask to be signed after this hello. */
  function Welcomed(hello: Message): VerifiedHello
    requires hello.Hello? && hello.source.Some? && hello.grant.Presented?
  {
    VerifiedHello(hello.source.value, hello.grant.grant.grant.publicKey, hello.grant.grant.signature)
  }

  /** The challenge given to a welcome hello, open for thirty seconds or until the last instant of the clock. */
  ghost predicate IsChallengedBy(state: HandshakeState, keys: Keyring, identity: Option<Context>, hello: Message, now: int)
  {
    && hello.Hello? && IsWelcome(keys, identity, hello, now)
    && state == Challenged(hello.nonce.value, Welcomed(hello),
                           if now + 30_000 <= 0x7FFF_FFFF_FFFF_FFFF then now + 30_000 else 0x7FFF_FFFF_FFFF_FFFF)
  }

  /** A hello is challenged exactly when it is welcome; otherwise the connection has failed, whatever it was before. */
  lemma HelloIsChallengedIffWelcome(keys: Keyring, identity: Option<Context>, message: Message, now: int)
    requires message.Hello?
    ensures var (next, reply) := OnHello(keys, identity, message, now);
            && (IsWelcome(keys, identity, message, now) ==>
                  IsChallengedBy(next, keys, identity, message, now) && reply == NonceIssued(message.nonce.value))
            && (!IsWelcome(keys, identity, message, now) ==> next == Failed && !reply.NonceIssued? && !reply.Proved?)
            && (reply == Unconfigured <==> identity.None? || !identity.value.Configured())
            && (reply == BadParams ==> message.source.None? || message.grant.Absent?)
            && (reply == Internal ==> message.nonce.None?)
  {
    hide VerifySessionHello, IsGoodGrant, IsActiveWhereConfigured, HoldsKeyOf;
    if identity.Some? && message.source.Some? && message.grant.Presented? {
      HelloIsAcceptedIff(keys, identity.value, message.grant.grant, message.source.value, now);
    }
  }

  /** A prove settles a pending challenge and leaves every other state alone. */
  lemma ProveSettlesTheChallenge(keys: Keyring, state: HandshakeState, message: Message, now: int)
    requires message.Prove?
    ensures var (next, reply) := OnProve(keys, state, message, now);
            if !state.Challenged? then next == state && reply == OutOfSequence
            else if AnswersInTime(keys, state, message, now) then next == Authenticated && reply == Proved(state.hello.source)
            else
              && next == Failed && reply in {ChallengeExpired, BadParams, BadSignature}
              && (reply == ChallengeExpired <==> state.expiresAt < now)
              && (reply == BadParams ==> message.signature.None?)
  {
    hide VerifySessionProve, Proves;
    if state.Challenged? && message.signature.Some? {
      ProveIsAcceptedIffChallengeWasSigned(keys, state.hello, state.nonce, message.signature.value);
    }
  }

  /** The key of the pending hello has signed its nonce, that signature has come, and the challenge is still open. */
  ghost predicate AnswersInTime(keys: Keyring, state: HandshakeState, message: Message, now: int)
    requires state.Challenged?
  {
    && message.Prove? && message.signature.Some? && now <= state.expiresAt
    && exists secret :: Proves(keys, state.hello, state.nonce, message.signature.value, secret)
  }

  /** `answer` is the signature of the granted key on the nonce of the welcome `hello`, in time. */
  ghost predicate IsAnswered(identity: Option<Context>, hello: Arrival, answer: Arrival)
  {
    && hello.message.Hello? && IsWelcome(hello.keys, identity, hello.message, hello.now)
    && answer.message.Prove? && answer.message.signature.Some?
    && answer.now <= hello.now + 30_000 && answer.now <= 0x7FFF_FFFF_FFFF_FFFF
    && exists secret :: Proves(answer.keys, Welcomed(hello.message), hello.message.nonce.value, answer.message.signature.value, secret)
  }

  /** Message `i` is a welcome hello, the next one the timely signature on its nonce, and all after that are proves. */
  ghost predicate IsEarnedAt(identity: Option<Context>, arrivals: seq<Arrival>, i: nat)
  {
    && i + 1 < |arrivals| && IsAnswered(identity, arrivals[i], arrivals[i + 1])
    && forall j :: i + 1 <= j < |arrivals| ==> arrivals[j].message.Prove?
  }

  ghost predicate HasEarnedIt(identity: Option<Context>, arrivals: seq<Arrival>) { exists i: nat :: IsEarnedAt(identity, arrivals, i) }

  lemma RunStep(identity: Option<Context>, arrivals: seq<Arrival>)
    requires arrivals != []
    ensures var n := |arrivals| - 1;
            Run(identity, arrivals) ==
            OnMessage(arrivals[n].keys, identity, Run(identity, arrivals[..n]), arrivals[n].message, arrivals[n].now).0
  {
  }

  /** A challenge is pending exactly after a welcome hello. */
  lemma ChallengedIff(identity: Option<Context>, arrivals: seq<Arrival>)
    ensures Run(identity, arrivals).Challenged? <==>
              && arrivals != [] && var last := arrivals[|arrivals| - 1];
                 last.message.Hello? && IsWelcome(last.keys, identity, last.message, last.now)
    ensures Run(identity, arrivals).Challenged? ==>
              var last := arrivals[|arrivals| - 1];
              IsChallengedBy(Run(identity, arrivals), last.keys, identity, last.message, last.now)
  {
    hide OnHello, OnProve, IsWelcome, AnswersInTime;
    if arrivals != [] {
      var n := |arrivals| - 1;
      var last := arrivals[n];
      if last.message.Hello? {
        HelloIsChallengedIffWelcome(last.keys, identity, last.message, last.now);
      } else {
        ProveSettlesTheChallenge(last.keys, Run(identity, arrivals[..n]), last.message, last.now);
      }
    }
  }

  lemma EarnedBefore(identity: Option<Context>, arrivals: seq<Arrival>, i: nat)
    requires i + 2 < |arrivals|
    ensures IsEarnedAt(identity, arrivals, i) <==>
            IsEarnedAt(identity, arrivals[..|arrivals| - 1], i) && arrivals[|arrivals| - 1].message.Prove?
  {
    hide IsAnswered;
  }

  lemma EarnedNow(identity: Option<Context>, arrivals: seq<Arrival>)
    requires 2 <= |arrivals|
    ensures var n := |arrivals| - 1;
            IsEarnedAt(identity, arrivals, n - 1) <==> IsAnswered(identity, arrivals[n - 1], arrivals[n])
  {
    hide Run, IsWelcome, Proves;
  }

  lemma EarnedIff(identity: Option<Context>, arrivals: seq<Arrival>)
    requires arrivals != []
    ensures var n := |arrivals| - 1;
            HasEarnedIt(identity, arrivals) <==>
            || (0 < n && IsAnswered(identity, arrivals[n - 1], arrivals[n]))
            || (HasEarnedIt(identity, arrivals[..n]) && arrivals[n].message.Prove?)
  {
    hide IsAnswered, IsEarnedAt;
    var n := |arrivals| - 1;
    if 0 < n { EarnedNow(identity, arrivals); }
    if HasEarnedIt(identity, arrivals) {
      var i: nat :| IsEarnedAt(identity, arrivals, i);
      EarnedFitsIn(identity, arrivals, i);
      if i + 1 < n { EarnedBefore(identity, arrivals, i); }
    }
    if HasEarnedIt(identity, arrivals[..n]) {
      var i: nat :| IsEarnedAt(identity, arrivals[..n], i);
      EarnedFitsIn(identity, arrivals[..n], i);
      EarnedBefore(identity, arrivals, i);
    }
  }

  lemma EarnedFitsIn(identity: Option<Context>, arrivals: seq<Arrival>, i: nat)
    requires IsEarnedAt(identity, arrivals, i)
    ensures i + 1 < |arrivals|
  {
  }

  /** A prove answers the message before it exactly when a challenge is pending and it settles that challenge. */
  lemma AnsweredIff(identity: Option<Context>, arrivals: seq<Arrival>)
    requires arrivals != []
    ensures var n := |arrivals| - 1;
            var before := Run(identity, arrivals[..n]);
            (0 < n && IsAnswered(identity, arrivals[n - 1], arrivals[n])) <==>
            before.Challenged? && AnswersInTime(arrivals[n].keys, before, arrivals[n].message, arrivals[n].now)
  {
    hide Run, IsWelcome, Proves;
    ChallengedIff(identity, arrivals[..|arrivals| - 1]);
  }

  /**
   A connection may write exactly when it has earned it: a welcome hello, directly followed by the signature of the
   granted key on its nonce, in time, and no hello since, however many stray proves have come.
   */
  lemma {:induction false} AuthenticatedIffEarned(identity: Option<Context>, arrivals: seq<Arrival>)
    ensures Run(identity, arrivals) == Authenticated <==> HasEarnedIt(identity, arrivals)
    decreases |arrivals|
  {
    hide OnHello, OnProve, IsWelcome, AnswersInTime, IsAnswered, IsChallengedBy;
    if arrivals != [] {
      RunStep(identity, arrivals);
      EarnedIff(identity, arrivals);
      AnsweredIff(identity, arrivals);
      hide Run, HasEarnedIt;
      var n := |arrivals| - 1;
      var before, last := Run(identity, arrivals[..n]), arrivals[n];
      AuthenticatedIffEarned(identity, arrivals[..n]);
      if last.message.Hello? {
        HelloIsChallengedIffWelcome(last.keys, identity, last.message, last.now);
        HelloAnswersNothing(identity, arrivals);
      } else {
        ProveSettlesTheChallenge(last.keys, before, last.message, last.now);
      }
    }
  }

  lemma HelloAnswersNothing(identity: Option<Context>, arrivals: seq<Arrival>)
    requires arrivals != [] && arrivals[|arrivals| - 1].message.Hello?
    ensures 1 < |arrivals| ==> !IsAnswered(identity, arrivals[|arrivals| - 2], arrivals[|arrivals| - 1])
    ensures forall keys: Keyring, next, hello, now :: IsChallengedBy(next, keys, identity, hello, now) ==> next.Challenged?
  {
    hide IsWelcome, Proves;
  }

  // ---- The two ends, as they run ------------------------------------------------------

  class DaemonConnection {
    var state: HandshakeState
    const identity: Option<Context>

    constructor (identity: Option<Context>)
      ensures state == Run(identity, []) && this.identity == identity
    {
      state := Fresh;
      this.identity := identity;
    }

    method Handle(keys: Keyring, message: Message, now: int) returns (reply: Reply)
      modifies this
      ensures (state, reply) == OnMessage(keys, identity, old(state), message, now)
    {
      if message.Hello? {
        var (next, answer) := OnHello(keys, identity, message, now);
        state, reply := next, answer;
      } else {
        var was := state;
        state := Failed;
        if !was.Challenged? { state := was; return OutOfSequence; }
        if was.expiresAt < now { return ChallengeExpired; }
        if message.signature.None? { return BadParams; }
        var refused := VerifySessionProve(keys, was.hello, was.nonce, message.signature.value);
        if refused.Some? { return BadSignature; }
        state := Authenticated;
        reply := Proved(was.hello.source);
      }
    }
  }

  datatype ConnectError = GrantFileUnusable | HelloFailed(reply: Reply) | KeyFileUnusable | ProveFailed(reply: Reply)

  /** The key file holds the key the grant names. */
  predicate HoldsGrantedKey(keys: Keyring, grant: SignedGrant, keyFile: File<string>)
  {
    && keyFile.Contents? && FixedFromHex(keyFile.value, 32).Some?
    && keys.PublicKey(grant.grant.publicKey) == Some(keys.publicOf(FixedFromHex(keyFile.value, 32).value))
  }

  /** The hello that a client makes of its grant. */
  function OwnHello(grant: SignedGrant, nonce: Option<string>): Message
  {
    Hello(Some(grant.grant.source), Presented(grant), nonce)
  }

  /** The daemon welcomes the hello, the client can sign, and its answer comes in time. */
  ghost predicate ComesAbout(
    keys: Keyring, identity: Option<Context>, grant: SignedGrant, keyFile: File<string>, nonce: Option<string>,
    helloAt: int, proveAt: int)
  {
    && IsWelcome(keys, identity, OwnHello(grant, nonce), helloAt)
    && keyFile.Contents? && FixedFromHex(keyFile.value, 32).Some?
    && proveAt <= helloAt + 30_000 && proveAt <= 0x7FFF_FFFF_FFFF_FFFF
  }

  /** What the client is told went wrong did. */
  ghost predicate FailsFor(
    keys: Keyring, identity: Option<Context>, grantFile: File<SignedGrant>, keyFile: File<string>, nonce: Option<string>,
    helloAt: int, proveAt: int, error: ConnectError)
  {
    match error
    case GrantFileUnusable => !grantFile.Contents?
    case HelloFailed(_) => grantFile.Contents? && !IsWelcome(keys, identity, OwnHello(grantFile.value, nonce), helloAt)
    case KeyFileUnusable => !keyFile.Contents? || FixedFromHex(keyFile.value, 32).None?
    case ProveFailed(_) =>
      grantFile.Contents? && (!HoldsGrantedKey(keys, grantFile.value, keyFile) || helloAt + 30_000 < proveAt || 0x7FFF_FFFF_FFFF_FFFF < proveAt)
  }

  /** The client connects: hello with its grant, sign the nonce it gets, prove. */
  method ConnectWithIdentity(
    connection: DaemonConnection, keys: Keyring, grantFile: File<SignedGrant>, keyFile: File<string>,
    nonce: Option<string>, helloAt: int, proveAt: int)
    returns (session: Result<string, ConnectError>, grown: Keyring)
    requires keys.Sound() && connection.state == Fresh
    modifies connection
    ensures session.Ok? <==> connection.state == Authenticated
    ensures session.Ok? ==>
              && grantFile.Contents? && session.value == grantFile.value.grant.source
              && ComesAbout(keys, connection.identity, grantFile.value, keyFile, nonce, helloAt, proveAt)
    ensures session.Err? ==> FailsFor(keys, connection.identity, grantFile, keyFile, nonce, helloAt, proveAt, session.error)
  {
    hide VerifySessionProve, SignSessionChallenge, FixedFromHex, HoldsGrantedKey, Keyring.Sound, OnHello, OnProve, IsWelcome, AnswersInTime;
    hide FailsFor, IsChallengedBy, ComesAbout, Proves;
    FailuresAreSaid(keys, connection.identity, grantFile, keyFile, nonce, helloAt, proveAt);
    grown := keys;
    if !grantFile.Contents? { return Err(GrantFileUnusable), grown; }
    var grant := grantFile.value;
    ghost var asked := OwnHello(grant, nonce);
    HelloIsChallengedIffWelcome(keys, connection.identity, asked, helloAt);
    var reply := connection.Handle(keys, Hello(Some(grant.grant.source), Presented(grant), nonce), helloAt);
    if !reply.NonceIssued? { return Err(HelloFailed(reply)), grown; }
    ghost var pending := connection.state;
    ChallengeIsPending(pending, keys, connection.identity, asked, helloAt);
    if !keyFile.Contents? { return Err(KeyFileUnusable), grown; }
    var secret := FixedFromHex(keyFile.value, 32);
    if secret.None? { return Err(KeyFileUnusable), grown; }
    var challenge := SessionChallenge(reply.nonce, grant.grant.source, grant.grant.publicKey, grant.signature);
    var (signature, after) := SignSessionChallenge(keys, challenge, secret.value);
    grown := after;
    ChallengeIsOfTheHello(pending, keys, connection.identity, asked, helloAt, grown, signature, proveAt);
    GrantedKeyAnswers(keys, Welcomed(asked), reply.nonce, grant, keyFile);
    ProveSettlesTheChallenge(grown, pending, Prove(Some(signature)), proveAt);
    reply := connection.Handle(grown, Prove(Some(signature)), proveAt);
    if !reply.Proved? { return Err(ProveFailed(reply)), grown; }
    SuccessIsSaid(keys, connection.identity, grant, keyFile, nonce, helloAt, proveAt);
    session := Ok(grant.grant.source);
  }

  lemma FailuresAreSaid(
    keys: Keyring, identity: Option<Context>, grantFile: File<SignedGrant>, keyFile: File<string>, nonce: Option<string>,
    helloAt: int, proveAt: int)
    ensures !grantFile.Contents? ==> FailsFor(keys, identity, grantFile, keyFile, nonce, helloAt, proveAt, GrantFileUnusable)
    ensures grantFile.Contents? && !IsWelcome(keys, identity, OwnHello(grantFile.value, nonce), helloAt) ==>
              forall reply :: FailsFor(keys, identity, grantFile, keyFile, nonce, helloAt, proveAt, HelloFailed(reply))
    ensures !keyFile.Contents? || FixedFromHex(keyFile.value, 32).None? ==>
              FailsFor(keys, identity, grantFile, keyFile, nonce, helloAt, proveAt, KeyFileUnusable)
    ensures grantFile.Contents?
            && (!HoldsGrantedKey(keys, grantFile.value, keyFile) || helloAt + 30_000 < proveAt || 0x7FFF_FFFF_FFFF_FFFF < proveAt) ==>
              forall reply :: FailsFor(keys, identity, grantFile, keyFile, nonce, helloAt, proveAt, ProveFailed(reply))
  {
    hide IsWelcome, FixedFromHex, HoldsGrantedKey;
  }

  lemma SuccessIsSaid(
    keys: Keyring, identity: Option<Context>, grant: SignedGrant, keyFile: File<string>, nonce: Option<string>,
    helloAt: int, proveAt: int)
    requires IsWelcome(keys, identity, OwnHello(grant, nonce), helloAt)
    requires keyFile.Contents? && FixedFromHex(keyFile.value, 32).Some?
    requires proveAt <= helloAt + 30_000 && proveAt <= 0x7FFF_FFFF_FFFF_FFFF
    ensures ComesAbout(keys, identity, grant, keyFile, nonce, helloAt, proveAt)
  {
    hide IsWelcome, FixedFromHex;
  }

  lemma ChallengeIsPending(state: HandshakeState, keys: Keyring, identity: Option<Context>, hello: Message, helloAt: int)
    requires IsChallengedBy(state, keys, identity, hello, helloAt)
    ensures hello.Hello? && IsWelcome(keys, identity, hello, helloAt) && state.Challenged?
  {
  }

  /** What it takes to answer the challenge that a welcome hello is given. */
  lemma ChallengeIsOfTheHello(
    state: HandshakeState, keys: Keyring, identity: Option<Context>, hello: Message, helloAt: int,
    grown: Keyring, signature: string, proveAt: int)
    requires IsChallengedBy(state, keys, identity, hello, helloAt)
    ensures state.Challenged? && state.hello == Welcomed(hello) && Some(state.nonce) == hello.nonce
    ensures AnswersInTime(grown, state, Prove(Some(signature)), proveAt) <==>
            && proveAt <= helloAt + 30_000 && proveAt <= 0x7FFF_FFFF_FFFF_FFFF
            && exists secret :: Proves(grown, Welcomed(hello), state.nonce, signature, secret)
  {
    hide Proves, IsGoodGrant, IsActiveWhereConfigured, HoldsKeyOf;
  }

  lemma GrantedKeyAnswers(keys: Keyring, hello: VerifiedHello, nonce: string, grant: SignedGrant, keyFile: File<string>)
    requires keys.Sound() && hello == VerifiedHello(grant.grant.source, grant.grant.publicKey, grant.signature)
    ensures HoldsGrantedKey(keys, grant, keyFile) ==>
              var challenge := SessionChallenge(nonce, grant.grant.source, grant.grant.publicKey, grant.signature);
              var (signature, after) := SignSessionChallenge(keys, challenge, FixedFromHex(keyFile.value, 32).value);
              exists secret :: Proves(after, hello, nonce, signature, secret)
  {
    hide VerifySessionProve, SignSessionChallenge, Keyring.Sound, FixedFromHex, Proves;
    if HoldsGrantedKey(keys, grant, keyFile) {
      var secret := FixedFromHex(keyFile.value, 32).value;
      HonestProveIsAccepted(keys, hello, nonce, secret);
      var (signature, after) := SignSessionChallenge(keys, Challenge(hello, nonce), secret);
      ProveIsAcceptedIffChallengeWasSigned(after, hello, nonce, signature);
    }
  }
}
