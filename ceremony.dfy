/**
 * The registration and login ceremonies of backend/server.js as pure
 * transitions over the server's two in-memory maps: `users` (username to
 * stored record) and `challenges` (username, or the literal key "login",
 * to the 32-byte challenge last issued under that key).
 *
 * Each transition returns the new maps together with the HTTP reply the
 * handler sends. The defects of the handlers are kept: registration never
 * compares challenges, login never looks at the "login" challenge or at any
 * signature, and the login slot shares its key space with usernames.
 */
module Ceremony {
  import opened Wrappers
  import Base64
  import Base64Url

  const RpName := "WebAuthn Demo"
  /** `process.env.RP_ID || 'localhost'`, with the variable unset. */
  const RpId := "localhost"
  const TimeoutMs := 60000
  /** The one challenge slot every login shares. */
  const LoginKey := "login"
  const ChallengeLength := 32
  /** COSE algorithm identifiers: ES256 and RS256. */
  const Es256 := -7
  const Rs256 := -257

  /** `crypto.randomBytes(32)`. */
  type Challenge = c: seq<Base64.Byte> | |c| == ChallengeLength
    witness seq(32, _ => 0)

  /** The credential the browser sends to /register/complete. The server
      stores it without looking inside. */
  datatype Credential = Credential(
    id: string,
    rawId: seq<Base64.Byte>,
    credentialType: string,
    attestationObject: seq<Base64.Byte>,
    clientDataJson: seq<Base64.Byte>)

  /** The assertion the browser sends to /login/complete. `userHandle` is
      already decoded to a string; it is absent when the authenticator
      returned none. */
  datatype Assertion = Assertion(
    id: string,
    rawId: seq<Base64.Byte>,
    credentialType: string,
    authenticatorData: seq<Base64.Byte>,
    clientDataJson: seq<Base64.Byte>,
    signature: seq<Base64.Byte>,
    userHandle: Option<string>)

  datatype UserRecord = UserRecord(username: string, credential: Credential, registeredAt: string)

  datatype RelyingParty = RelyingParty(name: string, id: string)
  datatype UserEntity = UserEntity(id: string, name: string, displayName: string)
  datatype CredentialParameter = CredentialParameter(credentialType: string, alg: int)
  datatype AuthenticatorSelection = AuthenticatorSelection(residentKey: string, userVerification: string)

  /** The registration options /register/start returns. */
  datatype CreationOptions = CreationOptions(
    challenge: string,
    rp: RelyingParty,
    user: UserEntity,
    pubKeyCredParams: seq<CredentialParameter>,
    timeout: nat,
    attestation: string,
    authenticatorSelection: AuthenticatorSelection,
    credProps: bool)

  /** The login options /login/start returns; no `allowCredentials`, so any
      discoverable credential may answer. */
  datatype RequestOptions = RequestOptions(
    challenge: string,
    timeout: nat,
    userVerification: string,
    rpId: string)

  /** The `user` object /login/complete returns. */
  datatype Profile = Profile(username: string, credentialId: string, registeredAt: string)

  /** An HTTP reply: a 200 JSON body, or an error status with its message. */
  datatype Reply<T> = Ok(body: T) | Err(status: nat, message: string)

  datatype State = State(users: map<string, UserRecord>, challenges: map<string, Challenge>)

  datatype Outcome<T> = Outcome(state: State, reply: Reply<T>)

  const Initial := State(map[], map[])

  /** The registration options: the user entity is the username itself, the
      relying party is this server, and the challenge is the unpadded
      base64url text of the issued bytes. */
  function CreationOptionsFor(username: string, challenge: Challenge): (o: CreationOptions)
    ensures o.user == UserEntity(username, username, username)
    ensures o.rp == RelyingParty(RpName, RpId)
    ensures |o.challenge| == 43 && '=' !in o.challenge
    ensures Base64.Decode(Base64Url.Repadded(o.challenge)) == challenge
    ensures o.pubKeyCredParams == [CredentialParameter("public-key", Es256), CredentialParameter("public-key", Rs256)]
    ensures o.timeout == TimeoutMs && o.attestation == "none"
    ensures o.authenticatorSelection == AuthenticatorSelection("required", "preferred") && o.credProps
  {
    Base64Url.RoundTrip(challenge);
    Base64Url.EncodeLength(challenge);
    CreationOptions(
      Base64Url.Encode(challenge),
      RelyingParty(RpName, RpId),
      UserEntity(username, username, username),
      [CredentialParameter("public-key", Es256), CredentialParameter("public-key", Rs256)],
      TimeoutMs,
      "none",
      AuthenticatorSelection("required", "preferred"),
      true)
  }

  /** The login options: this server's relying-party id and the unpadded
      base64url text of the issued bytes. */
  function RequestOptionsFor(challenge: Challenge): (o: RequestOptions)
    ensures o.rpId == RpId && o.timeout == TimeoutMs && o.userVerification == "preferred"
    ensures |o.challenge| == 43 && '=' !in o.challenge
    ensures Base64.Decode(Base64Url.Repadded(o.challenge)) == challenge
  {
    Base64Url.RoundTrip(challenge);
    Base64Url.EncodeLength(challenge);
    RequestOptions(Base64Url.Encode(challenge), TimeoutMs, "preferred", RpId)
  }

  /** POST /register/start. */
  function RegisterStart(s: State, username: string, challenge: Challenge): (r: Outcome<CreationOptions>)
    ensures r.reply.Err? <==> username == "" || username in s.users
    ensures r.reply.Err? ==> r.state == s && r.reply.status == 400
    ensures username == "" ==> r.reply == Err(400, "Username is required")
    ensures username != "" && username in s.users ==> r.reply == Err(400, "User already exists")
    ensures r.reply.Ok? ==> r.reply.body == CreationOptionsFor(username, challenge)
    ensures r.reply.Ok? ==> r.state.users == s.users
    ensures r.reply.Ok? ==> r.state.challenges.Keys == s.challenges.Keys + {username}
    ensures r.reply.Ok? ==> r.state.challenges[username] == challenge
    ensures r.reply.Ok? ==> forall k :: k in s.challenges && k != username ==>
              r.state.challenges[k] == s.challenges[k]
  {
    if username == "" then Outcome(s, Err(400, "Username is required"))
    else if username in s.users then Outcome(s, Err(400, "User already exists"))
    else Outcome(State(s.users, s.challenges[username := challenge]), Ok(CreationOptionsFor(username, challenge)))
  }

  /** POST /register/complete. Only the presence of a challenge under the
      username is checked; the credential is stored as sent. */
  function RegisterComplete(s: State, username: string, credential: Credential, registeredAt: string)
    : (r: Outcome<()>)
    ensures r.reply.Err? <==> username !in s.challenges
    ensures r.reply.Err? ==> r.state == s && r.reply.status == 400
    ensures r.reply.Ok? ==> r.state.users.Keys == s.users.Keys + {username}
    ensures r.reply.Ok? ==> r.state.users[username] == UserRecord(username, credential, registeredAt)
    ensures r.reply.Ok? ==> forall k :: k in s.users && k != username ==> r.state.users[k] == s.users[k]
    ensures r.reply.Ok? ==> r.state.challenges == s.challenges - {username}
  {
    if username !in s.challenges then Outcome(s, Err(400, "No challenge found for user"))
    else
      Outcome(State(s.users[username := UserRecord(username, credential, registeredAt)],
                    s.challenges - {username}),
              Ok(()))
  }

  /** POST /login/start: overwrites the shared login slot, whoever asks. */
  function LoginStart(s: State, challenge: Challenge): (r: Outcome<RequestOptions>)
    ensures r.reply == Ok(RequestOptionsFor(challenge))
    ensures r.state.users == s.users
    ensures r.state.challenges.Keys == s.challenges.Keys + {LoginKey}
    ensures r.state.challenges[LoginKey] == challenge
    ensures forall k :: k in s.challenges && k != LoginKey ==> r.state.challenges[k] == s.challenges[k]
  {
    Outcome(State(s.users, s.challenges[LoginKey := challenge]), Ok(RequestOptionsFor(challenge)))
  }

  /** POST /login/complete. The user handle alone picks the account. A
      missing handle makes `Buffer.from` throw, which Express answers with 500. */
  function LoginComplete(s: State, assertion: Assertion): (r: Outcome<Profile>)
    ensures r.reply.Ok? <==> assertion.userHandle.Some? && assertion.userHandle.value in s.users
    ensures assertion.userHandle.None? ==> r.state == s && r.reply.status == 500
    ensures assertion.userHandle.Some? && assertion.userHandle.value !in s.users ==>
              r.state == s && r.reply == Err(404, "User not found")
    ensures r.state.users == s.users
    ensures r.reply.Ok? ==> r.state.challenges == s.challenges - {LoginKey}
    ensures r.reply.Ok? ==>
              var u := s.users[assertion.userHandle.value];
              r.reply.body == Profile(u.username, u.credential.id, u.registeredAt)
  {
    match assertion.userHandle
    case None => Outcome(s, Err(500, "Internal Server Error"))
    case Some(handle) =>
      if handle !in s.users then Outcome(s, Err(404, "User not found"))
      else
        var user := s.users[handle];
        Outcome(State(s.users, s.challenges - {LoginKey}),
                Ok(Profile(user.username, user.credential.id, user.registeredAt)))
  }

  /** One request to one of the four endpoints. */
  datatype Request =
    | RegisterStartRequest(username: string, challenge: Challenge)
    | RegisterCompleteRequest(username: string, credential: Credential, registeredAt: string)
    | LoginStartRequest(loginChallenge: Challenge)
    | LoginCompleteRequest(assertion: Assertion)

  function Step(s: State, req: Request): (t: State)
  {
    match req
    case RegisterStartRequest(u, c) => RegisterStart(s, u, c).state
    case RegisterCompleteRequest(u, cred, t) => RegisterComplete(s, u, cred, t).state
    case LoginStartRequest(c) => LoginStart(s, c).state
    case LoginCompleteRequest(a) => LoginComplete(s, a).state
  }

  /** The maps after serving the requests in order. */
  function Run(s: State, reqs: seq<Request>): (t: State)
    decreases |reqs|
  {
    if reqs == [] then s else Run(Step(s, reqs[0]), reqs[1..])
  }

  /** No username other than "login" has both a stored record and a pending
      challenge. */
  ghost predicate Disjoint(s: State)
  {
    forall u :: u in s.users && u in s.challenges ==> u == LoginKey
  }

  lemma StepPreservesDisjoint(s: State, req: Request)
    requires Disjoint(s)
    ensures Disjoint(Step(s, req))
  {
  }

  lemma {:induction false} RunPreservesDisjoint(s: State, reqs: seq<Request>)
    requires Disjoint(s)
    ensures Disjoint(Run(s, reqs))
    decreases |reqs|
  {
    if reqs != [] {
      StepPreservesDisjoint(s, reqs[0]);
      RunPreservesDisjoint(Step(s, reqs[0]), reqs[1..]);
    }
  }

  /** The invariant holds after any sequence of requests from the empty maps. */
  lemma ReachableDisjoint(reqs: seq<Request>)
    ensures Disjoint(Run(Initial, reqs))
  {
    RunPreservesDisjoint(Initial, reqs);
  }

  /** The exception for "login" is needed: registering a user of that name and
      then starting a login puts the key in both maps. */
  lemma LoginKeyInBothMaps(challenge: Challenge, credential: Credential, registeredAt: string)
    ensures var s := Run(Initial, [RegisterStartRequest(LoginKey, challenge),
                                   RegisterCompleteRequest(LoginKey, credential, registeredAt),
                                   LoginStartRequest(challenge)]);
            LoginKey in s.users && LoginKey in s.challenges
  {
    var reqs := [RegisterStartRequest(LoginKey, challenge),
                 RegisterCompleteRequest(LoginKey, credential, registeredAt),
                 LoginStartRequest(challenge)];
    var s1 := Step(Initial, reqs[0]);
    var s2 := Step(s1, reqs[1]);
    var s3 := Step(s2, reqs[2]);
    assert reqs[1..][1..][1..] == [];
    assert Run(s3, []) == s3;
    assert Run(Initial, reqs) == Run(s1, reqs[1..]) == Run(s2, reqs[1..][1..]) == Run(s3, reqs[1..][1..][1..]);
    assert LoginKey in s3.users && LoginKey in s3.challenges;
  }

  /** The challenge in the options of either start call decodes, with the
      server's own decoder, to the bytes stored for that ceremony. */
  lemma StartChallengeDecodes(s: State, username: string, challenge: Challenge)
    ensures var r := RegisterStart(s, username, challenge);
            r.reply.Ok? ==> Base64.Decode(Base64Url.Repadded(r.reply.body.challenge)) == r.state.challenges[username]
    ensures var r := LoginStart(s, challenge);
            Base64.Decode(Base64Url.Repadded(r.reply.body.challenge)) == r.state.challenges[LoginKey]
  {
    Base64Url.RoundTrip(challenge);
  }

  /** A successful complete consumes the challenge, so an immediate second
      complete for the same username fails and changes nothing. */
  lemma SecondRegisterCompleteFails(s: State, username: string, c1: Credential, t1: string, c2: Credential, t2: string)
    ensures var r1 := RegisterComplete(s, username, c1, t1);
            r1.reply.Ok? ==>
              RegisterComplete(r1.state, username, c2, t2) == Outcome(r1.state, Err(400, "No challenge found for user"))
  {
  }

  /** Registration does not depend on the credential (whatever challenge its
      client data carries) nor on the stored challenge bytes: only on whether
      some challenge is stored under the username. */
  lemma RegisterCompleteIgnoresChallenge(s: State, username: string, c1: Credential, c2: Credential,
                                         other: Challenge, t: string)
    ensures RegisterComplete(s, username, c1, t).reply == RegisterComplete(s, username, c2, t).reply
    ensures username in s.challenges ==>
              RegisterComplete(s, username, c1, t) ==
              RegisterComplete(State(s.users, s.challenges[username := other]), username, c1, t)
  {
  }

  /** Login trusts the user handle: two assertions with the same handle get the
      same outcome, whatever their signatures, authenticator data and client
      data say. */
  lemma LoginCompleteTrustsHandle(s: State, a1: Assertion, a2: Assertion)
    requires a1.userHandle == a2.userHandle
    ensures LoginComplete(s, a1) == LoginComplete(s, a2)
  {
  }

  /** Login succeeds whether or not a login challenge was issued: with the slot
      empty or holding any challenge, the reply is the same. */
  lemma LoginCompleteIgnoresLoginChallenge(s: State, a: Assertion, c: Challenge)
    ensures LoginComplete(s, a).reply == LoginComplete(State(s.users, s.challenges - {LoginKey}), a).reply
    ensures LoginComplete(s, a).reply == LoginComplete(State(s.users, s.challenges[LoginKey := c]), a).reply
  {
  }

  /** A replayed assertion succeeds again with the same reply: nothing is
      consumed that the second call needs. */
  lemma LoginCompleteReplay(s: State, a: Assertion)
    ensures var r := LoginComplete(s, a);
            r.reply.Ok? ==> LoginComplete(r.state, a) == r
  {
  }

  /** Because the login slot is keyed "login", once a user of that name exists,
      any caller can take over the account: /login/start followed by
      /register/complete for "login" replaces its credential. */
  lemma LoginUserTakeover(s: State, challenge: Challenge, credential: Credential, registeredAt: string)
    requires LoginKey in s.users
    ensures var s1 := LoginStart(s, challenge).state;
            var r := RegisterComplete(s1, LoginKey, credential, registeredAt);
            r.reply.Ok? && r.state.users[LoginKey] == UserRecord(LoginKey, credential, registeredAt)
  {
  }

  /** Registering "alice" and logging in with her handle yields her profile;
      submitting the same assertion again succeeds as well. */
  lemma AliceScenario(x: Challenge, y: Challenge, credential: Credential, t: string, a: Assertion)
    requires a.userHandle == Some("alice")
    ensures var s1 := RegisterStart(Initial, "alice", x).state;
            var s2 := RegisterComplete(s1, "alice", credential, t).state;
            var s3 := LoginStart(s2, y).state;
            var r := LoginComplete(s3, a);
            r.reply == Ok(Profile("alice", credential.id, t))
            && LoginComplete(r.state, a).reply == r.reply
  {
  }
}
