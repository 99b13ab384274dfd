/**
 * Access tokens over time, on one clock: what the Worker mints and publishes, and what an SDK
 * isolate caches, verifies and accepts. All times are whole seconds.
 */
module Tokens {
  import opened Common
  import opened TokenTimes

  type Id = string
  type Kid = string

  // ── The Worker ─────────────────────────────────────────────────────────────

  datatype Credential = Credential(principal: Option<Id>, expiresAt: Option<int>, revokedAt: Option<int>)
  datatype SsoSession = SsoSession(principal: Id, expiresAt: int, revokedAt: Option<int>)

  datatype Origin = OfKey(key: Id, holder: Option<Id>) | OfSession(session: Id, user: Id) | Passthrough

  datatype Token = Token(origin: Origin, audience: string, issuedAt: int, expiresAt: int, kid: Kid)

  /** `disabledAt` has every principal; `keys[0]` signs and all of `keys` are published. */
  datatype Worker = Worker(
    now: int,
    disabledAt: map<Id, Option<int>>,
    credentials: map<Id, Credential>,
    sessions: map<Id, SsoSession>,
    keys: seq<Kid>,
    retiredAt: map<Kid, int>,
    signed: set<Token>)

  datatype Refusal = InvalidKey | NoSession | InvalidSession | UnknownPrincipal | PrincipalDisabled

  datatype Minted = Minted(token: Token) | NotMinted(reason: Refusal)

  function PrincipalRefusal(w: Worker, p: Id): Option<Refusal> {
    if p !in w.disabledAt then Some(UnknownPrincipal)
    else if w.disabledAt[p].Some? then Some(PrincipalDisabled)
    else None
  }

  predicate ActiveCredential(w: Worker, key: Id) {
    key in w.credentials && w.credentials[key].revokedAt.None?
    && (w.credentials[key].expiresAt.Some? ==> w.credentials[key].expiresAt.value > w.now)
  }

  predicate ActiveSession(w: Worker, id: Id) {
    id in w.sessions && w.sessions[id].revokedAt.None? && w.sessions[id].expiresAt > w.now
  }

  function MintFromKey(w: Worker, app: string, key: Id): Minted
    requires w.keys != []
  {
    if !ActiveCredential(w, key) then NotMinted(InvalidKey)
    else
      var cred := w.credentials[key];
      var refusal := if cred.principal.Some? then PrincipalRefusal(w, cred.principal.value) else None;
      if refusal.Some? then NotMinted(refusal.value)
      else
        Minted(Token(OfKey(key, cred.principal), app, w.now, KeyExpiry(w.now, cred.expiresAt), w.keys[0]))
  }

  function MintToken(w: Worker, app: string, session: Option<Id>): Minted
    requires w.keys != []
  {
    if session.None? then NotMinted(NoSession)
    else if !ActiveSession(w, session.value) then NotMinted(InvalidSession)
    else
      var p := w.sessions[session.value].principal;
      var refusal := PrincipalRefusal(w, p);
      if refusal.Some? then NotMinted(refusal.value)
      else Minted(Token(OfSession(session.value, p), app, w.now, w.now + DEFAULT_TOKEN_TTL, w.keys[0]))
  }

  function Sign(w: Worker, m: Minted): Worker {
    if m.Minted? then w.(signed := w.signed + {m.token}) else w
  }

  // ── The SDK isolate ────────────────────────────────────────────────────────

  datatype JwksCache = JwksCache(kids: set<Kid>, expiresAt: int)
  datatype CachedToken = CachedToken(token: Token, expiresAt: int)
  /** `fetches` counts how often the key set was fetched. */
  datatype Isolate = Isolate(jwks: Option<JwksCache>, keyTokens: map<Id, CachedToken>, fetches: nat)

  function PublishedKids(w: Worker): set<Kid> {
    set k | k in w.keys
  }

  predicate JwksIsFresh(i: Isolate, now: int) {
    i.jwks.Some? && i.jwks.value.expiresAt > now
  }

  /** The isolate after looking for the key set; afterwards it always has one. */
  function WithJwks(i: Isolate, w: Worker, force: bool): (j: Isolate)
    ensures j.jwks.Some?
  {
    if !force && JwksIsFresh(i, w.now) then i
    else i.(jwks := Some(JwksCache(PublishedKids(w), w.now + JWKS_TTL)), fetches := i.fetches + 1)
  }

  datatype Verdict = NoKey | Rejected | Accepted

  /** Key lookup comes first, so an unknown kid is told apart from every other failure. */
  function VerifyWith(kids: set<Kid>, w: Worker, app: string, token: Token): Verdict {
    if token.kid !in kids then NoKey
    else if token in w.signed && token.audience == app && w.now < token.expiresAt then Accepted
    else Rejected
  }

  /** One verification: at most one forced refetch, and only when the kid was not found. */
  function Verify(i: Isolate, w: Worker, app: string, token: Token): (Isolate, bool) {
    var first := WithJwks(i, w, false);
    var verdict := VerifyWith(first.jwks.value.kids, w, app, token);
    if verdict.NoKey? then
      var second := WithJwks(first, w, true);
      (second, VerifyWith(second.jwks.value.kids, w, app, token).Accepted?)
    else (first, verdict.Accepted?)
  }

  /** How an accepted token reached the isolate. */
  datatype How = KeyCache | Cookie | FreshlyMinted | Presented

  datatype Answer = Authorized(token: Token, how: How) | Denied(reason: Refusal)

  datatype Bearer = PxKey(key: Id) | Jwt(token: Token)

  predicate CacheIsUsable(i: Isolate, now: int, key: Id) {
    key in i.keyTokens && i.keyTokens[key].expiresAt - now > REFRESH_SKEW
  }

  /** Exchange the key at the Worker, verify what came back, and remember it. */
  function ExchangeKey(i: Isolate, w: Worker, app: string, key: Id): (Isolate, Worker, Answer)
    requires w.keys != []
  {
    var m := MintFromKey(w, app, key);
    var w' := Sign(w, m);
    if m.NotMinted? then (i, w', Denied(m.reason))
    else
      var (j, ok) := Verify(i, w', app, m.token);
      if !ok then (j, w', Denied(InvalidKey))
      else
        (j.(keyTokens := j.keyTokens[key := CachedToken(m.token, m.token.expiresAt)]), w', Authorized(m.token, FreshlyMinted))
  }

  function AuthenticateBearer(i: Isolate, w: Worker, app: string, bearer: Bearer): (Isolate, Worker, Answer)
    requires w.keys != []
  {
    match bearer
    case Jwt(token) =>
      var (j, ok) := Verify(i, w, app, token);
      (j, w, if ok then Authorized(token, Presented) else Denied(InvalidKey))
    case PxKey(key) =>
      if CacheIsUsable(i, w.now, key) then
        var (j, ok) := Verify(i, w, app, i.keyTokens[key].token);
        if ok then (j, w, Authorized(i.keyTokens[key].token, KeyCache)) else ExchangeKey(j, w, app, key)
      else ExchangeKey(i, w, app, key)
  }

  function ExchangeSession(i: Isolate, w: Worker, app: string, session: Option<Id>): (Isolate, Worker, Answer)
    requires w.keys != []
  {
    var m := MintToken(w, app, session);
    var w' := Sign(w, m);
    if m.NotMinted? then (i, w', Denied(m.reason))
    else
      var (j, ok) := Verify(i, w', app, m.token);
      (j, w', if ok then Authorized(m.token, FreshlyMinted) else Denied(InvalidSession))
  }

  function AuthenticateSession(
      i: Isolate, w: Worker, app: string, cookie: Option<Token>, session: Option<Id>): (Isolate, Worker, Answer)
    requires w.keys != []
  {
    if cookie.None? then ExchangeSession(i, w, app, session)
    else
      var (j, ok) := Verify(i, w, app, cookie.value);
      if ok && cookie.value.expiresAt - w.now > REFRESH_SKEW then (j, w, Authorized(cookie.value, Cookie))
      else ExchangeSession(j, w, app, session)
  }

  // ── Acceptance ─────────────────────────────────────────────────────────────

  /** The key set a verification starts from: the cached one while fresh, else what is published. */
  function KidsAtHand(i: Isolate, w: Worker): set<Kid> {
    if JwksIsFresh(i, w.now) then i.jwks.value.kids else PublishedKids(w)
  }

  /**
   * A correctly signed, unexpired token for this app whose kid is published now is accepted, whatever
   * key set the isolate had cached, with at most one fetch and none if the cache is fresh and knows the kid.
   */
  lemma PublishedKeyIsAccepted(i: Isolate, w: Worker, app: string, token: Token)
    requires token in w.signed && token.audience == app && w.now < token.expiresAt && token.kid in w.keys
    ensures var (j, ok) := Verify(i, w, app, token);
            && ok
            && j.fetches == if JwksIsFresh(i, w.now) && token.kid in i.jwks.value.kids then i.fetches else i.fetches + 1
  {
  }

  /**
   * For any token: it is accepted exactly when it is signed, unexpired, for this app and under a kid that
   * is published or at hand; and the key set is fetched once if it is stale and once more, by force, only
   * if the kid is not at hand.
   */
  lemma AcceptedExactlyWhenSound(i: Isolate, w: Worker, app: string, token: Token)
    ensures var (j, ok) := Verify(i, w, app, token);
            && (ok <==> token in w.signed && token.audience == app && w.now < token.expiresAt
                        && (token.kid in w.keys || token.kid in KidsAtHand(i, w)))
            && j.fetches == i.fetches + (if JwksIsFresh(i, w.now) then 0 else 1)
                                      + (if token.kid in KidsAtHand(i, w) then 0 else 1)
            && j.jwks == (if j.fetches == i.fetches then i.jwks else Some(JwksCache(PublishedKids(w), w.now + 600)))
            && j.keyTokens == i.keyTokens
  {
  }

  /** A usable key of an enabled principal is always let in, whatever the isolate remembers. */
  lemma LiveKeyIsAuthorized(i: Isolate, w: Worker, app: string, key: Id)
    requires w.keys != [] && ActiveCredential(w, key)
    requires w.credentials[key].principal.Some? ==> PrincipalRefusal(w, w.credentials[key].principal.value).None?
    ensures AuthenticateBearer(i, w, app, PxKey(key)).2.Authorized?
  {
    var m := MintFromKey(w, app, key);
    PublishedKeyIsAccepted(i, Sign(w, m), app, m.token);
    if CacheIsUsable(i, w.now, key) {
      var j := Verify(i, w, app, i.keyTokens[key].token).0;
      PublishedKeyIsAccepted(j, Sign(w, m), app, m.token);
    }
  }

  /** So is a live session of an enabled user. */
  lemma LiveSessionIsAuthorized(i: Isolate, w: Worker, app: string, cookie: Option<Token>, session: Id)
    requires w.keys != [] && ActiveSession(w, session) && PrincipalRefusal(w, w.sessions[session].principal).None?
    ensures AuthenticateSession(i, w, app, cookie, Some(session)).2.Authorized?
  {
    var m := MintToken(w, app, Some(session));
    PublishedKeyIsAccepted(i, Sign(w, m), app, m.token);
    if cookie.Some? {
      PublishedKeyIsAccepted(Verify(i, w, app, cookie.value).0, Sign(w, m), app, m.token);
    }
  }

  // ── Mints and answers, from the stored rows ────────────────────────────────

  ghost predicate IsStanding(w: Worker, p: Id) {
    p in w.disabledAt && w.disabledAt[p].None?
  }

  /** Why a principal is refused. */
  ghost predicate IsPrincipalRefusal(w: Worker, p: Id, reason: Refusal) {
    || (p !in w.disabledAt && reason == UnknownPrincipal)
    || (p in w.disabledAt && w.disabledAt[p].Some? && reason == PrincipalDisabled)
  }

  /** What exchanging a key must give: a token for this app of the key and its holder, or the first reason against it. */
  ghost predicate IsKeyMint(w: Worker, app: string, key: Id, m: Minted)
    requires w.keys != []
  {
    var current := key in w.credentials && w.credentials[key].revokedAt.None?
                   && (w.credentials[key].expiresAt.Some? ==> w.now < w.credentials[key].expiresAt.value);
    if !current then m == NotMinted(InvalidKey)
    else
      var row := w.credentials[key];
      if row.principal.Some? && !IsStanding(w, row.principal.value) then
        m.NotMinted? && IsPrincipalRefusal(w, row.principal.value, m.reason)
      else
        && m.Minted? && m.token == Token(OfKey(key, row.principal), app, w.now, m.token.expiresAt, w.keys[0])
        && w.now < m.token.expiresAt <= w.now + 300
        && (row.expiresAt.Some? ==> m.token.expiresAt <= row.expiresAt.value)
        && (m.token.expiresAt == w.now + 300 || Some(m.token.expiresAt) == row.expiresAt)
  }

  lemma KeyMintIs(w: Worker, app: string, key: Id)
    requires w.keys != []
    ensures IsKeyMint(w, app, key, MintFromKey(w, app, key))
  {
  }

  /** What exchanging a session must give: 300 s for its user, or the first reason against it. */
  ghost predicate IsSessionMint(w: Worker, app: string, session: Option<Id>, m: Minted)
    requires w.keys != []
  {
    match session
    case None => m == NotMinted(NoSession)
    case Some(id) =>
      if id in w.sessions && w.sessions[id].revokedAt.None? && w.now < w.sessions[id].expiresAt then
        var user := w.sessions[id].principal;
        if IsStanding(w, user) then m == Minted(Token(OfSession(id, user), app, w.now, w.now + 300, w.keys[0]))
        else m.NotMinted? && IsPrincipalRefusal(w, user, m.reason)
      else m == NotMinted(InvalidSession)
  }

  lemma SessionMintIs(w: Worker, app: string, session: Option<Id>)
    requires w.keys != []
    ensures IsSessionMint(w, app, session, MintToken(w, app, session))
  {
  }

  /** A token the isolate accepts, by `AcceptedExactlyWhenSound`. */
  ghost predicate IsAcceptable(i: Isolate, w: Worker, app: string, t: Token) {
    t in w.signed && t.audience == app && w.now < t.expiresAt && (t.kid in w.keys || t.kid in KidsAtHand(i, w))
  }

  /** A mint is answered with its token, which the Worker has then signed, or with its reason. */
  ghost predicate IsMintAnswer(w: Worker, m: Minted, v: Worker, answer: Answer) {
    match m
    case Minted(t) => answer == Authorized(t, FreshlyMinted) && v == w.(signed := w.signed + {t})
    case NotMinted(reason) => answer == Denied(reason) && v == w
  }

  /** A sound cookie with more than the skew left settles it, whatever the session; else the session is exchanged. */
  ghost predicate IsSessionAnswer(
      i: Isolate, w: Worker, app: string, cookie: Option<Token>, session: Option<Id>, v: Worker, answer: Answer)
    requires w.keys != []
  {
    if cookie.Some? && IsAcceptable(i, w, app, cookie.value) && cookie.value.expiresAt > w.now + 30 then
      answer == Authorized(cookie.value, Cookie) && v == w
    else exists m :: IsSessionMint(w, app, session, m) && IsMintAnswer(w, m, v, answer)
  }

  lemma SessionAnswerIs(i: Isolate, w: Worker, app: string, cookie: Option<Token>, session: Option<Id>)
    requires w.keys != []
    ensures var (j, v, answer) := AuthenticateSession(i, w, app, cookie, session);
            IsSessionAnswer(i, w, app, cookie, session, v, answer) && j.keyTokens == i.keyTokens
  {
    var j := i;
    if cookie.Some? {
      AcceptedExactlyWhenSound(i, w, app, cookie.value);
      j := Verify(i, w, app, cookie.value).0;
    }
    var m := MintToken(w, app, session);
    SessionMintIs(w, app, session);
    if m.Minted? {
      AcceptedExactlyWhenSound(j, Sign(w, m), app, m.token);
      AcceptedExactlyWhenSound(i, Sign(w, m), app, m.token);
    }
    assert IsMintAnswer(w, m, ExchangeSession(j, w, app, session).1, ExchangeSession(j, w, app, session).2);
  }

  /** A token is judged here; a remembered key with more than the skew left needs no exchange; any other is exchanged. */
  ghost predicate IsBearerAnswer(i: Isolate, w: Worker, app: string, bearer: Bearer, j: Isolate, v: Worker, answer: Answer)
    requires w.keys != []
  {
    match bearer
    case Jwt(t) =>
      && v == w && j.keyTokens == i.keyTokens
      && answer == if IsAcceptable(i, w, app, t) then Authorized(t, Presented) else Denied(InvalidKey)
    case PxKey(key) =>
      if key in i.keyTokens && i.keyTokens[key].expiresAt > w.now + 30 && IsAcceptable(i, w, app, i.keyTokens[key].token) then
        answer == Authorized(i.keyTokens[key].token, KeyCache) && v == w && j.keyTokens == i.keyTokens
      else
        exists m :: IsKeyMint(w, app, key, m) && IsMintAnswer(w, m, v, answer)
          && j.keyTokens == if m.Minted? then i.keyTokens[key := CachedToken(m.token, m.token.expiresAt)] else i.keyTokens
  }

  lemma BearerAnswerIs(i: Isolate, w: Worker, app: string, bearer: Bearer)
    requires w.keys != []
    ensures var (j, v, answer) := AuthenticateBearer(i, w, app, bearer);
            IsBearerAnswer(i, w, app, bearer, j, v, answer)
  {
    match bearer
    case Jwt(t) => AcceptedExactlyWhenSound(i, w, app, t);
    case PxKey(key) =>
      var j := i;
      if CacheIsUsable(i, w.now, key) {
        AcceptedExactlyWhenSound(i, w, app, i.keyTokens[key].token);
        j := Verify(i, w, app, i.keyTokens[key].token).0;
      }
      var m := MintFromKey(w, app, key);
      KeyMintIs(w, app, key);
      if m.Minted? {
        AcceptedExactlyWhenSound(j, Sign(w, m), app, m.token);
        AcceptedExactlyWhenSound(i, Sign(w, m), app, m.token);
      }
      assert IsMintAnswer(w, m, ExchangeKey(j, w, app, key).1, ExchangeKey(j, w, app, key).2);
  }
}
