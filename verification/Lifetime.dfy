/**
 * How long authority outlives its source: over every run of mints, uses, revocations, disables and
 * key rotations, each accepted token is younger than a fixed bound past the event that should end it.
 */
module Lifetime {
  import opened Common
  import opened TokenTimes
  import opened Tokens

  /** One acceptance: when, of what, and how it reached the isolate. */
  datatype Use = Use(at: int, token: Token, how: How)

  datatype System = System(worker: Worker, isolates: map<nat, Isolate>, uses: set<Use>)

  datatype Event =
    | Wait(seconds: nat)
    | AddPrincipal(id: Id)
    | Disable(id: Id)
    | Enable(id: Id)
    | AddCredential(id: Id, holder: Option<Id>, validUntil: Option<int>)
    | RevokeCredential(id: Id)
    | RevokeCredentialsOf(principal: Id)
    | AddSession(id: Id, principal: Id, endsAt: int)
    | RevokeSession(id: Id)
    | SetKeys(keys: seq<Kid>)
    | IssueJwt(app: string, ttl: Option<int>)
    | UseBearer(isolate: nat, app: string, bearer: Bearer)
    | UseSession(isolate: nat, app: string, cookie: Option<Token>, session: Option<Id>)

  function Revoked(cred: Credential, now: int): Credential {
    if cred.revokedAt.None? then cred.(revokedAt := Some(now)) else cred
  }

  /** A kid dropped from the configuration retires now; one put back is no longer retired. */
  function WithKeys(w: Worker, keys: seq<Kid>): Worker {
    w.(keys := keys,
       retiredAt := map k | k in w.retiredAt.Keys + PublishedKids(w) && k !in keys ::
         if k in w.keys then w.now else w.retiredAt[k])
  }

  function WorkerStep(w: Worker, e: Event): Worker {
    match e
    case Wait(seconds) => w.(now := w.now + seconds)
    case AddPrincipal(id) => if id in w.disabledAt then w else w.(disabledAt := w.disabledAt[id := None])
    case Disable(id) =>
      if id in w.disabledAt && w.disabledAt[id].None? then w.(disabledAt := w.disabledAt[id := Some(w.now)]) else w
    case Enable(id) => if id in w.disabledAt then w.(disabledAt := w.disabledAt[id := None]) else w
    case AddCredential(id, principal, expiresAt) =>
      if id in w.credentials then w
      else w.(credentials := w.credentials[id := Credential(principal, expiresAt, None)])
    case RevokeCredential(id) =>
      if id in w.credentials then w.(credentials := w.credentials[id := Revoked(w.credentials[id], w.now)]) else w
    case RevokeCredentialsOf(p) =>
      w.(credentials := map id | id in w.credentials ::
           if w.credentials[id].principal == Some(p) then Revoked(w.credentials[id], w.now) else w.credentials[id])
    case AddSession(id, principal, expiresAt) =>
      if id in w.sessions then w else w.(sessions := w.sessions[id := SsoSession(principal, expiresAt, None)])
    case RevokeSession(id) =>
      if id in w.sessions && w.sessions[id].revokedAt.None? then
        w.(sessions := w.sessions[id := w.sessions[id].(revokedAt := Some(w.now))])
      else w
    case SetKeys(keys) => if keys == [] then w else WithKeys(w, keys)
    case IssueJwt(app, ttl) =>
      if w.keys == [] then w
      else w.(signed := w.signed + {Token(Passthrough, app, w.now, w.now + PassthroughTtl(ttl), w.keys[0])})
    case _ => w
  }

  function IsolateOf(s: System, i: nat): Isolate {
    if i in s.isolates then s.isolates[i] else Isolate(None, map[], 0)
  }

  function Record(s: System, i: nat, outcome: (Isolate, Worker, Answer)): System {
    System(outcome.1, s.isolates[i := outcome.0],
           if outcome.2.Authorized? then s.uses + {Use(s.worker.now, outcome.2.token, outcome.2.how)} else s.uses)
  }

  function Step(s: System, e: Event): System {
    if s.worker.keys == [] && (e.UseBearer? || e.UseSession?) then s
    else if e.UseBearer? then
      Record(s, e.isolate, AuthenticateBearer(IsolateOf(s, e.isolate), s.worker, e.app, e.bearer))
    else if e.UseSession? then
      Record(s, e.isolate, AuthenticateSession(IsolateOf(s, e.isolate), s.worker, e.app, e.cookie, e.session))
    else s.(worker := WorkerStep(s.worker, e))
  }

  function Run(events: seq<Event>): System {
    if events == [] then System(Worker(0, map[], map[], map[], [], map[], {}), map[], {})
    else Step(Run(events[..|events| - 1]), events[|events| - 1])
  }

  /** What answering a request leaves behind: the Worker and isolate as the answer has them, and the use if there is one. */
  ghost predicate IsAnswered(s: System, t: System, isolate: nat, v: Worker, answer: Answer) {
    && t.worker == v
    && isolate in t.isolates && t.isolates.Keys == s.isolates.Keys + {isolate}
    && (forall other :: other in s.isolates && other != isolate ==> t.isolates[other] == s.isolates[other])
    && t.uses == if answer.Authorized? then s.uses + {Use(s.worker.now, answer.token, answer.how)} else s.uses
  }

  /** Requests get the answers they must, and every acceptance is on record. */
  lemma BearerUsesAreRecorded(s: System, i: nat, app: string, bearer: Bearer)
    requires s.worker.keys != []
    ensures var t := Step(s, UseBearer(i, app, bearer));
            exists v, answer :: IsAnswered(s, t, i, v, answer)
              && IsBearerAnswer(IsolateOf(s, i), s.worker, app, bearer, t.isolates[i], v, answer)
  {
    var outcome := AuthenticateBearer(IsolateOf(s, i), s.worker, app, bearer);
    BearerAnswerIs(IsolateOf(s, i), s.worker, app, bearer);
    assert IsAnswered(s, Step(s, UseBearer(i, app, bearer)), i, outcome.1, outcome.2);
  }

  lemma SessionUsesAreRecorded(s: System, i: nat, app: string, cookie: Option<Token>, session: Option<Id>)
    requires s.worker.keys != []
    ensures var t := Step(s, UseSession(i, app, cookie, session));
            exists v, answer :: IsAnswered(s, t, i, v, answer)
              && IsSessionAnswer(IsolateOf(s, i), s.worker, app, cookie, session, v, answer)
  {
    var outcome := AuthenticateSession(IsolateOf(s, i), s.worker, app, cookie, session);
    SessionAnswerIs(IsolateOf(s, i), s.worker, app, cookie, session);
    assert IsAnswered(s, Step(s, UseSession(i, app, cookie, session)), i, outcome.1, outcome.2);
  }

  // ── What a signed token owes its source ────────────────────────────────────

  predicate NotBefore(t: int, limit: Option<int>) { limit.Some? ==> t <= limit.value }

  ghost predicate NotDisabledBefore(w: Worker, p: Id, t: int) {
    p in w.disabledAt && NotBefore(t, w.disabledAt[p])
  }

  ghost predicate KeyTokenSound(w: Worker, t: Token)
    requires t.origin.OfKey?
  {
    && t.origin.key in w.credentials && w.credentials[t.origin.key].principal == t.origin.holder
    && t.expiresAt <= t.issuedAt + DEFAULT_TOKEN_TTL
    && NotBefore(t.expiresAt, w.credentials[t.origin.key].expiresAt)
    && NotBefore(t.issuedAt, w.credentials[t.origin.key].revokedAt)
    && (t.origin.holder.Some? ==> NotDisabledBefore(w, t.origin.holder.value, t.issuedAt))
  }

  ghost predicate SessionTokenSound(w: Worker, t: Token)
    requires t.origin.OfSession?
  {
    && t.origin.session in w.sessions && w.sessions[t.origin.session].principal == t.origin.user
    && t.expiresAt <= t.issuedAt + DEFAULT_TOKEN_TTL
    && t.issuedAt < w.sessions[t.origin.session].expiresAt
    && NotBefore(t.issuedAt, w.sessions[t.origin.session].revokedAt)
    && NotDisabledBefore(w, t.origin.user, t.issuedAt)
  }

  ghost predicate TokenSound(w: Worker, t: Token) {
    && t.issuedAt <= w.now
    && match t.origin
       case OfKey(_, _) => KeyTokenSound(w, t)
       case OfSession(_, _) => SessionTokenSound(w, t)
       case Passthrough => t.expiresAt <= t.issuedAt + MAX_PASSTHROUGH_TTL
  }

  ghost predicate SignedSound(w: Worker) {
    forall t :: t in w.signed ==> TokenSound(w, t)
  }

  /** A kid known at `until - JWKS_TTL` is published still, or was retired no earlier than that. */
  ghost predicate KidKnown(w: Worker, kid: Kid, until: int) {
    kid in w.keys || (kid in w.retiredAt && until <= w.retiredAt[kid] + JWKS_TTL)
  }

  ghost predicate JwksSound(w: Worker, c: JwksCache) {
    c.expiresAt <= w.now + JWKS_TTL && forall k :: k in c.kids ==> KidKnown(w, k, c.expiresAt)
  }

  ghost predicate CachedSound(w: Worker, key: Id, c: CachedToken) {
    c.token in w.signed && c.token.origin.OfKey? && c.token.origin.key == key && c.expiresAt == c.token.expiresAt
  }

  ghost predicate IsolateSound(w: Worker, i: Isolate) {
    && (i.jwks.Some? ==> JwksSound(w, i.jwks.value))
    && forall k :: k in i.keyTokens ==> CachedSound(w, k, i.keyTokens[k])
  }

  ghost predicate UseSound(w: Worker, u: Use) {
    && u.token in w.signed && u.at <= w.now && u.at < u.token.expiresAt
    && (u.how.KeyCache? || u.how.Cookie? ==> u.at + REFRESH_SKEW < u.token.expiresAt)
    && (u.how.FreshlyMinted? ==> u.at == u.token.issuedAt)
    && KidKnown(w, u.token.kid, u.at + 1)
  }

  ghost predicate Sound(s: System) {
    && SignedSound(s.worker)
    && (forall i :: i in s.isolates ==> IsolateSound(s.worker, s.isolates[i]))
    && forall u :: u in s.uses ==> UseSound(s.worker, u)
  }

  // ── Worker steps ───────────────────────────────────────────────────────────

  /** What later worker states may do to earlier facts. */
  ghost predicate KidsCarry(w: Worker, v: Worker) {
    forall k, until :: KidKnown(w, k, until) && until <= w.now + JWKS_TTL ==> KidKnown(v, k, until)
  }

  ghost predicate Later(w: Worker, v: Worker) {
    w.now <= v.now && w.signed <= v.signed && KidsCarry(w, v)
  }

  lemma WorkerStepIsLater(w: Worker, e: Event)
    ensures Later(w, WorkerStep(w, e))
  {
  }

  lemma WorkerStepKeepsToken(w: Worker, e: Event, t: Token)
    requires TokenSound(w, t)
    ensures TokenSound(WorkerStep(w, e), t)
  {
  }

  lemma WorkerStepKeepsSigned(w: Worker, e: Event)
    requires SignedSound(w)
    ensures SignedSound(WorkerStep(w, e))
  {
    var v := WorkerStep(w, e);
    forall t | t in v.signed ensures TokenSound(v, t) {
      if t in w.signed {
        WorkerStepKeepsToken(w, e, t);
      }
    }
  }

  lemma LaterKeepsIsolate(w: Worker, v: Worker, i: Isolate)
    requires IsolateSound(w, i) && Later(w, v)
    ensures IsolateSound(v, i)
  {
  }

  lemma LaterKeepsUse(w: Worker, v: Worker, u: Use)
    requires UseSound(w, u) && Later(w, v)
    ensures UseSound(v, u)
  {
  }

  // ── SDK steps ──────────────────────────────────────────────────────────────

  lemma MintedIsSound(w: Worker, m: Minted)
    requires SignedSound(w) && w.keys != []
    requires (exists app, key :: m == MintFromKey(w, app, key)) || (exists app, session :: m == MintToken(w, app, session))
    ensures SignedSound(Sign(w, m)) && Later(w, Sign(w, m))
  {
  }

  lemma VerifyIsSound(i: Isolate, w: Worker, app: string, token: Token)
    requires IsolateSound(w, i)
    ensures IsolateSound(w, Verify(i, w, app, token).0)
    ensures Verify(i, w, app, token).0.keyTokens == i.keyTokens
    ensures Verify(i, w, app, token).1 ==>
              token in w.signed && w.now < token.expiresAt && KidKnown(w, token.kid, w.now + 1)
  {
  }

  /** What every authentication must deliver, whatever path it took. */
  ghost predicate OutcomeSound(w: Worker, outcome: (Isolate, Worker, Answer)) {
    && SignedSound(outcome.1) && Later(w, outcome.1) && outcome.1.now == w.now && outcome.1.keys == w.keys
    && IsolateSound(outcome.1, outcome.0)
    && (outcome.2.Authorized? ==> UseSound(outcome.1, Use(w.now, outcome.2.token, outcome.2.how)))
  }

  lemma ExchangeKeyIsSound(i: Isolate, w: Worker, app: string, key: Id)
    requires SignedSound(w) && IsolateSound(w, i) && w.keys != []
    ensures OutcomeSound(w, ExchangeKey(i, w, app, key))
  {
    var m := MintFromKey(w, app, key);
    MintedIsSound(w, m);
    LaterKeepsIsolate(w, Sign(w, m), i);
    if m.Minted? {
      VerifyIsSound(i, Sign(w, m), app, m.token);
    }
  }

  lemma ExchangeSessionIsSound(i: Isolate, w: Worker, app: string, session: Option<Id>)
    requires SignedSound(w) && IsolateSound(w, i) && w.keys != []
    ensures OutcomeSound(w, ExchangeSession(i, w, app, session))
  {
    var m := MintToken(w, app, session);
    MintedIsSound(w, m);
    LaterKeepsIsolate(w, Sign(w, m), i);
    if m.Minted? {
      VerifyIsSound(i, Sign(w, m), app, m.token);
    }
  }

  lemma BearerIsSound(i: Isolate, w: Worker, app: string, bearer: Bearer)
    requires SignedSound(w) && IsolateSound(w, i) && w.keys != []
    ensures OutcomeSound(w, AuthenticateBearer(i, w, app, bearer))
  {
    match bearer
    case Jwt(token) => VerifyIsSound(i, w, app, token);
    case PxKey(key) =>
      if CacheIsUsable(i, w.now, key) {
        var token := i.keyTokens[key].token;
        VerifyIsSound(i, w, app, token);
        ExchangeKeyIsSound(Verify(i, w, app, token).0, w, app, key);
      } else {
        ExchangeKeyIsSound(i, w, app, key);
      }
  }

  lemma SessionIsSound(i: Isolate, w: Worker, app: string, cookie: Option<Token>, session: Option<Id>)
    requires SignedSound(w) && IsolateSound(w, i) && w.keys != []
    ensures OutcomeSound(w, AuthenticateSession(i, w, app, cookie, session))
  {
    if cookie.Some? {
      VerifyIsSound(i, w, app, cookie.value);
      ExchangeSessionIsSound(Verify(i, w, app, cookie.value).0, w, app, session);
    } else {
      ExchangeSessionIsSound(i, w, app, session);
    }
  }

  lemma LaterKeepsRest(s: System, t: System)
    requires Sound(s) && Later(s.worker, t.worker) && SignedSound(t.worker)
    requires forall i :: i in t.isolates ==>
               (i in s.isolates && t.isolates[i] == s.isolates[i]) || IsolateSound(t.worker, t.isolates[i])
    requires forall u :: u in t.uses ==> u in s.uses || UseSound(t.worker, u)
    ensures Sound(t)
  {
    forall i | i in t.isolates ensures IsolateSound(t.worker, t.isolates[i]) {
      if i in s.isolates && t.isolates[i] == s.isolates[i] {
        LaterKeepsIsolate(s.worker, t.worker, s.isolates[i]);
      }
    }
    forall u | u in t.uses ensures UseSound(t.worker, u) {
      if u in s.uses {
        LaterKeepsUse(s.worker, t.worker, u);
      }
    }
  }

  lemma StepKeepsSound(s: System, e: Event)
    requires Sound(s)
    ensures Sound(Step(s, e))
  {
    if e.UseBearer? || e.UseSession? {
      if s.worker.keys != [] {
        if e.UseBearer? {
          BearerIsSound(IsolateOf(s, e.isolate), s.worker, e.app, e.bearer);
        } else {
          SessionIsSound(IsolateOf(s, e.isolate), s.worker, e.app, e.cookie, e.session);
        }
        LaterKeepsRest(s, Step(s, e));
      }
    } else {
      WorkerStepIsLater(s.worker, e);
      WorkerStepKeepsSigned(s.worker, e);
      LaterKeepsRest(s, Step(s, e));
    }
  }

  lemma {:induction false} AlwaysSound(events: seq<Event>)
    ensures Sound(Run(events))
  {
    if events != [] {
      AlwaysSound(events[..|events| - 1]);
      StepKeepsSound(Run(events[..|events| - 1]), events[|events| - 1]);
    }
  }

  // ── The bounds ─────────────────────────────────────────────────────────────

  /**
   * A revoked credential's tokens die within the token lifetime, and presenting the credential itself
   * stops working sooner, by the refresh skew. None outlives the credential's own expiry.
   */
  lemma RevokedKeyDies(events: seq<Event>, u: Use)
    requires u in Run(events).uses && u.token.origin.OfKey?
    ensures u.token.origin.key in Run(events).worker.credentials
    ensures var cred := Run(events).worker.credentials[u.token.origin.key];
            && (cred.revokedAt.Some? ==> u.at < cred.revokedAt.value + DEFAULT_TOKEN_TTL)
            && (cred.revokedAt.Some? && (u.how.KeyCache? || u.how.FreshlyMinted?) ==>
                  u.at < cred.revokedAt.value + DEFAULT_TOKEN_TTL - REFRESH_SKEW)
            && (cred.expiresAt.Some? ==> u.at < cred.expiresAt.value)
  {
    AlwaysSound(events);
    assert TokenSound(Run(events).worker, u.token);
  }

  /** A user or service disabled since `r` is accepted nowhere from `r + DEFAULT_TOKEN_TTL` on. */
  lemma DisabledPrincipalDies(events: seq<Event>, u: Use, p: Id, r: int)
    requires u in Run(events).uses
    requires (u.token.origin.OfKey? && u.token.origin.holder == Some(p)) || (u.token.origin.OfSession? && u.token.origin.user == p)
    requires p in Run(events).worker.disabledAt && Run(events).worker.disabledAt[p] == Some(r)
    ensures u.at < r + DEFAULT_TOKEN_TTL
    ensures u.how.KeyCache? || u.how.Cookie? || u.how.FreshlyMinted? ==> u.at < r + DEFAULT_TOKEN_TTL - REFRESH_SKEW
  {
    AlwaysSound(events);
    assert TokenSound(Run(events).worker, u.token);
  }

  /** The same for an SSO session that was logged out or ran out. */
  lemma EndedSessionDies(events: seq<Event>, u: Use)
    requires u in Run(events).uses && u.token.origin.OfSession?
    ensures u.token.origin.session in Run(events).worker.sessions
    ensures var session := Run(events).worker.sessions[u.token.origin.session];
            && (session.revokedAt.Some? ==> u.at < session.revokedAt.value + DEFAULT_TOKEN_TTL)
            && (session.revokedAt.Some? && !u.how.Presented? ==> u.at < session.revokedAt.value + DEFAULT_TOKEN_TTL - REFRESH_SKEW)
            && u.at < session.expiresAt + DEFAULT_TOKEN_TTL
  {
    AlwaysSound(events);
    assert TokenSound(Run(events).worker, u.token);
  }

  /** A passthrough token cannot be revoked, and lives a day at most. */
  lemma PassthroughDiesInADay(events: seq<Event>, u: Use)
    requires u in Run(events).uses && u.token.origin.Passthrough?
    ensures u.at < u.token.issuedAt + MAX_PASSTHROUGH_TTL
  {
    AlwaysSound(events);
    assert TokenSound(Run(events).worker, u.token);
  }

  /** A kid retired at `q`, and not put back since, verifies nothing from `q + JWKS_TTL` on. */
  lemma RetiredKidDies(events: seq<Event>, u: Use)
    requires u in Run(events).uses && u.token.kid !in Run(events).worker.keys
    ensures u.token.kid in Run(events).worker.retiredAt
    ensures u.at < Run(events).worker.retiredAt[u.token.kid] + JWKS_TTL
  {
    AlwaysSound(events);
    assert UseSound(Run(events).worker, u);
  }

  // ── The bounds, from the event that ends it ────────────────────────────────

  /** What a token's validity rests on. */
  datatype Source = KeySource(key: Id) | UserSource(principal: Id) | SessionSource(session: Id) | KidSource(kid: Kid)

  predicate RestsOn(t: Token, source: Source) {
    match source
    case KeySource(key) => t.origin.OfKey? && t.origin.key == key
    case UserSource(p) => (t.origin.OfKey? && t.origin.holder == Some(p)) || (t.origin.OfSession? && t.origin.user == p)
    case SessionSource(id) => t.origin.OfSession? && t.origin.session == id
    case KidSource(kid) => t.kid == kid
  }

  /** The event takes the source away. */
  predicate Ends(w: Worker, e: Event, source: Source) {
    match source
    case KeySource(key) =>
      key in w.credentials
      && (e == RevokeCredential(key) || (e.RevokeCredentialsOf? && w.credentials[key].principal == Some(e.principal)))
    case UserSource(p) => p in w.disabledAt && e == Disable(p)
    case SessionSource(id) => id in w.sessions && e == RevokeSession(id)
    case KidSource(kid) => kid in w.keys && e.SetKeys? && e.keys != [] && kid !in e.keys
  }

  /** Only disabling and retiring can be undone. */
  predicate Restores(e: Event, source: Source) {
    match source
    case UserSource(p) => e == Enable(p)
    case KidSource(kid) => e.SetKeys? && kid in e.keys
    case _ => false
  }

  ghost predicate EndedBy(w: Worker, source: Source, r: int) {
    match source
    case KeySource(key) => key in w.credentials && w.credentials[key].revokedAt.Some? && w.credentials[key].revokedAt.value <= r
    case UserSource(p) => p in w.disabledAt && w.disabledAt[p].Some? && w.disabledAt[p].value <= r
    case SessionSource(id) => id in w.sessions && w.sessions[id].revokedAt.Some? && w.sessions[id].revokedAt.value <= r
    case KidSource(kid) => kid !in w.keys && kid in w.retiredAt && w.retiredAt[kid] <= r
  }

  /** Recorded times are past. */
  ghost predicate RecordsArePast(w: Worker) {
    && (forall key :: key in w.credentials && w.credentials[key].revokedAt.Some? ==> w.credentials[key].revokedAt.value <= w.now)
    && (forall p :: p in w.disabledAt && w.disabledAt[p].Some? ==> w.disabledAt[p].value <= w.now)
    && (forall id :: id in w.sessions && w.sessions[id].revokedAt.Some? ==> w.sessions[id].revokedAt.value <= w.now)
  }

  /** Uses change nothing of the Worker but what it has signed. */
  lemma StepChangesTheWorkerOnlyBy(s: System, e: Event)
    ensures Step(s, e).worker.(signed := {}) == WorkerStep(s.worker, e).(signed := {})
  {
  }

  lemma WorkerStepKeepsRecords(w: Worker, e: Event)
    requires RecordsArePast(w)
    ensures RecordsArePast(WorkerStep(w, e))
  {
  }

  lemma {:induction false} RecordsAreAlwaysPast(events: seq<Event>)
    ensures RecordsArePast(Run(events).worker)
  {
    if events != [] {
      var init, last := events[..|events| - 1], events[|events| - 1];
      RecordsAreAlwaysPast(init);
      WorkerStepKeepsRecords(Run(init).worker, last);
      StepChangesTheWorkerOnlyBy(Run(init), last);
    }
  }

  lemma EndTakesEffect(w: Worker, e: Event, source: Source)
    requires RecordsArePast(w) && Ends(w, e, source)
    ensures EndedBy(WorkerStep(w, e), source, w.now)
  {
  }

  lemma EndStays(w: Worker, e: Event, source: Source, r: int)
    requires EndedBy(w, source, r) && !Restores(e, source)
    ensures EndedBy(WorkerStep(w, e), source, r)
  {
  }

  lemma {:induction false} EndIsKept(events: seq<Event>, later: seq<Event>, source: Source, r: int)
    requires EndedBy(Run(events).worker, source, r) && forall e :: e in later ==> !Restores(e, source)
    ensures EndedBy(Run(events + later).worker, source, r)
  {
    if later == [] {
      assert events + later == events;
    } else {
      var init, last := later[..|later| - 1], later[|later| - 1];
      EndIsKept(events, init, source, r);
      EndStays(Run(events + init).worker, last, source, r);
      StepChangesTheWorkerOnlyBy(Run(events + init), last);
      RunExtends(events + init, last);
      assert events + later == events + init + [last];
    }
  }

  lemma RunExtends(events: seq<Event>, e: Event)
    ensures Run(events + [e]) == Step(Run(events), e)
  {
    assert (events + [e])[..|events + [e]| - 1] == events;
  }

  /**
   * Whatever happens before and after, once a key or session is revoked, or a principal disabled and not
   * enabled again, nothing resting on it is accepted 300 s later, nor, unless the token itself is presented,
   * 270 s later; and nothing under a kid dropped and not put back, 600 s later.
   */
  lemma EndedSourceDies(before: seq<Event>, e: Event, after: seq<Event>, source: Source, u: Use)
    requires Ends(Run(before).worker, e, source) && forall x :: x in after ==> !Restores(x, source)
    requires u in Run(before + [e] + after).uses && RestsOn(u.token, source)
    ensures u.at < Run(before).worker.now + if source.KidSource? then 600 else 300
    ensures !source.KidSource? && !u.how.Presented? ==> u.at < Run(before).worker.now + 270
  {
    var r := Run(before).worker.now;
    RecordsAreAlwaysPast(before);
    EndTakesEffect(Run(before).worker, e, source);
    StepChangesTheWorkerOnlyBy(Run(before), e);
    RunExtends(before, e);
    EndIsKept(before + [e], after, source, r);
    AlwaysSound(before + [e] + after);
    var s := Run(before + [e] + after);
    assert UseSound(s.worker, u) && TokenSound(s.worker, u.token);
  }

  // ── The bounds are reached ─────────────────────────────────────────────────

  /** A key minted from and revoked at once: its token is accepted until the last second of each bound. */
  lemma RevocationBoundsAreReached(key: Id, kid: Kid, app: string)
    returns (events: seq<Event>, cached: Use, presented: Use)
    ensures cached in Run(events).uses && presented in Run(events).uses
    ensures cached.how.KeyCache? && presented.how.Presented? && cached.token == presented.token
    ensures presented.token.origin == OfKey(key, None)
    ensures var w := Run(events).worker;
            && key in w.credentials && w.credentials[key].revokedAt.Some?
            && cached.at == w.credentials[key].revokedAt.value + DEFAULT_TOKEN_TTL - REFRESH_SKEW - 1
            && presented.at == w.credentials[key].revokedAt.value + DEFAULT_TOKEN_TTL - 1
  {
    var token := Token(OfKey(key, None), app, 0, DEFAULT_TOKEN_TTL, kid);
    events := MintedThenRevoked(key, kid, app);
    var w, i := Run(events).worker, Run(events).isolates[0];
    RunExtends(events, Wait(269));
    events := events + [Wait(269)];
    assert Run(events) == System(w.(now := 269), map[0 := i], {Use(0, token, FreshlyMinted)});
    RunExtends(events, UseBearer(0, app, PxKey(key)));
    events := events + [UseBearer(0, app, PxKey(key))];
    cached := Use(269, token, KeyCache);
    assert Run(events) == System(w.(now := 269), map[0 := i], {Use(0, token, FreshlyMinted), cached});
    RunExtends(events, Wait(30));
    events := events + [Wait(30)];
    RunExtends(events, UseBearer(0, app, Jwt(token)));
    events := events + [UseBearer(0, app, Jwt(token))];
    presented := Use(299, token, Presented);
  }

  lemma MintedThenRevoked(key: Id, kid: Kid, app: string) returns (events: seq<Event>)
    ensures var token := Token(OfKey(key, None), app, 0, DEFAULT_TOKEN_TTL, kid);
            Run(events) == System(
              Worker(0, map[], map[key := Credential(None, None, Some(0))], map[], [kid], map[], {token}),
              map[0 := Isolate(Some(JwksCache({kid}, JWKS_TTL)), map[key := CachedToken(token, DEFAULT_TOKEN_TTL)], 1)],
              {Use(0, token, FreshlyMinted)})
  {
    RunExtends([], SetKeys([kid]));
    events := [SetKeys([kid])];
    assert [] + events == events;
    assert Run(events) == System(Worker(0, map[], map[], map[], [kid], map[], {}), map[], {});
    RunExtends(events, AddCredential(key, None, None));
    events := events + [AddCredential(key, None, None)];
    assert Run(events) == System(Worker(0, map[], map[key := Credential(None, None, None)], map[], [kid], map[], {}), map[], {});
    assert PublishedKids(Run(events).worker) == {kid};
    RunExtends(events, UseBearer(0, app, PxKey(key)));
    events := events + [UseBearer(0, app, PxKey(key))];
    RunExtends(events, RevokeCredential(key));
    events := events + [RevokeCredential(key)];
  }

  /** A token under a kid retired just after the key set was fetched is accepted to the last second. */
  lemma RetirementBoundIsReached(kid: Kid, next: Kid, app: string) returns (events: seq<Event>, u: Use)
    requires kid != next
    ensures u in Run(events).uses && u.token.kid == kid && kid !in Run(events).worker.keys
    ensures kid in Run(events).worker.retiredAt && u.at == Run(events).worker.retiredAt[kid] + JWKS_TTL - 1
  {
    var token := Token(Passthrough, app, 0, MAX_PASSTHROUGH_TTL, kid);
    RunExtends([], SetKeys([kid]));
    events := [SetKeys([kid])];
    assert [] + events == events;
    assert Run(events) == System(Worker(0, map[], map[], map[], [kid], map[], {}), map[], {});
    RunExtends(events, IssueJwt(app, Some(MAX_PASSTHROUGH_TTL)));
    events := events + [IssueJwt(app, Some(MAX_PASSTHROUGH_TTL))];
    assert Run(events) == System(Worker(0, map[], map[], map[], [kid], map[], {token}), map[], {});
    assert PublishedKids(Run(events).worker) == {kid};
    RunExtends(events, UseBearer(0, app, Jwt(token)));
    events := events + [UseBearer(0, app, Jwt(token))];
    var i := Isolate(Some(JwksCache({kid}, JWKS_TTL)), map[], 1);
    assert Run(events) == System(Worker(0, map[], map[], map[], [kid], map[], {token}), map[0 := i], {Use(0, token, Presented)});
    RunExtends(events, SetKeys([next]));
    events := events + [SetKeys([next])];
    var w := Run(events).worker;
    assert w == Worker(0, map[], map[], map[], [next], map[kid := 0], {token});
    RunExtends(events, Wait(JWKS_TTL - 1));
    events := events + [Wait(JWKS_TTL - 1)];
    RunExtends(events, UseBearer(0, app, Jwt(token)));
    events := events + [UseBearer(0, app, Jwt(token))];
    u := Use(JWKS_TTL - 1, token, Presented);
  }
}
