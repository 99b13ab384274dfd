/**
 * The SDK's authenticator and the Worker binding it calls, as the objects they are: two caches that
 * survive between requests, and a key set fetched on demand.
 */
module SessionAuth {
  import opened Common
  import opened TokenTimes
  import opened Tokens

  /** The IAM service binding. */
  class IamBinding {
    var worker: Worker

    constructor (worker: Worker)
      ensures this.worker == worker
    {
      this.worker := worker;
    }

    method FindActiveCredential(key: Id) returns (found: Option<Credential>)
      ensures found.Some? <==> ActiveCredential(worker, key)
      ensures found.Some? ==> found.value == worker.credentials[key]
    {
      if key !in worker.credentials {
        return None;
      }
      var row := worker.credentials[key];
      if row.revokedAt.Some? || (row.expiresAt.Some? && row.expiresAt.value <= worker.now) {
        return None;
      }
      return Some(row);
    }

    method Exchange(app: string, key: Id) returns (m: Minted)
      requires worker.keys != []
      modifies this
      ensures m == MintFromKey(old(worker), app, key) && worker == Sign(old(worker), m)
      ensures IsKeyMint(old(worker), app, key, m)
    {
      KeyMintIs(worker, app, key);
      var cred := FindActiveCredential(key);
      if cred.None? {
        return NotMinted(InvalidKey);
      }
      if cred.value.principal.Some? {
        var p := cred.value.principal.value;
        if p !in worker.disabledAt {
          return NotMinted(UnknownPrincipal);
        }
        if worker.disabledAt[p].Some? {
          return NotMinted(PrincipalDisabled);
        }
      }
      var expiresAt := worker.now + DEFAULT_TOKEN_TTL;
      if cred.value.expiresAt.Some? && cred.value.expiresAt.value < expiresAt {
        expiresAt := cred.value.expiresAt.value;
      }
      var token := Token(OfKey(key, cred.value.principal), app, worker.now, expiresAt, worker.keys[0]);
      worker := worker.(signed := worker.signed + {token});
      return Minted(token);
    }

    method ExchangeSsoSession(app: string, session: Option<Id>) returns (m: Minted)
      requires worker.keys != []
      modifies this
      ensures m == MintToken(old(worker), app, session) && worker == Sign(old(worker), m)
      ensures IsSessionMint(old(worker), app, session, m)
    {
      SessionMintIs(worker, app, session);
      if session.None? {
        return NotMinted(NoSession);
      }
      var id := session.value;
      if id !in worker.sessions || worker.sessions[id].revokedAt.Some? || worker.sessions[id].expiresAt <= worker.now {
        return NotMinted(InvalidSession);
      }
      var p := worker.sessions[id].principal;
      if p !in worker.disabledAt {
        return NotMinted(UnknownPrincipal);
      }
      if worker.disabledAt[p].Some? {
        return NotMinted(PrincipalDisabled);
      }
      var token := Token(OfSession(id, p), app, worker.now, worker.now + DEFAULT_TOKEN_TTL, worker.keys[0]);
      worker := worker.(signed := worker.signed + {token});
      return Minted(token);
    }

    /** Every key is published, the signing one first. */
    method GetJwks() returns (kids: set<Kid>)
      ensures kids == PublishedKids(worker)
    {
      kids := {};
      for i := 0 to |worker.keys|
        invariant kids == set k | k in worker.keys[..i]
      {
        kids := kids + {worker.keys[i]};
      }
      assert worker.keys[..|worker.keys|] == worker.keys;
    }
  }

  class PropustkaAuth {
    const binding: IamBinding
    const appId: string
    var jwksCache: Option<JwksCache>
    var keyTokenCache: map<Id, CachedToken>
    ghost var fetches: nat

    ghost function Snapshot(): Isolate reads this {
      Isolate(jwksCache, keyTokenCache, fetches)
    }

    constructor (binding: IamBinding, appId: string)
      ensures this.binding == binding && this.appId == appId && Snapshot() == Isolate(None, map[], 0)
    {
      this.binding, this.appId := binding, appId;
      jwksCache, keyTokenCache, fetches := None, map[], 0;
    }

    method Jwks(force: bool) returns (kids: set<Kid>)
      modifies this`jwksCache, this`fetches
      ensures Snapshot() == WithJwks(old(Snapshot()), binding.worker, force)
      ensures kids == Snapshot().jwks.value.kids
    {
      var now := binding.worker.now;
      if !force && jwksCache.Some? && jwksCache.value.expiresAt > now {
        return jwksCache.value.kids;
      }
      kids := binding.GetJwks();
      fetches := fetches + 1;
      jwksCache := Some(JwksCache(kids, now + JWKS_TTL));
    }

    method CheckWith(token: Token, force: bool) returns (verdict: Verdict)
      modifies this`jwksCache, this`fetches
      ensures Snapshot() == WithJwks(old(Snapshot()), binding.worker, force)
      ensures verdict == VerifyWith(Snapshot().jwks.value.kids, binding.worker, appId, token)
    {
      var kids := Jwks(force);
      if token.kid !in kids {
        return NoKey;
      }
      if token !in binding.worker.signed || binding.worker.now >= token.expiresAt || token.audience != appId {
        return Rejected;
      }
      return Accepted;
    }

    method Check(token: Token) returns (ok: bool)
      modifies this`jwksCache, this`fetches
      ensures (Snapshot(), ok) == Verify(old(Snapshot()), binding.worker, appId, token)
    {
      var verdict := CheckWith(token, false);
      if verdict.NoKey? {
        verdict := CheckWith(token, true);
      }
      return verdict.Accepted?;
    }

    method Bearer(bearer: Bearer) returns (answer: Answer)
      requires binding.worker.keys != []
      modifies this, binding
      ensures (Snapshot(), binding.worker, answer)
           == AuthenticateBearer(old(Snapshot()), old(binding.worker), appId, bearer)
      ensures IsBearerAnswer(old(Snapshot()), old(binding.worker), appId, bearer, Snapshot(), binding.worker, answer)
    {
      BearerAnswerIs(Snapshot(), binding.worker, appId, bearer);
      if bearer.PxKey? {
        var now := binding.worker.now;
        if bearer.key in keyTokenCache && keyTokenCache[bearer.key].expiresAt - now > REFRESH_SKEW {
          var cached := keyTokenCache[bearer.key].token;
          var ok := Check(cached);
          if ok {
            return Authorized(cached, KeyCache);
          }
        }
        var minted := binding.Exchange(appId, bearer.key);
        if minted.NotMinted? {
          return Denied(minted.reason);
        }
        var ok := Check(minted.token);
        if !ok {
          return Denied(InvalidKey);
        }
        keyTokenCache := keyTokenCache[bearer.key := CachedToken(minted.token, minted.token.expiresAt)];
        return Authorized(minted.token, FreshlyMinted);
      }
      var ok := Check(bearer.token);
      return if ok then Authorized(bearer.token, Presented) else Denied(InvalidKey);
    }

    method Session(cookie: Option<Token>, session: Option<Id>) returns (answer: Answer)
      requires binding.worker.keys != []
      modifies this, binding
      ensures (Snapshot(), binding.worker, answer)
           == AuthenticateSession(old(Snapshot()), old(binding.worker), appId, cookie, session)
      ensures IsSessionAnswer(old(Snapshot()), old(binding.worker), appId, cookie, session, binding.worker, answer)
    {
      SessionAnswerIs(Snapshot(), binding.worker, appId, cookie, session);
      var now := binding.worker.now;
      if cookie.Some? {
        var ok := Check(cookie.value);
        if ok && cookie.value.expiresAt - now > REFRESH_SKEW {
          return Authorized(cookie.value, Cookie);
        }
      }
      var minted := binding.ExchangeSsoSession(appId, session);
      if minted.NotMinted? {
        return Denied(minted.reason);
      }
      var ok := Check(minted.token);
      return if ok then Authorized(minted.token, FreshlyMinted) else Denied(InvalidSession);
    }
  }
}
