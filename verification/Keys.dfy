/**
 * What keys, callers and tokens carry, read off the stored rows: each token ever signed is accounted for,
 * an issued key does what was asked for it and no more, and a dead key does nothing.
 */
module Keys {
  import opened Common
  import opened Permissions
  import opened Resolve
  import opened Delegation
  import opened TokenTimes
  import opened Issue
  import opened Amplification

  // ── Downscope ──────────────────────────────────────────────────────────────

  ghost predicate SamePermissions(a: seq<Entry>, b: seq<Entry>) {
    Contained(a, b) && Contained(b, a)
  }

  /** The grant is for the action, and global or on the scope. */
  predicate GrantReaches(g: KeyGrant, action: string, scope: Option<Scope>) {
    MatchAction(g.action, action) && (g.scope.None? || g.scope == scope)
  }

  /**
   * What a bound key may do: all its principal may if it has no inline grants, else exactly what those of
   * its inline grants reach that the principal holds in full.
   */
  ghost predicate IsDownscoped(permissions: seq<Entry>, live: seq<Entry>, inlineGrants: seq<KeyGrant>) {
    if inlineGrants == [] then SamePermissions(permissions, live)
    else
      forall action, scope :: Permits(permissions, action, scope) <==>
        exists g :: g in inlineGrants && Permits(live, g.action, g.scope) && GrantReaches(g, action, scope)
  }

  lemma AsEntriesMembers(grants: seq<KeyGrant>, e: Entry)
    ensures e in AsEntries(grants) <==> e.source == FromGrant && KeyGrant(e.action, e.scope) in grants
  {
    if e.source == FromGrant && KeyGrant(e.action, e.scope) in grants {
      var i :| 0 <= i < |grants| && grants[i] == KeyGrant(e.action, e.scope);
      assert AsEntries(grants)[i] == e;
    }
  }

  lemma EffectiveIsDownscoped(live: seq<Entry>, inlineGrants: seq<KeyGrant>)
    ensures IsDownscoped(Effective(live, AsEntries(inlineGrants)), live, inlineGrants)
  {
    if inlineGrants != [] {
      var entries := AsEntries(inlineGrants);
      forall action, scope
        ensures Permits(Effective(live, entries), action, scope) <==>
                  exists g :: g in inlineGrants && Permits(live, g.action, g.scope) && GrantReaches(g, action, scope)
      {
        EffectivePermits(live, entries, action, scope);
        if g :| g in inlineGrants && Permits(live, g.action, g.scope) && GrantReaches(g, action, scope) {
          AsEntriesMembers(inlineGrants, GrantToEntry(g));
          assert Covers(GrantToEntry(g), action, scope);
        }
        if h :| h in entries && Permits(live, h.action, h.scope) && Covers(h, action, scope) {
          AsEntriesMembers(inlineGrants, h);
          assert GrantReaches(KeyGrant(h.action, h.scope), action, scope);
        }
      }
    }
  }

  /** So it stays within the principal and within nonempty inline grants, and keeps each grant that is held. */
  lemma DownscopedStaysWithin(permissions: seq<Entry>, live: seq<Entry>, inlineGrants: seq<KeyGrant>)
    requires IsDownscoped(permissions, live, inlineGrants)
    ensures Contained(permissions, live)
    ensures inlineGrants != [] ==> Contained(permissions, AsEntries(inlineGrants))
    ensures forall g :: g in inlineGrants && Covered(live, g) ==> Covered(permissions, g)
  {
    if inlineGrants != [] {
      forall action, scope | Permits(permissions, action, scope)
        ensures Permits(live, action, scope) && Permits(AsEntries(inlineGrants), action, scope)
      {
        var g :| g in inlineGrants && Permits(live, g.action, g.scope) && GrantReaches(g, action, scope);
        CoveredEntryAddsNothing(live, GrantToEntry(g), action, scope);
        AsEntriesMembers(inlineGrants, GrantToEntry(g));
        assert Covers(GrantToEntry(g), action, scope);
      }
    }
    forall g | g in inlineGrants && Covered(live, g) ensures Covered(permissions, g) {
      MatchReflexive(g.action);
      assert GrantReaches(g, g.action, g.scope);
    }
  }

  // ── Presenting a key ───────────────────────────────────────────────────────

  ghost predicate IsCurrentKey(s: State, cid: Id) {
    && cid in s.credentials && !s.credentials[cid].revoked
    && (s.credentials[cid].expiresAt.Some? ==> s.now < s.credentials[cid].expiresAt.value)
  }

  ghost predicate IsEnabled(s: State, p: Id) {
    p in s.principals && !s.principals[p].disabled
  }

  /** The key may be used now: nobody has taken it away, nor its principal if it has one. */
  ghost predicate MayPresent(s: State, app: string, cid: Id, reading: seq<Id>) {
    && IsCurrentKey(s, cid)
    && (s.credentials[cid].principal.Some? ==>
          IsEnabled(s, s.credentials[cid].principal.value) && IsReading(s, s.credentials[cid].principal.value, app, reading))
  }

  /** The token a key yields: for this app, from now, no longer than 300 s or the key, and only the key's authority. */
  ghost predicate IsKeyToken(s: State, app: string, cid: Id, reading: seq<Id>, t: Token)
    requires MayPresent(s, app, cid, reading)
  {
    var cred := s.credentials[cid];
    && t.app == app && t.issuedAt == s.now && s.now < t.expiresAt <= s.now + 300
    && (cred.expiresAt.Some? ==> t.expiresAt <= cred.expiresAt.value)
    && (t.expiresAt == s.now + 300 || Some(t.expiresAt) == cred.expiresAt)
    && match cred.principal
       case None =>
         t.subject == cid && t.origin == FromShareLink(cred.issuedBy) && t.permissions == AsEntries(cred.grants)
       case Some(p) =>
         t.subject == p && t.origin == ForPrincipal
         && IsDownscoped(t.permissions, LivePermissions(s, p, app, reading), cred.grants)
  }

  lemma TokenFromKeyIff(s: State, app: string, cid: Id, reading: seq<Id>)
    ensures TokenFromKey(s, app, cid, reading).Some? <==> MayPresent(s, app, cid, reading)
    ensures TokenFromKey(s, app, cid, reading).Some? ==>
              IsKeyToken(s, app, cid, reading, TokenFromKey(s, app, cid, reading).value)
  {
    if MayPresent(s, app, cid, reading) {
      var cred := s.credentials[cid];
      if cred.principal.Some? {
        EffectiveIsDownscoped(LivePermissions(s, cred.principal.value, app, reading), cred.grants);
      }
    }
  }

  /** Who a caller is and what it holds, by each of the three ways to present oneself. */
  lemma ResolveCallerIff(s: State, app: string, caller: Caller)
    ensures var issuer := ResolveCaller(s, app, caller);
      match caller
      case AsOperator(id) =>
        (issuer.Some? <==> id in s.config.operators)
        && (issuer.Some? ==> issuer.value.id == id && forall action, scope :: Permits(issuer.value.permissions, action, scope))
      case WithKey(cid, reading) =>
        (issuer.Some? <==> MayPresent(s, app, cid, reading) && s.credentials[cid].principal.Some?)
        && (issuer.Some? ==>
              Some(issuer.value.id) == s.credentials[cid].principal
              && IsDownscoped(issuer.value.permissions, LivePermissions(s, issuer.value.id, app, reading), s.credentials[cid].grants))
      case WithToken(t) =>
        (issuer.Some? <==> t in s.tokens && t.origin == ForPrincipal && t.app == app && s.now < t.expiresAt)
        && (issuer.Some? ==> issuer.value.id == t.subject && issuer.value.permissions == t.permissions)
  {
    match caller
    case AsOperator(id) =>
      var star := Entry("*", None, FromBootstrap);
      assert forall action, scope :: Covers(star, action, scope);
      assert star in [star];
    case WithKey(cid, reading) =>
      if MayPresent(s, app, cid, reading) && s.credentials[cid].principal.Some? {
        EffectiveIsDownscoped(LivePermissions(s, s.credentials[cid].principal.value, app, reading), s.credentials[cid].grants);
      }
    case WithToken(t) =>
  }

  // ── Every token is accounted for ───────────────────────────────────────────

  /** Request `r`, met in state `s`, is one that signs `t`. */
  ghost predicate Signs(s: State, r: Request, t: Token) {
    match r
    case MintToken(app, pid, reading) =>
      && IsEnabled(s, pid) && s.principals[pid].isUser && IsReading(s, pid, app, reading)
      && t == Token(app, pid, t.permissions, s.now, s.now + 300, ForPrincipal)
      && SamePermissions(t.permissions, LivePermissions(s, pid, app, reading))
    case MintFromKey(app, cid, reading) =>
      MayPresent(s, app, cid, reading) && IsKeyToken(s, app, cid, reading, t)
    case IssueJwt(app, issuer, subject, grants, ttl) =>
      && Accepted(app, issuer) in s.accepted && grants != [] && Contained(AsEntries(grants), issuer.permissions)
      && t == Token(app, subject, AsEntries(grants), s.now, t.expiresAt, PassedThrough(issuer.id))
      && s.now < t.expiresAt <= s.now + 86400
      && IsNearest(t.expiresAt - s.now, ttl)
    case _ => false
  }

  lemma NewTokenWasSigned(s: State, r: Request, t: Token)
    requires t in Step(s, r).tokens && t !in s.tokens
    ensures Signs(s, r, t)
  {
    match r
    case MintFromKey(app, cid, reading) => TokenFromKeyIff(s, app, cid, reading);
    case IssueJwt(app, issuer, subject, grants, ttl) => DelegationIsExact(issuer.permissions, grants);
    case _ =>
  }

  /** Each token in a run has a request of that run that signed it, from the rows as they then were. */
  lemma {:induction false} EveryTokenIsAccountedFor(c: Config, rs: seq<Request>, t: Token)
    requires t in Run(c, rs).tokens
    ensures exists k :: 0 <= k < |rs| && Signs(Run(c, rs[..k]), rs[k], t)
  {
    var init, n := rs[..|rs| - 1], |rs| - 1;
    if t in Run(c, init).tokens {
      EveryTokenIsAccountedFor(c, init, t);
      var k :| 0 <= k < |init| && Signs(Run(c, init[..k]), init[k], t);
      assert init[..k] == rs[..k] && init[k] == rs[k];
    } else {
      NewTokenWasSigned(Run(c, init), rs[n], t);
      assert rs[..n] == init;
    }
  }

  /** And no such request is refused: whoever may mint gets a token. */
  lemma MintsAreNotRefused(s: State, r: Request)
    requires match r
             case MintToken(app, pid, reading) =>
               IsEnabled(s, pid) && s.principals[pid].isUser && IsReading(s, pid, app, reading)
             case MintFromKey(app, cid, reading) => MayPresent(s, app, cid, reading)
             case IssueJwt(app, issuer, _, grants, _) =>
               Accepted(app, issuer) in s.accepted && grants != [] && Contained(AsEntries(grants), issuer.permissions)
             case _ => false
    ensures exists t :: t in Step(s, r).tokens && Signs(s, r, t)
  {
    match r
    case MintToken(app, pid, reading) =>
      var t := Token(app, pid, LivePermissions(s, pid, app, reading), s.now, s.now + 300, ForPrincipal);
      assert t in Step(s, r).tokens && Signs(s, r, t);
    case MintFromKey(app, cid, reading) =>
      TokenFromKeyIff(s, app, cid, reading);
      var t := TokenFromKey(s, app, cid, reading).value;
      assert t in Step(s, r).tokens && Signs(s, r, t);
    case IssueJwt(app, issuer, subject, grants, ttl) =>
      DelegationIsExact(issuer.permissions, grants);
      var t := Token(app, subject, AsEntries(grants), s.now, s.now + PassthroughTtl(ttl), PassedThrough(issuer.id));
      assert t in Step(s, r).tokens && Signs(s, r, t);
  }

  // ── A key does what was asked for it ───────────────────────────────────────

  /** `q` takes away neither the key nor its principal. */
  predicate LeavesKeyAlone(q: Request, cid: Id, holder: Option<Id>) {
    match q
    case Revoke(other) => other != cid
    case RevokeKey(_, _, other) => other != cid
    case DeletePrincipal(p) => Some(p) != holder
    case _ => true
  }

  ghost predicate RowIs(s: State, cid: Id, cred: Credential) {
    cid in s.credentials && s.credentials[cid] == cred
  }

  lemma KeyRowStays(s: State, q: Request, cid: Id, cred: Credential)
    requires RowIs(s, cid, cred) && LeavesKeyAlone(q, cid, cred.principal)
    ensures RowIs(Step(s, q), cid, cred)
  {
  }

  lemma {:induction false} KeyRowIsKept(c: Config, rs: seq<Request>, later: seq<Request>, cid: Id, cred: Credential)
    requires RowIs(Run(c, rs), cid, cred) && forall q :: q in later ==> LeavesKeyAlone(q, cid, cred.principal)
    ensures RowIs(Run(c, rs + later), cid, cred)
  {
    if later == [] {
      assert rs + later == rs;
    } else {
      var init, last := later[..|later| - 1], later[|later| - 1];
      KeyRowIsKept(c, rs, init, cid, cred);
      KeyRowStays(Run(c, rs + init), last, cid, cred);
      LastStep(c, rs, later);
    }
  }

  /**
   * Until it is revoked or expires, or its principal is disabled or deleted, every mint from an issued key
   * succeeds: a standalone key permits exactly the requested grants, in every app, and a self-bound one its
   * principal's permissions of the day cut down to them.
   */
  lemma IssuedKeyCarriesItsGrants(
      c: Config, rs: seq<Request>, r: Request, later: seq<Request>, app: string, reading: seq<Id>)
    requires r.IssueCredential? && Step(Run(c, rs), r) != Run(c, rs)
    requires forall q :: q in later ==> LeavesKeyAlone(q, r.cid, r.bindTo)
    requires r.expiresAt.Some? ==> Run(c, rs + [r] + later).now < r.expiresAt.value
    requires r.bindTo.Some? ==>
               IsEnabled(Run(c, rs + [r] + later), r.bindTo.value)
               && IsReading(Run(c, rs + [r] + later), r.bindTo.value, app, reading)
    ensures var s := Run(c, rs + [r] + later);
            var token := TokenFromKey(s, app, r.cid, reading);
            && token.Some?
            && match r.bindTo
               case None => SamePermissions(token.value.permissions, AsEntries(r.grants))
               case Some(p) => IsDownscoped(token.value.permissions, LivePermissions(s, p, app, reading), r.grants)
  {
    RunExtends(c, rs, r);
    KeyRowIsKept(c, rs + [r], later, r.cid, Credential(r.bindTo, r.issuer.id, r.grants, r.expiresAt, false));
    TokenFromKeyIff(Run(c, rs + [r] + later), app, r.cid, reading);
  }

  // ── A dead key does nothing ────────────────────────────────────────────────

  predicate IsDeadKey(s: State, cid: Id) {
    cid !in s.credentials || s.credentials[cid].revoked
  }

  predicate MakesKey(q: Request, cid: Id) {
    match q
    case ProvisionKey(other, _, _, _) => other == cid
    case IssueService(_, _, _, _, other, _, _, _, _) => other == cid
    case IssueCredential(_, _, other, _, _, _) => other == cid
    case _ => false
  }

  lemma DeadKeyStaysDead(s: State, q: Request, cid: Id)
    requires IsDeadKey(s, cid) && !MakesKey(q, cid)
    ensures IsDeadKey(Step(s, q), cid)
  {
  }

  lemma {:induction false} DeadKeyIsKeptDead(c: Config, rs: seq<Request>, later: seq<Request>, cid: Id)
    requires IsDeadKey(Run(c, rs), cid) && forall q :: q in later ==> !MakesKey(q, cid)
    ensures IsDeadKey(Run(c, rs + later), cid)
  {
    if later == [] {
      assert rs + later == rs;
    } else {
      var init, last := later[..|later| - 1], later[|later| - 1];
      DeadKeyIsKeptDead(c, rs, init, cid);
      DeadKeyStaysDead(Run(c, rs + init), last, cid);
      LastStep(c, rs, later);
    }
  }

  /** The request takes the key away: by its issuer, by whoever could issue it again, or by an administrator. */
  ghost predicate Revokes(s: State, r: Request, cid: Id) {
    match r
    case Revoke(other) => other == cid
    case RevokeKey(app, revoker, other) =>
      && other == cid && Accepted(app, revoker) in s.accepted && cid in s.credentials
      && (s.credentials[cid].issuedBy == revoker.id
          || (s.credentials[cid].principal.None? && Contained(AsEntries(s.credentials[cid].grants), revoker.permissions)))
    case DeletePrincipal(p) => cid in s.credentials && s.credentials[cid].principal == Some(p)
    case _ => false
  }

  /** A key lives through a request exactly if the request does not take it away. */
  lemma KeyDiesIff(s: State, r: Request, cid: Id)
    requires cid in s.credentials && !s.credentials[cid].revoked
    ensures IsDeadKey(Step(s, r), cid) <==> Revokes(s, r, cid)
    ensures !Revokes(s, r, cid) ==> Step(s, r).credentials[cid] == s.credentials[cid]
  {
    if r.RevokeKey? {
      DelegationIsExact(r.issuer.permissions, s.credentials[cid].grants);
    }
  }

  /** From then on it mints nothing and its bearer is nobody. */
  lemma RevokedKeyIsDead(
      c: Config, rs: seq<Request>, r: Request, later: seq<Request>, cid: Id, app: string, reading: seq<Id>)
    requires cid in Run(c, rs).credentials && Revokes(Run(c, rs), r, cid)
    requires forall q :: q in later ==> !MakesKey(q, cid)
    ensures TokenFromKey(Run(c, rs + [r] + later), app, cid, reading).None?
    ensures ResolveCaller(Run(c, rs + [r] + later), app, WithKey(cid, reading)).None?
  {
    var s := Run(c, rs);
    if s.credentials[cid].revoked {
      DeadKeyStaysDead(s, r, cid);
    } else {
      KeyDiesIff(s, r, cid);
    }
    RunExtends(c, rs, r);
    DeadKeyIsKeptDead(c, rs + [r], later, cid);
  }

  /** A grant lives unchanged through every request but its own deletion and its principal's. */
  lemma GrantEndsIff(s: State, r: Request, g: Id)
    requires g in s.grants
    ensures g !in Step(s, r).grants <==> r == DeleteGrant(g) || r == DeletePrincipal(s.grants[g].principal)
    ensures g in Step(s, r).grants ==> Step(s, r).grants[g] == s.grants[g]
  {
  }

  /** What an administrator grants confers at once, and a role set anew is what its grants then confer. */
  lemma GrantConfersAtOnce(
      s: State, gid: Id, to: Id, row: GrantRow, expiresAt: Option<int>, app: string, action: string, scope: Option<Scope>)
    requires gid !in s.grants && to in s.principals
    requires (expiresAt.Some? ==> s.now < expiresAt.value) && (row.app.Some? ==> row.app.value == app)
    requires RowConfers(row, if app in s.roles then s.roles[app] else map[], action, scope)
    ensures RootHolds(Step(s, CreateGrant(gid, to, row, expiresAt)), to, app, action, scope)
  {
    var t := Step(s, CreateGrant(gid, to, row, expiresAt));
    assert HoldsNow(t, t.grants[gid], to, app);
  }

  lemma RolesConferAtOnce(s: State, g: Id, app: string, roles: AppRoles, action: string, scope: Option<Scope>)
    requires g in s.grants && s.grants[g].byAdmin && HoldsNow(s, s.grants[g], s.grants[g].principal, app)
    requires RowConfers(s.grants[g].row, roles, action, scope)
    ensures RootHolds(Step(s, PutRoles(app, roles)), s.grants[g].principal, app, action, scope)
  {
    var t := Step(s, PutRoles(app, roles));
    assert HoldsNow(t, t.grants[g], t.grants[g].principal, app);
  }

  // ── A disabled principal is locked out ─────────────────────────────────────

  predicate IsLockedOut(s: State, p: Id) {
    p !in s.principals || s.principals[p].disabled
  }

  predicate LetsIn(q: Request, p: Id) {
    match q
    case CreatePrincipal(pid, _) => pid == p
    case IssueService(_, _, pid, _, _, _, _, _, _) => pid == p
    case SetDisabled(pid, disabled) => pid == p && !disabled
    case _ => false
  }

  lemma LockedOutStaysOut(s: State, q: Request, p: Id)
    requires IsLockedOut(s, p) && !LetsIn(q, p)
    ensures IsLockedOut(Step(s, q), p)
  {
  }

  lemma {:induction false} LockedOutIsKeptOut(c: Config, rs: seq<Request>, later: seq<Request>, p: Id)
    requires IsLockedOut(Run(c, rs), p) && forall q :: q in later ==> !LetsIn(q, p)
    ensures IsLockedOut(Run(c, rs + later), p)
  {
    if later == [] {
      assert rs + later == rs;
    } else {
      var init, last := later[..|later| - 1], later[|later| - 1];
      LockedOutIsKeptOut(c, rs, init, p);
      LockedOutStaysOut(Run(c, rs + init), last, p);
      LastStep(c, rs, later);
    }
  }

  /** Once disabled or deleted, and until somebody lets it in again, a principal is minted nothing and no key is its. */
  lemma DisabledPrincipalIsLockedOut(c: Config, rs: seq<Request>, r: Request, later: seq<Request>, p: Id)
    requires r == SetDisabled(p, true) || r == DeletePrincipal(p)
    requires forall q :: q in later ==> !LetsIn(q, p)
    ensures var s := Run(c, rs + [r] + later);
            forall app, reading ::
              && Step(s, MintToken(app, p, reading)) == s
              && forall cid :: cid in s.credentials && s.credentials[cid].principal == Some(p) ==>
                   TokenFromKey(s, app, cid, reading).None? && ResolveCaller(s, app, WithKey(cid, reading)).None?
  {
    RunExtends(c, rs, r);
    LockedOutIsKeptOut(c, rs + [r], later, p);
  }
}
