/**
 * Caller resolution, `issueKey`, `issueJwt` and `revokeKey` as they read and write the database one row
 * at a time, each shown to carry out the request of the state machine it stands for.
 */
module IssueStore {
  import opened Common
  import opened Permissions
  import opened Resolve
  import opened Delegation
  import opened TokenTimes
  import opened Issue
  import Json

  class Db {
    const config: Config
    var now: int
    var principals: map<Id, Principal>
    var grants: map<Id, Grant>
    var roles: map<string, AppRoles>
    var credentials: map<Id, Credential>
    /** Stands for the signing keys: a token verifies when it is in here. */
    var signed: set<Token>
    /** Bookkeeping only: who created which service, and every caller resolved so far. */
    ghost var lineage: map<Id, set<Id>>
    ghost var accepted: set<Accepted>

    ghost function Snapshot(): State reads this {
      State(config, now, principals, lineage, grants, roles, credentials, signed, accepted)
    }

    constructor (config: Config)
      ensures Snapshot() == Run(config, [])
    {
      this.config := config;
      now, principals, grants, roles, credentials := 0, map[], map[], map[], map[];
      lineage, signed, accepted := map[], {}, {};
    }

    method CreateService(id: Id, ghost creator: Id)
      requires id !in principals
      modifies this`principals, this`lineage
      ensures Snapshot() == old(Snapshot()).(
                principals := old(principals)[id := Principal(false, None, false)],
                lineage := old(lineage)[id := LineageOf(old(Snapshot()), creator)])
    {
      principals := principals[id := Principal(false, None, false)];
      lineage := lineage[id := LineageOf(old(Snapshot()), creator)];
    }

    method CreateGrant(id: Id, principal: Id, row: GrantRow, expiresAt: Option<int>)
      requires id !in grants
      modifies this`grants
      ensures Snapshot() == old(Snapshot()).(grants := old(grants)[id := Grant(principal, row, expiresAt, false)])
    {
      grants := grants[id := Grant(principal, row, expiresAt, false)];
    }

    method CreateCredential(
        id: Id, principal: Option<Id>, issuedBy: Id, inlineGrants: seq<KeyGrant>, expiresAt: Option<int>)
      requires id !in credentials
      modifies this`credentials
      ensures Snapshot() == old(Snapshot()).(
                credentials := old(credentials)[id := Credential(principal, issuedBy, inlineGrants, expiresAt, false)])
    {
      credentials := credentials[id := Credential(principal, issuedBy, inlineGrants, expiresAt, false)];
    }

    /** Idempotent: an already revoked or unknown id changes nothing. */
    method RevokeCredential(id: Id) returns (revoked: bool)
      modifies this`credentials
      ensures Snapshot() == MarkRevoked(old(Snapshot()), id)
      ensures revoked <==> id in old(credentials) && !old(credentials)[id].revoked
      ensures id in old(credentials) ==> credentials == old(credentials)[id := old(credentials)[id].(revoked := true)]
      ensures id !in old(credentials) ==> credentials == old(credentials)
    {
      if id in credentials && !credentials[id].revoked {
        credentials := credentials[id := credentials[id].(revoked := true)];
        return true;
      }
      assert id in credentials ==> credentials[id := credentials[id].(revoked := true)] == credentials;
      return false;
    }
  }

  // ── Who is asking ──────────────────────────────────────────────────────────

  /** What came with a request; an operator's key is told by its hash before the database is read. */
  datatype Presented = Nothing | OperatorKey(id: Id) | PxKey(key: Id) | AccessToken(token: Token)

  method GetActiveGrantsForApp(db: Db, p: Id, app: string) returns (reading: seq<Id>)
    ensures IsReading(db.Snapshot(), p, app, reading)
    ensures forall g :: g in reading <==>
              (g in db.grants && db.grants[g].principal == p
               && (db.grants[g].row.app == None || db.grants[g].row.app == Some(app))
               && (db.grants[g].expiresAt.Some? ==> db.now < db.grants[g].expiresAt.value))
  {
    reading := [];
    var rest := db.grants.Keys;
    while rest != {}
      invariant rest <= db.grants.Keys
      invariant forall g :: g in reading ==> g in db.grants && Active(db.Snapshot(), db.grants[g], p, app)
      invariant forall g :: g in db.grants && Active(db.Snapshot(), db.grants[g], p, app) ==> g in reading || g in rest
      decreases rest
    {
      var g :| g in rest;
      var grant := db.grants[g];
      if grant.principal == p && (grant.row.app == None || grant.row.app == Some(app))
         && (grant.expiresAt == None || grant.expiresAt.value > db.now)
      {
        reading := reading + [g];
      }
      rest := rest - {g};
    }
  }

  /** `resolveUserPermissions` or `resolveServicePermissions`: bootstrap is for users only. */
  method ResolvePermissions(db: Db, p: Id, app: string) returns (permissions: seq<Entry>, ghost reading: seq<Id>)
    requires p in db.principals
    ensures IsReading(db.Snapshot(), p, app, reading)
    ensures permissions == LivePermissions(db.Snapshot(), p, app, reading)
  {
    var ids := GetActiveGrantsForApp(db, p, app);
    var grants, principal := db.grants, db.principals[p];
    var rows := seq(|ids|, i requires 0 <= i < |ids| && ids[i] in grants => grants[ids[i]].row);
    var isBootstrapAdmin := principal.isUser && principal.email.Some? && principal.email.value in db.config.bootstrapAdmins;
    assert rows == Rows(db.Snapshot(), ids);
    permissions := ComputePermissions(rows, isBootstrapAdmin, if app in db.roles then db.roles[app] else map[]);
    reading := ids;
  }

  /** A bound key's caller; anonymous keys, which may not issue or revoke, give none. */
  method ResolveKey(db: Db, key: Id, app: string) returns (issuer: Option<Issuer>, ghost reading: seq<Id>)
    ensures issuer == ResolveCaller(db.Snapshot(), app, WithKey(key, reading))
  {
    reading := [];
    if key !in db.credentials || db.credentials[key].revoked {
      return None, [];
    }
    var cred := db.credentials[key];
    if cred.expiresAt.Some? && cred.expiresAt.value <= db.now {
      return None, [];
    }
    if cred.principal.None? || cred.principal.value !in db.principals || db.principals[cred.principal.value].disabled {
      return None, [];
    }
    var p := cred.principal.value;
    var resolved;
    resolved, reading := ResolvePermissions(db, p, app);
    issuer := Some(Issuer(p, Effective(resolved, AsEntries(cred.grants))));
  }

  method ResolvePresented(db: Db, presented: Presented, app: string) returns (issuer: Option<Issuer>)
    modifies db`accepted
    ensures presented.Nothing? ==> issuer.None? && db.Snapshot() == old(db.Snapshot())
    ensures !presented.Nothing? ==> exists caller ::
              PresentedAs(presented, caller)
              && issuer == ResolveCaller(old(db.Snapshot()), app, caller)
              && db.Snapshot() == Step(old(db.Snapshot()), Accept(app, caller))
    ensures issuer.Some? ==> Accepted(app, issuer.value) in db.accepted
  {
    ghost var caller: Caller;
    match presented {
      case Nothing => return None;
      case OperatorKey(id) =>
        caller := AsOperator(id);
        issuer := if id in db.config.operators then Some(Issuer(id, [Entry("*", None, FromBootstrap)])) else None;
      case PxKey(key) =>
        ghost var reading;
        issuer, reading := ResolveKey(db, key, app);
        caller := WithKey(key, reading);
      case AccessToken(t) =>
        caller := WithToken(t);
        issuer := if t in db.signed && t.origin.ForPrincipal? && t.app == app && db.now < t.expiresAt
                  then Some(Issuer(t.subject, t.permissions)) else None;
    }
    assert PresentedAs(presented, caller) && issuer == ResolveCaller(db.Snapshot(), app, caller);
    if issuer.Some? {
      db.accepted := db.accepted + {Accepted(app, issuer.value)};
    }
  }

  ghost predicate PresentedAs(presented: Presented, caller: Caller) {
    match presented
    case Nothing => false
    case OperatorKey(id) => caller == AsOperator(id)
    case PxKey(key) => caller.WithKey? && caller.key == key
    case AccessToken(t) => caller == WithToken(t)
  }

  // ── Issuing and revoking ───────────────────────────────────────────────────

  datatype ServiceInput = ServiceInput(patterns: seq<string>, scope: Option<Scope>)

  datatype IssueKeyInput = IssueKeyInput(
    service: Option<ServiceInput>, principalId: Option<Id>, permissions: Option<seq<KeyGrant>>, expiresAt: Option<int>)

  /** The ids the Worker is about to draw; no row has them yet. */
  datatype FreshIds = FreshIds(pid: Id, gid: Id, cid: Id)

  datatype IssueResult = Issued(cid: Id, pid: Option<Id>) | NotAllowed

  function InlineGrants(input: IssueKeyInput): seq<KeyGrant> {
    if input.permissions.Some? then input.permissions.value else []
  }

  /** Nothing is issued that the issuer could not do itself, nothing empty, and no key for another principal. */
  ghost predicate MayIssue(input: IssueKeyInput, issuer: Issuer) {
    match input.service
    case Some(svc) => svc.patterns != [] && Contained(AsEntries(ServiceGrants(svc.patterns, svc.scope)), issuer.permissions)
    case None =>
      && (input.principalId.Some? ==> input.principalId.value == issuer.id)
      && (input.principalId.None? ==> InlineGrants(input) != [])
      && Contained(AsEntries(InlineGrants(input)), issuer.permissions)
  }

  /** An inline grant of the requested patterns on the requested scope, in the issuer's app only. */
  ghost predicate IsServiceGrant(grant: Grant, pid: Id, app: string, svc: ServiceInput, expiresAt: Option<int>) {
    && grant.principal == pid && grant.expiresAt == expiresAt && !grant.byAdmin
    && grant.row.app == Some(app) && grant.row.roleKey.None?
    && (forall pattern, roles :: RowNames(grant.row, roles, pattern) <==> pattern in svc.patterns)
    && (forall scope :: RowReaches(grant.row, scope) <==> svc.scope.None? || scope == svc.scope)
  }

  lemma ServiceRowIsServiceGrant(pid: Id, app: string, svc: ServiceInput, expiresAt: Option<int>)
    ensures IsServiceGrant(Grant(pid, ServiceRow(app, svc.patterns, svc.scope), expiresAt, false), pid, app, svc, expiresAt)
  {
    var items := AsJson(svc.patterns).items;
    forall pattern ensures Json.Text(pattern) in items <==> pattern in svc.patterns {
      if pattern in svc.patterns {
        var i :| 0 <= i < |svc.patterns| && svc.patterns[i] == pattern;
        assert items[i] == Json.Text(pattern);
      }
    }
  }

  ghost function AsRequest(input: IssueKeyInput, app: string, issuer: Issuer, ids: FreshIds): Request {
    if input.service.Some? then
      IssueService(app, issuer, ids.pid, ids.gid, ids.cid,
                   input.service.value.patterns, input.service.value.scope, input.expiresAt, 3)
    else IssueCredential(app, issuer, ids.cid, input.principalId, InlineGrants(input), input.expiresAt)
  }

  method IssueKey(db: Db, input: IssueKeyInput, issuer: Issuer, app: string, ids: FreshIds)
    returns (result: IssueResult)
    requires Accepted(app, issuer) in db.accepted
    requires ids.pid !in db.principals && ids.pid !in db.lineage && ids.gid !in db.grants && ids.cid !in db.credentials
    modifies db
    ensures db.Snapshot() == Step(old(db.Snapshot()), AsRequest(input, app, issuer, ids))
    ensures result.NotAllowed? <==> db.Snapshot() == old(db.Snapshot())
    ensures result.Issued? <==> MayIssue(input, issuer)
    ensures result.Issued? && input.service.None? ==>
              && result == Issued(ids.cid, input.principalId)
              && db.credentials == old(db.credentials)[ids.cid :=
                   Credential(input.principalId, issuer.id, InlineGrants(input), input.expiresAt, false)]
              && db.principals == old(db.principals) && db.grants == old(db.grants)
    ensures result.Issued? && input.service.Some? ==>
              && result == Issued(ids.cid, Some(ids.pid))
              && db.credentials == old(db.credentials)[ids.cid :=
                   Credential(Some(ids.pid), issuer.id, [], input.expiresAt, false)]
              && db.principals == old(db.principals)[ids.pid := Principal(false, None, false)]
              && db.grants.Keys == old(db.grants).Keys + {ids.gid}
              && (forall g :: g in old(db.grants) ==> db.grants[g] == old(db.grants)[g])
              && IsServiceGrant(db.grants[ids.gid], ids.pid, app, input.service.value, input.expiresAt)
  {
    DelegationIsExact(issuer.permissions, InlineGrants(input));
    if input.service.Some? {
      DelegationIsExact(issuer.permissions, ServiceGrants(input.service.value.patterns, input.service.value.scope));
    }
    if input.service.Some? {
      var svc := input.service.value;
      var grants := ServiceGrants(svc.patterns, svc.scope);
      var uncovered := FindUncoveredGrant(issuer.permissions, grants);
      if |grants| == 0 || uncovered.Some? {
        return NotAllowed;
      }
      ServiceRowIsServiceGrant(ids.pid, app, svc, input.expiresAt);
      db.CreateService(ids.pid, issuer.id);
      db.CreateGrant(ids.gid, ids.pid, ServiceRow(app, svc.patterns, svc.scope), input.expiresAt);
      db.CreateCredential(ids.cid, Some(ids.pid), issuer.id, [], input.expiresAt);
      return Issued(ids.cid, Some(ids.pid));
    }
    if input.principalId.Some? && input.principalId.value != issuer.id {
      return NotAllowed;
    }
    var grants := InlineGrants(input);
    if input.principalId.None? && |grants| == 0 {
      return NotAllowed;
    }
    var uncovered := FindUncoveredGrant(issuer.permissions, grants);
    if uncovered.Some? {
      return NotAllowed;
    }
    db.CreateCredential(ids.cid, input.principalId, issuer.id, grants, input.expiresAt);
    return Issued(ids.cid, input.principalId);
  }

  method IssuePassthroughJwt(
      db: Db, app: string, subject: Id, grants: seq<KeyGrant>, ttl: Option<int>, issuer: Issuer)
    returns (token: Option<Token>)
    requires Accepted(app, issuer) in db.accepted
    modifies db`signed
    ensures db.Snapshot() == Step(old(db.Snapshot()), IssueJwt(app, issuer, subject, grants, ttl))
    ensures token.Some? <==> grants != [] && Contained(AsEntries(grants), issuer.permissions)
    ensures token.Some? ==>
              && db.signed == old(db.signed) + {token.value}
              && token.value == Token(app, subject, AsEntries(grants), db.now, token.value.expiresAt, PassedThrough(issuer.id))
              && db.now < token.value.expiresAt <= db.now + 86400
              && IsNearest(token.value.expiresAt - db.now, ttl)
    ensures token.None? ==> db.signed == old(db.signed)
  {
    DelegationIsExact(issuer.permissions, grants);
    if |grants| == 0 {
      return None;
    }
    var uncovered := FindUncoveredGrant(issuer.permissions, grants);
    if uncovered.Some? {
      return None;
    }
    var t := Token(app, subject, AsEntries(grants), db.now, db.now + PassthroughTtl(ttl), PassedThrough(issuer.id));
    db.signed := db.signed + {t};
    return Some(t);
  }

  datatype RevokeResult = NotFound | Refused | Done(revoked: bool)

  method RevokeIssuedKey(db: Db, cid: Id, revoker: Issuer, app: string) returns (result: RevokeResult)
    requires Accepted(app, revoker) in db.accepted
    modifies db`credentials
    ensures db.Snapshot() == Step(old(db.Snapshot()), RevokeKey(app, revoker, cid))
    ensures result.NotFound? <==> cid !in old(db.credentials)
    ensures result.Done? <==>
              (cid in old(db.credentials)
               && (old(db.credentials)[cid].issuedBy == revoker.id
                   || (old(db.credentials)[cid].principal.None?
                       && Contained(AsEntries(old(db.credentials)[cid].grants), revoker.permissions))))
    ensures result.Done? ==>
              && db.credentials == old(db.credentials)[cid := old(db.credentials)[cid].(revoked := true)]
              && (result.revoked <==> !old(db.credentials)[cid].revoked)
    ensures !result.Done? ==> db.credentials == old(db.credentials)
  {
    if cid !in db.credentials {
      return NotFound;
    }
    var cred := db.credentials[cid];
    DelegationIsExact(revoker.permissions, cred.grants);
    if cred.issuedBy != revoker.id {
      if cred.principal.Some? {
        return Refused;
      }
      var uncovered := FindUncoveredGrant(revoker.permissions, cred.grants);
      if uncovered.Some? {
        return Refused;
      }
    }
    var revoked := db.RevokeCredential(cid);
    return Done(revoked);
  }

  /** Anyone but the issuer may revoke exactly the share links whose whole authority it holds itself. */
  lemma OthersRevokeWhatTheyHold(revoker: Issuer, cred: Credential)
    requires cred.issuedBy != revoker.id
    ensures MayRevoke(revoker, cred) <==> cred.principal.None? && Contained(AsEntries(cred.grants), revoker.permissions)
  {
    DelegationIsExact(revoker.permissions, cred.grants);
  }
}
