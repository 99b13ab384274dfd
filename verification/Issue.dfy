/**
 * The system that grants, issues, mints and revokes, as a state machine over every request the Worker
 * serves that touches authority. A refused request leaves the state as it was.
 */
module Issue {
  import opened Common
  import opened Permissions
  import opened Resolve
  import opened Delegation
  import opened TokenTimes
  import Json

  type Id = string

  datatype Principal = Principal(isUser: bool, email: Option<string>, disabled: bool)

  /** `byAdmin` marks the grants an administrator made; the others were made by `issueKey`. */
  datatype Grant = Grant(principal: Id, row: GrantRow, expiresAt: Option<int>, byAdmin: bool)

  /** `principal == None` is an anonymous credential (a share link) with frozen inline grants. */
  datatype Credential = Credential(
    principal: Option<Id>, issuedBy: Id, grants: seq<KeyGrant>, expiresAt: Option<int>, revoked: bool)

  datatype Origin = ForPrincipal | FromShareLink(issuer: Id) | PassedThrough(issuer: Id)

  /** A signed access token: a snapshot of permissions for one app. Only `ForPrincipal` carries `ptype`. */
  datatype Token = Token(
    app: string, subject: Id, permissions: seq<Entry>, issuedAt: int, expiresAt: int, origin: Origin)

  /** Emails of bootstrap admins, and the ids of operators that hold their key outside the database. */
  datatype Config = Config(bootstrapAdmins: set<string>, operators: set<Id>)

  /** Who a request turned out to come from, and what that caller held for the app when it was resolved. */
  datatype Issuer = Issuer(id: Id, permissions: seq<Entry>)
  datatype Accepted = Accepted(app: string, issuer: Issuer)

  /**
   * `lineage` remembers, for a service a caller created, that caller and everyone in its own lineage.
   * `accepted` remembers every caller resolved so far: the request it came with acts at some later time,
   * on what was resolved then.
   */
  datatype State = State(
    config: Config,
    now: int,
    principals: map<Id, Principal>,
    lineage: map<Id, set<Id>>,
    grants: map<Id, Grant>,
    roles: map<string, AppRoles>,
    credentials: map<Id, Credential>,
    tokens: set<Token>,
    accepted: set<Accepted>)

  function LineageOf(s: State, p: Id): set<Id> {
    {p} + if p in s.lineage then s.lineage[p] else {}
  }

  // ── Resolution ─────────────────────────────────────────────────────────────

  function RolesOf(s: State, app: string): AppRoles {
    if app in s.roles then s.roles[app] else map[]
  }

  predicate IsBootstrapAdmin(s: State, p: Id) {
    p in s.principals && s.principals[p].isUser && s.principals[p].email.Some?
    && s.principals[p].email.value in s.config.bootstrapAdmins
  }

  predicate NotExpired(s: State, expiresAt: Option<int>) {
    expiresAt == None || expiresAt.value > s.now
  }

  /** A principal's unexpired grants that are cross-app or for this app. */
  predicate Active(s: State, grant: Grant, p: Id, app: string) {
    grant.principal == p && (grant.row.app == None || grant.row.app == Some(app)) && NotExpired(s, grant.expiresAt)
  }

  /** `reading` lists the active grants in whatever order the query returned them. */
  predicate IsReading(s: State, p: Id, app: string, reading: seq<Id>) {
    && (forall g :: g in reading ==> g in s.grants && Active(s, s.grants[g], p, app))
    && (forall g :: g in s.grants && Active(s, s.grants[g], p, app) ==> g in reading)
  }

  function Rows(s: State, reading: seq<Id>): seq<GrantRow>
    requires forall g :: g in reading ==> g in s.grants
  {
    seq(|reading|, i requires 0 <= i < |reading| => s.grants[reading[i]].row)
  }

  function LivePermissions(s: State, p: Id, app: string, reading: seq<Id>): seq<Entry>
    requires IsReading(s, p, app, reading)
  {
    Dedup(Union(Rows(s, reading), IsBootstrapAdmin(s, p), RolesOf(s, app)))
  }

  predicate Enabled(s: State, p: Id) {
    p in s.principals && !s.principals[p].disabled
  }

  predicate Usable(s: State, cid: Id) {
    cid in s.credentials && !s.credentials[cid].revoked && NotExpired(s, s.credentials[cid].expiresAt)
  }

  // ── Who is asking ──────────────────────────────────────────────────────────

  /** What a request presents. An operator's key is matched before the database is consulted. */
  datatype Caller = WithKey(key: Id, reading: seq<Id>) | WithToken(token: Token) | AsOperator(id: Id)

  /** `None` for a refused or anonymous caller: neither may issue or revoke. */
  function ResolveCaller(s: State, app: string, caller: Caller): Option<Issuer> {
    match caller
    case AsOperator(id) =>
      if id in s.config.operators then Some(Issuer(id, [Entry("*", None, FromBootstrap)])) else None
    case WithKey(cid, reading) =>
      if Usable(s, cid) && s.credentials[cid].principal.Some? then
        var p := s.credentials[cid].principal.value;
        if Enabled(s, p) && IsReading(s, p, app, reading) then
          Some(Issuer(p, Effective(LivePermissions(s, p, app, reading), AsEntries(s.credentials[cid].grants))))
        else None
      else None
    case WithToken(t) =>
      if t in s.tokens && t.origin.ForPrincipal? && t.app == app && s.now < t.expiresAt then
        Some(Issuer(t.subject, t.permissions))
      else None
  }

  // ── Requests ───────────────────────────────────────────────────────────────

  datatype Request =
    // administration: the only sources of authority
    | CreatePrincipal(pid: Id, principal: Principal)
    | CreateGrant(gid: Id, to: Id, row: GrantRow, expiresAt: Option<int>)
    | PutRoles(app: string, roles: AppRoles)
    | SetEmail(pid: Id, email: string)
    | ProvisionKey(cid: Id, pid: Id, admin: Id, expiresAt: Option<int>)
    // a management request begins by resolving its caller, and acts later
    | Accept(app: string, caller: Caller)
    // delegation
    | IssueService(app: string, issuer: Issuer, pid: Id, gid: Id, cid: Id,
                   patterns: seq<string>, scope: Option<Scope>, expiresAt: Option<int>, writes: nat)
    | IssueCredential(app: string, issuer: Issuer, cid: Id, bindTo: Option<Id>,
                      grants: seq<KeyGrant>, expiresAt: Option<int>)
    | IssueJwt(app: string, issuer: Issuer, subject: Id, grants: seq<KeyGrant>, ttl: Option<int>)
    // minting
    | MintToken(app: string, pid: Id, reading: seq<Id>)
    | MintFromKey(app: string, cid: Id, reading: seq<Id>)
    // taking away
    | RevokeKey(app: string, issuer: Issuer, cid: Id)
    | Revoke(cid: Id)
    | DeleteGrant(gid: Id)
    | SetDisabled(pid: Id, disabled: bool)
    | DeletePrincipal(pid: Id)
    | Wait(seconds: nat)

  function AsJson(patterns: seq<string>): Json.Value {
    Json.Array(seq(|patterns|, i requires 0 <= i < |patterns| => Json.Text(patterns[i])))
  }

  function ServiceGrants(patterns: seq<string>, scope: Option<Scope>): seq<KeyGrant> {
    seq(|patterns|, i requires 0 <= i < |patterns| => KeyGrant(patterns[i], scope))
  }

  function ServiceRow(app: string, patterns: seq<string>, scope: Option<Scope>): GrantRow {
    GrantRow(Some(app), None, Some(AsJson(patterns)),
             if scope.None? then None else Some(scope.value.dimension),
             if scope.None? then None else Some(scope.value.value))
  }

  predicate MayIssueService(issuer: Issuer, patterns: seq<string>, scope: Option<Scope>) {
    patterns != [] && AllCovered(issuer.permissions, ServiceGrants(patterns, scope))
  }

  /** The three writes of service mode, of which a failure part way keeps only the first ones. */
  function AddService(s: State, r: Request): State
    requires r.IssueService?
  {
    var s1 := s.(principals := s.principals[r.pid := Principal(false, None, false)],
                 lineage := s.lineage[r.pid := LineageOf(s, r.issuer.id)]);
    var s2 := s1.(grants := s.grants[r.gid := Grant(r.pid, ServiceRow(r.app, r.patterns, r.scope), r.expiresAt, false)]);
    var s3 := s2.(credentials := s.credentials[r.cid := Credential(Some(r.pid), r.issuer.id, [], r.expiresAt, false)]);
    if r.writes == 0 then s else if r.writes == 1 then s1 else if r.writes == 2 then s2 else s3
  }

  predicate MayIssueCredential(issuer: Issuer, bindTo: Option<Id>, grants: seq<KeyGrant>) {
    && (bindTo.Some? ==> bindTo.value == issuer.id)
    && (bindTo.None? ==> grants != [])
    && AllCovered(issuer.permissions, grants)
  }

  /** The original issuer may revoke; so may anyone who could re-issue an anonymous credential. */
  predicate MayRevoke(revoker: Issuer, cred: Credential) {
    cred.issuedBy == revoker.id || (cred.principal.None? && AllCovered(revoker.permissions, cred.grants))
  }

  function MarkRevoked(s: State, cid: Id): State {
    if cid in s.credentials then s.(credentials := s.credentials[cid := s.credentials[cid].(revoked := true)]) else s
  }

  /** What presenting a credential yields: an anonymous token of its frozen grants, or its principal's. */
  function TokenFromKey(s: State, app: string, cid: Id, reading: seq<Id>): Option<Token> {
    if !Usable(s, cid) then None
    else
      var cred := s.credentials[cid];
      var expiresAt := KeyExpiry(s.now, cred.expiresAt);
      if cred.principal.None? then
        Some(Token(app, cid, AsEntries(cred.grants), s.now, expiresAt, FromShareLink(cred.issuedBy)))
      else if Enabled(s, cred.principal.value) && IsReading(s, cred.principal.value, app, reading) then
        var live := LivePermissions(s, cred.principal.value, app, reading);
        Some(Token(app, cred.principal.value, Effective(live, AsEntries(cred.grants)), s.now, expiresAt, ForPrincipal))
      else None
  }

  function Step(s: State, r: Request): State {
    match r
    case CreatePrincipal(pid, principal) =>
      if pid in s.principals then s else s.(principals := s.principals[pid := principal])
    case CreateGrant(gid, to, row, expiresAt) =>
      if gid in s.grants || to !in s.principals then s
      else s.(grants := s.grants[gid := Grant(to, row, expiresAt, true)])
    case PutRoles(app, roles) => s.(roles := s.roles[app := roles])
    case SetEmail(pid, email) =>
      if pid !in s.principals then s
      else s.(principals := s.principals[pid := s.principals[pid].(email := Some(email))])
    case ProvisionKey(cid, pid, admin, expiresAt) =>
      if cid in s.credentials || pid !in s.principals then s
      else s.(credentials := s.credentials[cid := Credential(Some(pid), admin, [], expiresAt, false)])
    case Accept(app, caller) =>
      var issuer := ResolveCaller(s, app, caller);
      if issuer.None? then s else s.(accepted := s.accepted + {Accepted(app, issuer.value)})
    case IssueService(app, issuer, pid, gid, cid, patterns, scope, _, _) =>
      if pid in s.principals || pid in s.lineage || gid in s.grants || cid in s.credentials then s
      else if Accepted(app, issuer) !in s.accepted || !MayIssueService(issuer, patterns, scope) then s
      else AddService(s, r)
    case IssueCredential(app, issuer, cid, bindTo, grants, expiresAt) =>
      if cid in s.credentials || Accepted(app, issuer) !in s.accepted || !MayIssueCredential(issuer, bindTo, grants) then s
      else s.(credentials := s.credentials[cid := Credential(bindTo, issuer.id, grants, expiresAt, false)])
    case IssueJwt(app, issuer, subject, grants, ttl) =>
      if Accepted(app, issuer) !in s.accepted || grants == [] || !AllCovered(issuer.permissions, grants) then s
      else
        var t := Token(app, subject, AsEntries(grants), s.now, s.now + PassthroughTtl(ttl), PassedThrough(issuer.id));
        s.(tokens := s.tokens + {t})
    case MintToken(app, pid, reading) =>
      if Enabled(s, pid) && s.principals[pid].isUser && IsReading(s, pid, app, reading) then
        var t := Token(app, pid, LivePermissions(s, pid, app, reading), s.now, s.now + DEFAULT_TOKEN_TTL, ForPrincipal);
        s.(tokens := s.tokens + {t})
      else s
    case MintFromKey(app, cid, reading) =>
      var t := TokenFromKey(s, app, cid, reading);
      if t.None? then s else s.(tokens := s.tokens + {t.value})
    case RevokeKey(app, revoker, cid) =>
      if Accepted(app, revoker) !in s.accepted || cid !in s.credentials || !MayRevoke(revoker, s.credentials[cid]) then s
      else MarkRevoked(s, cid)
    case Revoke(cid) => MarkRevoked(s, cid)
    case DeleteGrant(gid) => s.(grants := s.grants - {gid})
    case SetDisabled(pid, disabled) =>
      if pid !in s.principals then s
      else s.(principals := s.principals[pid := s.principals[pid].(disabled := disabled)])
    case DeletePrincipal(pid) =>
      s.(principals := s.principals - {pid},
         grants := map g | g in s.grants && s.grants[g].principal != pid :: s.grants[g],
         credentials := map c | c in s.credentials && s.credentials[c].principal != Some(pid) :: s.credentials[c])
    case Wait(seconds) => s.(now := s.now + seconds)
  }

  function Run(config: Config, requests: seq<Request>): State {
    if requests == [] then State(config, 0, map[], map[], map[], map[], map[], {}, {})
    else Step(Run(config, requests[..|requests| - 1]), requests[|requests| - 1])
  }
}
